/**
 * The part of Python's `pathlib` that the extension program relies on:
 * `Path.parent`, `Path.name`, `Path.suffix`, `Path.stem` and
 * `Path.with_suffix`, with the POSIX separator `/` and the rules of
 * CPython 3.11.  A path is its anchor (drive and root, "" for a relative
 * path) and its list of name components.
 */
module Paths {
  import opened Wrappers

  datatype Path = Path(anchor: string, parts: seq<string>)

  /** Why `with_suffix` raises `ValueError`. */
  datatype PathError = InvalidSuffix | EmptyName

  const Separator: char := '/'

  /** A name component as `pathlib` keeps it: non-empty, not ".", no separator. */
  predicate ValidPart(s: string) {
    s != "" && s != "." && Separator !in s
  }

  predicate ValidPath(p: Path) {
    forall i :: 0 <= i < |p.parts| ==> ValidPart(p.parts[i])
  }

  /** `Path.name`: the final component, "" when there is none. */
  function Name(p: Path): (r: string)
    ensures p.parts != [] ==> r == p.parts[|p.parts| - 1]
    ensures ValidPath(p) ==> (r == "" <==> p.parts == [])
  {
    if p.parts == [] then "" else p.parts[|p.parts| - 1]
  }

  /** `Path.parent`: the path without its final component; an anchor-only path is its own parent. */
  function Parent(p: Path): (r: Path)
    ensures r.anchor == p.anchor
    ensures p.parts != [] ==> r.parts + [Name(p)] == p.parts
    ensures p.parts == [] ==> r == p
    ensures ValidPath(p) ==> ValidPath(r)
  {
    if p.parts == [] then p else Path(p.anchor, p.parts[..|p.parts| - 1])
  }

  /** `str.rfind('.')`: the index of the last dot, or -1 when there is none. */
  function LastDot(s: string): (r: int)
    ensures -1 <= r < |s|
    ensures r >= 0 ==> s[r] == '.'
    ensures forall j :: r < j < |s| ==> s[j] != '.'
  {
    if s == [] then -1
    else if s[|s| - 1] == '.' then |s| - 1
    else LastDot(s[..|s| - 1])
  }

  /** Whether the name has a suffix: a dot that is neither its first nor its last character. */
  predicate HasSuffix(name: string) {
    var i := LastDot(name);
    0 < i < |name| - 1
  }

  /**
   * `Path.suffix` of a path whose name is `name`: empty when the name has no
   * suffix, otherwise a proper ending of the name that starts with its only
   * dot and has at least one character after it.
   */
  function Suffix(name: string): (r: string)
    ensures r != "" <==> HasSuffix(name)
    ensures r != "" ==>
              2 <= |r| < |name| && r[0] == '.' && '.' !in r[1..] && name[|name| - |r|..] == r
  {
    if HasSuffix(name) then
      var i := LastDot(name);
      name[i..]
    else ""
  }

  /** `Path.stem` of a path whose name is `name`: followed by the suffix it is the name, and it is empty only when the name is. */
  function Stem(name: string): (r: string)
    ensures r + Suffix(name) == name
    ensures r == "" <==> name == ""
  {
    if HasSuffix(name) then
      var i := LastDot(name);
      assert name[..i] + name[i..] == name;
      name[..i]
    else name
  }

  /** The suffixes `with_suffix` accepts: none, or a dot followed by at least one character, without separator. */
  predicate ValidSuffix(s: string) {
    Separator !in s && (s == "" || (s[0] == '.' && s != "."))
  }

  /** A suffix of exactly one extension such as ".m4a": a dot, then at least one character, none of them a dot. */
  predicate SimpleSuffix(s: string) {
    |s| >= 2 && s[0] == '.' && Separator !in s && '.' !in s[1..]
  }

  /** `Path.with_suffix`: replace the final component's suffix, or append one when it has none. */
  function WithSuffix(p: Path, suffix: string): (r: Result<Path, PathError>)
    ensures r.Err? <==> !ValidSuffix(suffix) || Name(p) == ""
    ensures !ValidSuffix(suffix) ==> r == Err(InvalidSuffix)
    ensures r.Ok? ==> Parent(r.value) == Parent(p) && Name(r.value) == Stem(Name(p)) + suffix
  {
    if !ValidSuffix(suffix) then Err(InvalidSuffix)
    else if Name(p) == "" then Err(EmptyName)
    else Ok(Path(p.anchor, p.parts[..|p.parts| - 1] + [Stem(Name(p)) + suffix]))
  }

  /** The last dot of a concatenation lies in its second half if that half has one. */
  lemma {:induction false} LastDotAppend(a: string, b: string)
    ensures LastDot(a + b) == if LastDot(b) >= 0 then |a| + LastDot(b) else LastDot(a)
  {
    if b == [] {
      assert a + b == a;
    } else {
      var ab := a + b;
      assert ab[|ab| - 1] == b[|b| - 1];
      if b[|b| - 1] != '.' {
        assert ab[..|ab| - 1] == a + b[..|b| - 1];
        LastDotAppend(a, b[..|b| - 1]);
      }
    }
  }

  /** Appending a simple suffix to a non-empty stem gives a name whose suffix and stem are exactly those. */
  lemma SplitAfterAppend(stem: string, suffix: string)
    requires stem != "" && SimpleSuffix(suffix)
    ensures Suffix(stem + suffix) == suffix
    ensures Stem(stem + suffix) == stem
  {
    LastDotAppend(stem, suffix);
    var n := stem + suffix;
    assert LastDot(suffix) == 0 by {
      assert forall j :: 1 <= j < |suffix| ==> suffix[j] == suffix[1..][j - 1];
    }
    assert LastDot(n) == |stem|;
    assert n[|stem|..] == suffix;
    assert n[..|stem|] == stem;
  }

  /** After `with_suffix(s)` the path's suffix is `s` and its stem is the old stem. */
  lemma WithSuffixSuffix(p: Path, suffix: string)
    requires Name(p) != "" && SimpleSuffix(suffix)
    ensures WithSuffix(p, suffix).Ok?
    ensures Suffix(Name(WithSuffix(p, suffix).value)) == suffix
    ensures Stem(Name(WithSuffix(p, suffix).value)) == Stem(Name(p))
  {
    SplitAfterAppend(Stem(Name(p)), suffix);
  }

  /** `with_suffix(s)` leaves a path unchanged exactly when its suffix already is `s`. */
  lemma WithSuffixUnchangedIff(p: Path, suffix: string)
    requires Name(p) != "" && SimpleSuffix(suffix)
    ensures WithSuffix(p, suffix).Ok?
    ensures WithSuffix(p, suffix).value == p <==> Suffix(Name(p)) == suffix
  {
    var q := WithSuffix(p, suffix).value;
    WithSuffixSuffix(p, suffix);
    if Suffix(Name(p)) == suffix {
      assert q.parts == p.parts[..|p.parts| - 1] + [Name(p)];
      assert q.parts == p.parts;
    }
  }

  /** `with_suffix` keeps a well-formed path well-formed. */
  lemma WithSuffixValid(p: Path, suffix: string)
    requires ValidPath(p) && Name(p) != "" && SimpleSuffix(suffix)
    ensures WithSuffix(p, suffix).Ok?
    ensures ValidPath(WithSuffix(p, suffix).value)
  {
    var q := WithSuffix(p, suffix).value;
    var last := Stem(Name(p)) + suffix;
    assert Separator !in Stem(Name(p)) by {
      assert ValidPart(p.parts[|p.parts| - 1]);
    }
    assert |last| > 1;
    assert ValidPart(last);
    forall i | 0 <= i < |q.parts|
      ensures ValidPart(q.parts[i])
    {
      if i < |q.parts| - 1 {
        assert q.parts[i] == p.parts[i];
      }
    }
  }

  /** Applying `with_suffix` twice with the same simple suffix is the same as once. */
  lemma WithSuffixIdempotent(p: Path, suffix: string)
    requires Name(p) != "" && SimpleSuffix(suffix)
    ensures WithSuffix(p, suffix).Ok?
    ensures WithSuffix(WithSuffix(p, suffix).value, suffix) == WithSuffix(p, suffix)
  {
    var q := WithSuffix(p, suffix).value;
    WithSuffixSuffix(p, suffix);
    assert Name(q) != "";
    WithSuffixUnchangedIff(q, suffix);
  }

  /** `with_suffix` replaces an ordinary suffix. */
  lemma WithSuffixReplacesExample()
    ensures WithSuffix(Path("", ["music", "song.wav"]), ".m4a") == Ok(Path("", ["music", "song.m4a"]))
  {
    assert LastDot("song.wav") == 4 by {
      assert "song.wav"[..7] == "song.wa" && "song.wa"[..6] == "song.w" && "song.w"[..5] == "song.";
    }
    assert Stem("song.wav") == "song" && "song" + ".m4a" == "song.m4a";
    assert ["music", "song.wav"][..1] + ["song.m4a"] == ["music", "song.m4a"];
  }

  /** Of two suffixes, `with_suffix` replaces only the last. */
  lemma WithSuffixLastOnlyExample()
    ensures WithSuffix(Path("/", ["a.tar.gz"]), ".m4a") == Ok(Path("/", ["a.tar.m4a"]))
  {
    assert LastDot("a.tar.gz") == 5 by {
      assert "a.tar.gz"[..7] == "a.tar.g" && "a.tar.g"[..6] == "a.tar.";
    }
    assert Stem("a.tar.gz") == "a.tar" && "a.tar" + ".m4a" == "a.tar.m4a";
    assert ["a.tar.gz"][..0] + ["a.tar.m4a"] == ["a.tar.m4a"];
  }

  /**
   * A name that starts or ends with its only dot has no suffix, so
   * `with_suffix` appends; a path without a name is refused.
   */
  lemma WithSuffixAppendsExample()
    ensures WithSuffix(Path("", [".wav"]), ".m4a") == Ok(Path("", [".wav.m4a"]))
    ensures WithSuffix(Path("", ["x."]), ".m4a") == Ok(Path("", ["x..m4a"]))
    ensures WithSuffix(Path("/", []), ".m4a") == Err(EmptyName)
  {
    assert LastDot(".wav") == 0 by {
      assert ".wav"[..3] == ".wa" && ".wa"[..2] == ".w" && ".w"[..1] == ".";
    }
    assert Stem(".wav") == ".wav" && ".wav" + ".m4a" == ".wav.m4a";
    assert Stem("x.") == "x." && "x." + ".m4a" == "x..m4a";
  }
}
