/**
 * The output formats of the `--format` option: the option's text is
 * upper-cased and must then be one of the five choice names.
 */
module Formats {
  import opened Wrappers

  datatype Format = WAV | FLAC | OGG | MP3 | M4A

  /** The choice name of a format, as the option's `choices` list spells it. */
  function FormatName(f: Format): string {
    match f
    case WAV => "WAV"
    case FLAC => "FLAC"
    case OGG => "OGG"
    case MP3 => "MP3"
    case M4A => "M4A"
  }

  /** The default of `--format`. */
  const DefaultFormat: Format := M4A

  function UpperChar(c: char): char {
    if 'a' <= c <= 'z' then (c as int - 'a' as int + 'A' as int) as char else c
  }

  function LowerChar(c: char): char {
    if 'A' <= c <= 'Z' then (c as int - 'A' as int + 'a' as int) as char else c
  }

  /** `str.upper()` restricted to ASCII letters. */
  function Upper(s: string): (r: string)
    ensures |r| == |s|
    ensures forall i :: 0 <= i < |s| ==> r[i] == UpperChar(s[i])
  {
    if s == [] then [] else [UpperChar(s[0])] + Upper(s[1..])
  }

  /** `str.lower()` restricted to ASCII letters. */
  function Lower(s: string): (r: string)
    ensures |r| == |s|
    ensures forall i :: 0 <= i < |s| ==> r[i] == LowerChar(s[i])
  {
    if s == [] then [] else [LowerChar(s[0])] + Lower(s[1..])
  }

  /**
   * The `type=lambda s: s.upper()` conversion followed by the `choices`
   * check: the format whose name the upper-cased text is, or None (the
   * parser's "invalid choice" error) when there is none.
   */
  function ParseFormat(s: string): (r: Option<Format>)
    ensures forall f :: r == Some(f) <==> Upper(s) == FormatName(f)
  {
    var u := Upper(s);
    if u == "WAV" then Some(WAV)
    else if u == "FLAC" then Some(FLAC)
    else if u == "OGG" then Some(OGG)
    else if u == "MP3" then Some(MP3)
    else if u == "M4A" then Some(M4A)
    else (assert forall f :: u != FormatName(f); None)
  }

  /** Upper-casing is idempotent. */
  lemma {:induction false} UpperIdempotent(s: string)
    ensures Upper(Upper(s)) == Upper(s)
  {
    assert forall i :: 0 <= i < |s| ==> UpperChar(UpperChar(s[i])) == UpperChar(s[i]);
  }

  /** Upper-casing undoes lower-casing on every string. */
  lemma UpperLower(s: string)
    ensures Upper(Lower(s)) == Upper(s)
  {
    assert forall i :: 0 <= i < |s| ==> UpperChar(LowerChar(s[i])) == UpperChar(s[i]);
  }

  /** The option is case-insensitive: a lower-cased or upper-cased spelling parses as the text itself does. */
  lemma ParseIgnoresCase(s: string)
    ensures ParseFormat(Lower(s)) == ParseFormat(s)
    ensures ParseFormat(Upper(s)) == ParseFormat(s)
  {
    UpperLower(s);
    UpperIdempotent(s);
  }

  /** Every choice name parses back to its format, in any ASCII case. */
  lemma ParseFormatName(f: Format)
    ensures ParseFormat(FormatName(f)) == Some(f)
    ensures ParseFormat(Lower(FormatName(f))) == Some(f)
  {
    var n := FormatName(f);
    assert Upper(n) == n;
    ParseIgnoresCase(n);
  }
}
