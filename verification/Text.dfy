/** The string operations the header parser is built from. */
module Text {
  import opened Wrappers

  /** Unicode's White_Space property. */
  predicate IsWhitespace(c: char) {
    || '\t' <= c <= '\r' || c == ' ' || c == '\U{85}' || c == '\U{A0}' || c == '\U{1680}'
    || '\U{2000}' <= c <= '\U{200A}' || c == '\U{2028}' || c == '\U{2029}' || c == '\U{202F}'
    || c == '\U{205F}' || c == '\U{3000}'
  }

  function TrimStart(s: string): string {
    if s != "" && IsWhitespace(s[0]) then TrimStart(s[1..]) else s
  }

  function TrimEnd(s: string): string {
    if s != "" && IsWhitespace(s[|s| - 1]) then TrimEnd(s[..|s| - 1]) else s
  }

  function Trim(s: string): string {
    TrimEnd(TrimStart(s))
  }

  predicate IsDigit(c: char) {
    '0' <= c <= '9'
  }

  predicate AllDigits(s: string) {
    forall i :: 0 <= i < |s| ==> IsDigit(s[i])
  }

  function LowerAscii(c: char): char {
    if 'A' <= c <= 'Z' then c - 'A' + 'a' else c
  }

  predicate SameIgnoringCase(a: string, b: string) {
    |a| == |b| && forall i :: 0 <= i < |a| ==> LowerAscii(a[i]) == LowerAscii(b[i])
  }

  /** The pieces between separators; there is always one. */
  function Split(s: string, separator: char): (pieces: seq<string>)
    ensures pieces != []
    ensures forall piece :: piece in pieces ==> separator !in piece
  {
    if s == "" then [""]
    else
      var rest := Split(s[1..], separator);
      if s[0] == separator then [""] + rest else [[s[0]] + rest[0]] + rest[1..]
  }

  function SplitOnce(s: string, separator: char): (r: Option<(string, string)>)
    ensures r.None? <==> separator !in s
    ensures r.Some? ==> s == r.value.0 + [separator] + r.value.1 && separator !in r.value.0
  {
    if s == "" then None
    else if s[0] == separator then Some(("", s[1..]))
    else
      match SplitOnce(s[1..], separator)
      case None => None
      case Some((before, after)) => Some(([s[0]] + before, after))
  }

  function Unsplit(pieces: seq<string>, separator: char): string
    requires pieces != []
  {
    if |pieces| == 1 then pieces[0] else pieces[0] + [separator] + Unsplit(pieces[1..], separator)
  }

  /** Splitting loses nothing. */
  lemma {:induction false} UnsplitSplit(s: string, separator: char)
    ensures Unsplit(Split(s, separator), separator) == s
  {
    if s != "" {
      UnsplitSplit(s[1..], separator);
      var rest := Split(s[1..], separator);
      if s[0] == separator {
        assert ([""] + rest)[1..] == rest;
      } else {
        assert ([[s[0]] + rest[0]] + rest[1..])[1..] == rest[1..];
      }
      assert s == [s[0]] + s[1..];
    }
  }

  lemma {:induction false} SplitJoined(a: string, b: string, separator: char)
    ensures Split(a + [separator] + b, separator) == Split(a, separator) + Split(b, separator)
    decreases |a|
  {
    var s := a + [separator] + b;
    if a == "" {
      assert s[1..] == b;
    } else {
      assert s[1..] == a[1..] + [separator] + b;
      SplitJoined(a[1..], b, separator);
    }
  }

  lemma {:induction false} SplitWhole(s: string, separator: char)
    requires separator !in s
    ensures Split(s, separator) == [s]
  {
    if s != "" {
      SplitWhole(s[1..], separator);
      assert s == [s[0]] + s[1..];
    }
  }

  /** Splitting undoes joining. */
  lemma {:induction false} SplitUnsplit(pieces: seq<string>, separator: char)
    requires pieces != [] && forall piece :: piece in pieces ==> separator !in piece
    ensures Split(Unsplit(pieces, separator), separator) == pieces
  {
    SplitWhole(pieces[0], separator);
    if |pieces| > 1 {
      SplitUnsplit(pieces[1..], separator);
      SplitJoined(pieces[0], Unsplit(pieces[1..], separator), separator);
    }
  }
}
