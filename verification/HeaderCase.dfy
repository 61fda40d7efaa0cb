/** Letter case does not matter in Accept-Encoding (section 8.4.1 of RFC 9110). */
module HeaderCase {
  import opened Wrappers
  import opened Text
  import opened Negotiation
  import Q = Qvalue

  function Lower(s: string): (r: string)
    ensures |r| == |s|
  {
    seq(|s|, i requires 0 <= i < |s| => LowerAscii(s[i]))
  }

  function LowerAll(pieces: seq<string>): (r: seq<string>)
    ensures |r| == |pieces|
  {
    seq(|pieces|, i requires 0 <= i < |pieces| => Lower(pieces[i]))
  }

  predicate IsLetter(c: char) {
    'A' <= c <= 'Z' || 'a' <= c <= 'z'
  }

  lemma LowerChar(c: char, d: char)
    requires !IsLetter(d)
    ensures LowerAscii(c) == d <==> c == d
    ensures IsWhitespace(LowerAscii(c)) <==> IsWhitespace(c)
    ensures IsDigit(LowerAscii(c)) <==> IsDigit(c)
    ensures IsDigit(c) ==> LowerAscii(c) == c
    ensures LowerAscii(LowerAscii(c)) == LowerAscii(c)
  {
  }

  lemma {:induction false} LowerTrimStart(s: string)
    ensures TrimStart(Lower(s)) == Lower(TrimStart(s))
  {
    if s != "" {
      LowerChar(s[0], ' ');
      LowerTrimStart(s[1..]);
      assert Lower(s)[1..] == Lower(s[1..]);
    }
  }

  lemma {:induction false} LowerTrimEnd(s: string)
    ensures TrimEnd(Lower(s)) == Lower(TrimEnd(s))
  {
    if s != "" {
      LowerChar(s[|s| - 1], ' ');
      LowerTrimEnd(s[..|s| - 1]);
      assert Lower(s)[..|s| - 1] == Lower(s[..|s| - 1]);
    }
  }

  lemma LowerTrim(s: string)
    ensures Trim(Lower(s)) == Lower(Trim(s))
  {
    LowerTrimStart(s);
    LowerTrimEnd(TrimStart(s));
  }

  lemma LowerHead(s: string)
    requires s != ""
    ensures Lower(s)[0] == LowerAscii(s[0]) && Lower(s)[1..] == Lower(s[1..])
  {
  }

  lemma LowerCons(c: char, s: string)
    ensures Lower([c] + s) == [LowerAscii(c)] + Lower(s)
  {
  }

  lemma LowerAllHead(pieces: seq<string>)
    requires pieces != []
    ensures LowerAll(pieces)[0] == Lower(pieces[0]) && LowerAll(pieces)[1..] == LowerAll(pieces[1..])
  {
  }

  lemma LowerAllCons(piece: string, pieces: seq<string>)
    ensures LowerAll([piece] + pieces) == [Lower(piece)] + LowerAll(pieces)
  {
  }

  lemma {:induction false} LowerSplit(s: string, separator: char)
    requires !IsLetter(separator)
    ensures Split(Lower(s), separator) == LowerAll(Split(s, separator))
  {
    if s == "" {
      assert Lower(s) == "";
      assert LowerAll([""]) == [""];
    } else {
      hide Lower, LowerAll, LowerAscii;
      LowerHead(s);
      LowerChar(s[0], separator);
      LowerSplit(s[1..], separator);
      var rest := Split(s[1..], separator);
      if s[0] == separator {
        LowerAllCons("", rest);
        assert |Lower("")| == 0;
      } else {
        LowerCons(s[0], rest[0]);
        LowerAllHead(rest);
        LowerAllCons([s[0]] + rest[0], rest[1..]);
      }
    }
  }

  lemma {:induction false} LowerSplitOnce(s: string, separator: char)
    requires !IsLetter(separator)
    ensures SplitOnce(Lower(s), separator) ==
              match SplitOnce(s, separator)
              case None => None
              case Some((before, after)) => Some((Lower(before), Lower(after)))
  {
    if s != "" {
      hide Lower, LowerAscii;
      LowerHead(s);
      LowerChar(s[0], separator);
      LowerSplitOnce(s[1..], separator);
      match SplitOnce(s[1..], separator)
      case None => assert |Lower("")| == 0;
      case Some((before, _)) =>
        LowerCons(s[0], before);
        assert |Lower("")| == 0;
    }
  }

  lemma LowerSame(a: string, b: string)
    ensures SameIgnoringCase(Lower(a), b) <==> SameIgnoringCase(a, b)
  {
    forall i | 0 <= i < |a| ensures LowerAscii(Lower(a)[i]) == LowerAscii(a[i]) {
      LowerChar(a[i], ' ');
    }
  }

  lemma LowerQuality(s: string)
    ensures Q.Quality(Lower(s)) == Q.Quality(s)
  {
    forall i | 0 <= i < |s|
      ensures Lower(s)[i] == '0' <==> s[i] == '0'
      ensures Lower(s)[i] == '1' <==> s[i] == '1'
      ensures Lower(s)[i] == '.' <==> s[i] == '.'
      ensures IsDigit(Lower(s)[i]) <==> IsDigit(s[i])
      ensures IsDigit(s[i]) ==> Lower(s)[i] == s[i]
    {
      LowerChar(s[i], '0');
      LowerChar(s[i], '1');
      LowerChar(s[i], '.');
    }
    if Q.IsQvalue(s) {
      assert Lower(s) == s;
    } else {
      assert !Q.IsQvalue(Lower(s));
    }
  }

  lemma {:induction false} LowerWeight(parameters: seq<string>, quality: nat)
    ensures Weight(LowerAll(parameters), quality) == Weight(parameters, quality)
  {
    if parameters != [] {
      var rest := parameters[1..];
      assert LowerAll(parameters)[1..] == LowerAll(rest);
      LowerTrim(parameters[0]);
      LowerSplitOnce(Trim(parameters[0]), '=');
      match SplitOnce(Trim(parameters[0]), '=')
      case None =>
      case Some((name, value)) =>
        LowerTrim(name);
        LowerTrim(value);
        LowerSame(Trim(name), "q");
        LowerQuality(Trim(value));
        LowerWeight(rest, quality);
        if Q.Quality(Trim(value)).Some? {
          LowerWeight(rest, Q.Quality(Trim(value)).value);
        }
    }
  }

  lemma LowerSlot(token: string)
    ensures SlotOf(Lower(token)) == SlotOf(token)
  {
    LowerSame(token, "gzip");
    LowerSame(token, "x-gzip");
    LowerSame(token, "deflate");
    LowerSame(token, "br");
    LowerSame(token, "zstd");
    LowerSame(token, "dcb");
    LowerSame(token, "dcz");
    LowerSame(token, "identity");
    if |token| == 1 {
      LowerChar(token[0], '*');
      assert token == [token[0]] && Lower(token) == [LowerAscii(token[0])];
    }
  }

  lemma LowerItem(item: string)
    ensures ReadItem(Lower(item)) == ReadItem(item)
  {
    LowerTrim(item);
    LowerSplit(Trim(item), ';');
    var parts := Split(Trim(item), ';');
    LowerTrim(parts[0]);
    LowerSlot(Trim(parts[0]));
    LowerWeight(parts[1..], Q.QUALITY_MAX);
    assert LowerAll(parts)[1..] == LowerAll(parts[1..]);
  }

  lemma {:induction false} LowerItems(items: seq<string>)
    ensures ReadItems(LowerAll(items)) == ReadItems(items)
  {
    if items != [] {
      var before, last := items[..|items| - 1], items[|items| - 1];
      hide ReadItem, Raise;
      LowerItems(before);
      LowerItem(last);
      var lowered := LowerAll(items);
      assert lowered[..|lowered| - 1] == LowerAll(before) && lowered[|lowered| - 1] == Lower(last);
      hide LowerAll, Lower;
    }
  }

  /** Codings, the `q` of a weight, and everything else are read alike in either case. */
  lemma {:induction false} CaseDoesNotMatter(value: string)
    ensures Read(Lower(value)) == Read(value)
  {
    LowerSplit(value, ',');
    LowerItems(Split(value, ','));
  }

  // ----- names -----

  lemma SameIsLower(s: string, name: string)
    requires Lower(name) == name
    ensures SameIgnoringCase(s, name) <==> Lower(s) == name
  {
    assert forall i :: 0 <= i < |name| ==> Lower(name)[i] == name[i];
  }

  /** A header line counts if its name is accept-encoding, in any case, and its value is text. */
  lemma {:induction false} LineIff(header: Header)
    ensures IsLine(header) <==> Lower(header.name) == "accept-encoding" && header.value.Some?
  {
    assert Lower("accept-encoding") == "accept-encoding";
    SameIsLower(header.name, "accept-encoding");
  }

  /** The names of a coding: its token, and for gzip its old name. */
  function Names(coding: ContentCoding): set<string> {
    {Token(coding)} + (if coding == Gzip then {"x-gzip"} else {})
  }

  /** A token is read as a coding exactly when it is one of its names, in any case. */
  lemma {:induction false} NamesAreRead(value: string, coding: ContentCoding)
    ensures ParseCoding(value) == Some(coding) <==> Lower(value) in Names(coding)
  {
    forall name | name in ["gzip", "x-gzip", "deflate", "br", "zstd", "dcb", "dcz", "identity"]
      ensures SameIgnoringCase(value, name) <==> Lower(value) == name
    {
      assert Lower(name) == name;
      SameIsLower(value, name);
    }
    hide Lower, SameIgnoringCase;
    TokensDiffer();
  }

  /** No two codings share a name. */
  lemma TokensDiffer()
    ensures forall a, b, name :: name in Names(a) && name in Names(b) ==> a == b
  {
    forall a, b, name | name in Names(a) && name in Names(b) ensures a == b {
      assert |Token(a)| == |name| || name == "x-gzip";
      assert |Token(b)| == |name| || name == "x-gzip";
    }
  }
}
