/**
 * Optional blanks in Accept-Encoding (section 5.6.3 of RFC 9110): around items, around `;`, and around the name and
 * the value of a parameter. What a list says is stated here on its parts, without splitting or trimming anything.
 */
module HeaderPadding {
  import opened Wrappers
  import opened Text
  import opened Negotiation
  import opened HeaderPrinter
  import Q = Qvalue

  predicate IsBlank(c: char) {
    c == ' ' || c == '\t'
  }

  predicate AllBlank(s: string) {
    forall i :: 0 <= i < |s| ==> IsBlank(s[i])
  }

  /** Nothing to trim at either end. */
  predicate Bare(s: string) {
    s == "" || (!IsWhitespace(s[0]) && !IsWhitespace(s[|s| - 1]))
  }

  /** Text with blanks before and after it. */
  datatype Padded = Padded(before: string, text: string, after: string) {
    predicate Ok(excluded: string) {
      && AllBlank(before) && AllBlank(after) && Bare(text)
      && forall i :: 0 <= i < |text| ==> text[i] !in excluded
    }

    function Print(): string {
      before + text + after
    }
  }

  datatype Parameter = Pair(name: Padded, value: Padded) | Word(word: Padded) {
    predicate Ok() {
      match this
      case Pair(name, value) => name.Ok(",;=") && value.Ok(",;")
      case Word(word) => word.Ok(",;=")
    }

    function Print(): string {
      match this
      case Pair(name, value) => name.Print() + "=" + value.Print()
      case Word(word) => word.Print()
    }
  }

  datatype ListItem = ListItem(token: Padded, parameters: seq<Parameter>) {
    predicate Ok() {
      token.Ok(",;") && forall i :: 0 <= i < |parameters| ==> parameters[i].Ok()
    }
  }

  // ----- what it says -----

  /** The last `q` counts, and every one must be a qvalue; a word without `=` spoils the item; other parameters
      are passed over. */
  function WeightSaid(parameters: seq<Parameter>): Option<nat> {
    if parameters == [] then Some(1000)
    else
      var last := parameters[|parameters| - 1];
      match WeightSaid(parameters[..|parameters| - 1])
      case None => None
      case Some(quality) =>
        match last
        case Word(_) => None
        case Pair(name, value) =>
          if name.text == "q" || name.text == "Q" then Q.Quality(value.text) else Some(quality)
  }

  function Said(item: ListItem): Option<Item> {
    match WeightSaid(item.parameters)
    case None => None
    case Some(quality) =>
      match SlotOf(item.token.text)
      case None => None
      case Some(slot) => Some(Item(slot, quality))
  }

  function AllSaid(items: seq<ListItem>): set<Option<Item>> {
    set item | item in items :: Said(item)
  }

  // ----- how it is written -----

  function PrintParameters(parameters: seq<Parameter>): (r: seq<string>)
    ensures |r| == |parameters|
  {
    seq(|parameters|, i requires 0 <= i < |parameters| => parameters[i].Print())
  }

  function PrintListItem(item: ListItem): string {
    Unsplit([item.token.Print()] + PrintParameters(item.parameters), ';')
  }

  function PrintList(items: seq<ListItem>): string
    requires items != []
  {
    Unsplit(seq(|items|, i requires 0 <= i < |items| => PrintListItem(items[i])), ',')
  }

  // ----- trimming -----

  lemma {:induction false} TrimStartPadded(before: string, s: string)
    requires AllBlank(before)
    ensures TrimStart(before + s) == TrimStart(s)
  {
    if before == "" {
      assert before + s == s;
    } else {
      assert (before + s)[1..] == before[1..] + s;
      TrimStartPadded(before[1..], s);
    }
  }

  lemma {:induction false} TrimEndPadded(s: string, after: string)
    requires AllBlank(after)
    ensures TrimEnd(s + after) == TrimEnd(s)
  {
    if after == "" {
      assert s + after == s;
    } else {
      assert (s + after)[..|s + after| - 1] == s + after[..|after| - 1];
      TrimEndPadded(s, after[..|after| - 1]);
    }
  }

  lemma TrimPadded(p: Padded, excluded: string)
    requires p.Ok(excluded)
    ensures Trim(p.Print()) == p.text
  {
    assert p.Print() == p.before + (p.text + p.after);
    TrimStartPadded(p.before, p.text + p.after);
    if p.text == "" {
      assert p.text + p.after == p.after + "";
      TrimStartPadded(p.after, "");
    } else {
      TrimEndPadded(p.text, p.after);
    }
  }

  lemma TrimStartSnoc(s: string, c: char)
    ensures TrimStart(s + [c]) == if IsWhitespace(c) && TrimStart(s) == "" then "" else TrimStart(s) + [c]
  {
    if s == "" {
      assert s + [c] == [c] && [c][1..] == "";
      assert "" + [c] == [c];
    } else {
      assert (s + [c])[1..] == s[1..] + [c];
      if IsWhitespace(s[0]) {
        TrimStartSnoc(s[1..], c);
      }
    }
  }

  lemma {:induction false} TrimsCommute(s: string)
    ensures TrimStart(TrimEnd(s)) == TrimEnd(TrimStart(s))
  {
    if s != "" {
      var before, c := s[..|s| - 1], s[|s| - 1];
      assert s == before + [c];
      TrimStartSnoc(before, c);
      var left := TrimStart(before);
      assert (left + [c])[..|left|] == left;
      if IsWhitespace(c) {
        TrimsCommute(before);
      }
    }
  }

  lemma {:induction false} TrimStartTwice(s: string)
    ensures TrimStart(TrimStart(s)) == TrimStart(s)
  {
    if s != "" && IsWhitespace(s[0]) {
      TrimStartTwice(s[1..]);
    }
  }

  lemma {:induction false} TrimEndTwice(s: string)
    ensures TrimEnd(TrimEnd(s)) == TrimEnd(s)
  {
    if s != "" && IsWhitespace(s[|s| - 1]) {
      TrimEndTwice(s[..|s| - 1]);
    }
  }

  lemma TrimsAgain(s: string)
    ensures Trim(TrimStart(s)) == Trim(s) && Trim(TrimEnd(s)) == Trim(s) && Trim(Trim(s)) == Trim(s)
  {
    TrimStartTwice(s);
    TrimsCommute(s);
    TrimEndTwice(s);
    TrimEndTwice(TrimStart(s));
    TrimsCommute(TrimStart(s));
  }

  // ----- trimming does not cross a separator -----

  lemma {:induction false} SplitTrimStart(s: string, separator: char)
    requires !IsWhitespace(separator)
    ensures var pieces := Split(s, separator);
            Split(TrimStart(s), separator) == [TrimStart(pieces[0])] + pieces[1..]
  {
    var pieces := Split(s, separator);
    if s != "" && IsWhitespace(s[0]) {
      SplitTrimStart(s[1..], separator);
      var rest := Split(s[1..], separator);
      assert pieces == [[s[0]] + rest[0]] + rest[1..];
      assert ([s[0]] + rest[0])[1..] == rest[0];
    } else {
      assert TrimStart(pieces[0]) == pieces[0];
    }
  }

  lemma {:induction false} SplitSnoc(s: string, c: char, separator: char)
    ensures var pieces := Split(s, separator);
            var n := |pieces| - 1;
            Split(s + [c], separator) == if c == separator then pieces + [""] else pieces[n := pieces[n] + [c]]
  {
    if s == "" {
      assert s + [c] == [c] && [c][1..] == "";
      assert [c] + "" == "" + [c] == [c];
      assert Split("", separator) == [""];
      assert [[c] + ""] + [""][1..] == [""][0 := "" + [c]];
    } else {
      assert (s + [c])[1..] == s[1..] + [c] && (s + [c])[0] == s[0];
      SplitSnoc(s[1..], c, separator);
      PiecesSnoc(s[0], Split(s[1..], separator), c, separator);
    }
  }

  /** A character before the pieces and one behind them do not get into each other's way. */
  lemma PiecesSnoc(first: char, rest: seq<string>, c: char, separator: char)
    requires rest != []
    ensures var n := |rest| - 1;
            var more := if c == separator then rest + [""] else rest[n := rest[n] + [c]];
            && ([""] + more == if c == separator then ([""] + rest) + [""]
                               else ([""] + rest)[n + 1 := ([""] + rest)[n + 1] + [c]])
            && var pieces := [[first] + rest[0]] + rest[1..];
               [[first] + more[0]] + more[1..] == if c == separator then pieces + [""]
                                                  else pieces[n := pieces[n] + [c]]
  {
    var n := |rest| - 1;
    if c != separator && n == 0 {
      assert [first] + (rest[0] + [c]) == ([first] + rest[0]) + [c];
    }
  }

  lemma TrimEndSnoc(s: string, c: char)
    ensures TrimEnd(s + [c]) == if IsWhitespace(c) then TrimEnd(s) else s + [c]
  {
    assert (s + [c])[..|s|] == s;
  }

  lemma {:induction false} SplitTrimEnd(s: string, separator: char)
    requires !IsWhitespace(separator)
    ensures var pieces := Split(s, separator);
            var n := |pieces| - 1;
            Split(TrimEnd(s), separator) == pieces[n := TrimEnd(pieces[n])]
  {
    if s == "" {
      assert Split(s, separator) == [""];
    } else {
      var before, c := s[..|s| - 1], s[|s| - 1];
      assert s == before + [c];
      if IsWhitespace(c) {
        SplitTrimEnd(before, separator);
        BlankBehind(before, c, separator);
      } else {
        PlainBehind(before, c, separator);
      }
    }
  }

  lemma BlankBehind(s: string, c: char, separator: char)
    requires !IsWhitespace(separator) && IsWhitespace(c)
    ensures TrimEnd(s + [c]) == TrimEnd(s)
    ensures var was, now, n := Split(s, separator), Split(s + [c], separator), |Split(s, separator)| - 1;
            |now| == |was| && was[n := TrimEnd(was[n])] == now[n := TrimEnd(now[n])]
  {
    SplitSnoc(s, c, separator);
    hide Split;
    TrimEndSnoc(s, c);
    TrimEndSnoc(Split(s, separator)[|Split(s, separator)| - 1], c);
  }

  lemma PlainBehind(s: string, c: char, separator: char)
    requires !IsWhitespace(c)
    ensures TrimEnd(s + [c]) == s + [c]
    ensures var now := Split(s + [c], separator);
            var n := |now| - 1;
            now[n := TrimEnd(now[n])] == now
  {
    SplitSnoc(s, c, separator);
    hide Split;
    TrimEndSnoc(s, c);
    TrimEndSnoc(Split(s, separator)[|Split(s, separator)| - 1], c);
    assert TrimEnd("") == "";
  }

  /** Trimming a whole changes its pieces by what trimming them removes anyway. */
  lemma SplitTrim(s: string, separator: char)
    requires !IsWhitespace(separator)
    ensures SameTrims(Split(Trim(s), separator), Split(s, separator))
  {
    SplitTrimStart(s, separator);
    SplitTrimEnd(TrimStart(s), separator);
    assert Split(s, separator) != [] && Split(Trim(s), separator) == Split(TrimEnd(TrimStart(s)), separator);
    hide Split, TrimStart, TrimEnd;
    PiecesTrim(Split(s, separator));
  }

  lemma PiecesTrim(pieces: seq<string>)
    requires pieces != []
    ensures var started := [TrimStart(pieces[0])] + pieces[1..];
            var n := |started| - 1;
            SameTrims(started[n := TrimEnd(started[n])], pieces)
  {
    hide TrimStart, TrimEnd, Trim;
    var started := [TrimStart(pieces[0])] + pieces[1..];
    TrimsAgain(pieces[0]);
    TrimsAgain(started[|started| - 1]);
  }

  predicate SameTrims(a: seq<string>, b: seq<string>) {
    |a| == |b| && forall i :: 0 <= i < |a| ==> Trim(a[i]) == Trim(b[i])
  }

  // ----- the first separator -----

  lemma {:induction false} SplitOnceAt(before: string, after: string, separator: char)
    requires separator !in before
    ensures SplitOnce(before + [separator] + after, separator) == Some((before, after))
  {
    var s := before + [separator] + after;
    if before == "" {
      assert s[1..] == after;
    } else {
      assert s[1..] == before[1..] + [separator] + after;
      SplitOnceAt(before[1..], after, separator);
      assert [before[0]] + before[1..] == before;
    }
  }

  /** Two pairs with the same parts once trimmed. */
  predicate SamePairs(a: Option<(string, string)>, b: Option<(string, string)>) {
    match (a, b)
    case (None, None) => true
    case (Some((x, y)), Some((z, w))) => Trim(x) == Trim(z) && Trim(y) == Trim(w)
    case _ => false
  }

  lemma {:induction false} SplitOnceTrimStart(s: string, separator: char)
    requires !IsWhitespace(separator)
    ensures SamePairs(SplitOnce(TrimStart(s), separator), SplitOnce(s, separator))
  {
    if s != "" && IsWhitespace(s[0]) {
      SplitOnceTrimStart(s[1..], separator);
      match SplitOnce(s[1..], separator)
      case None =>
      case Some((before, _)) =>
        assert ([s[0]] + before)[1..] == before;
        assert TrimStart([s[0]] + before) == TrimStart(before);
    }
  }

  lemma SplitOnceSnoc(s: string, c: char, separator: char)
    requires c != separator
    ensures SplitOnce(s + [c], separator) ==
              match SplitOnce(s, separator)
              case None => None
              case Some((before, after)) => Some((before, after + [c]))
  {
    match SplitOnce(s, separator)
    case None => assert separator !in s + [c];
    case Some((before, after)) =>
      SplitOnceAt(before, after + [c], separator);
      assert s + [c] == before + [separator] + (after + [c]);
  }

  lemma {:induction false} SplitOnceTrimEnd(s: string, separator: char)
    requires !IsWhitespace(separator)
    ensures SamePairs(SplitOnce(TrimEnd(s), separator), SplitOnce(s, separator))
  {
    if s != "" && IsWhitespace(s[|s| - 1]) {
      var before, c := s[..|s| - 1], s[|s| - 1];
      assert s == before + [c];
      SplitOnceTrimEnd(before, separator);
      SplitOnceSnoc(before, c, separator);
      match SplitOnce(before, separator)
      case None =>
      case Some((_, after)) => TrimBlankBehind(after, c);
    }
  }

  lemma TrimBlankBehind(s: string, c: char)
    requires IsWhitespace(c)
    ensures Trim(s + [c]) == Trim(s)
  {
    TrimEndSnoc(s, c);
    TrimsAgain(s);
    TrimsAgain(s + [c]);
  }

  lemma SplitOnceTrim(s: string, separator: char)
    requires !IsWhitespace(separator)
    ensures SamePairs(SplitOnce(Trim(s), separator), SplitOnce(s, separator))
  {
    SplitOnceTrimStart(s, separator);
    SplitOnceTrimEnd(TrimStart(s), separator);
    hide SplitOnce;
  }

  // ----- a parameter, an item, a list -----

  lemma PaddedLacks(p: Padded, excluded: string, c: char)
    requires p.Ok(excluded) && c in excluded && !IsBlank(c)
    ensures c !in p.Print()
  {
  }

  /** What the parser makes of one parameter. */
  lemma ParameterPair(p: Parameter)
    requires p.Ok()
    ensures match p
            case Word(_) => SplitOnce(Trim(p.Print()), '=') == None
            case Pair(name, value) =>
              && SplitOnce(Trim(p.Print()), '=').Some?
              && Trim(SplitOnce(Trim(p.Print()), '=').value.0) == name.text
              && Trim(SplitOnce(Trim(p.Print()), '=').value.1) == value.text
    ensures ';' !in p.Print() && ',' !in p.Print()
  {
    SplitOnceTrim(p.Print(), '=');
    match p
    case Word(word) =>
      PaddedLacks(word, ",;=", '=');
      PaddedLacks(word, ",;=", ';');
      PaddedLacks(word, ",;=", ',');
    case Pair(name, value) =>
      PaddedLacks(name, ",;=", '=');
      PaddedLacks(name, ",;=", ';');
      PaddedLacks(name, ",;=", ',');
      PaddedLacks(value, ",;", ';');
      PaddedLacks(value, ",;", ',');
      SplitOnceAt(name.Print(), value.Print(), '=');
      TrimPadded(name, ",;=");
      TrimPadded(value, ",;");
  }

  /** Weight goes by what is left of its parameters after trimming. */
  lemma {:induction false} WeightSameTrims(a: seq<string>, b: seq<string>, quality: nat)
    requires SameTrims(a, b)
    ensures Weight(a, quality) == Weight(b, quality)
  {
    if a != [] {
      assert SameTrims(a[1..], b[1..]);
      WeightSameTrims(a[1..], b[1..], quality);
      match SplitOnce(Trim(a[0]), '=')
      case None =>
      case Some((_, value)) =>
        if Q.Quality(Trim(value)).Some? {
          WeightSameTrims(a[1..], b[1..], Q.Quality(Trim(value)).value);
        }
    }
  }

  /** The parser's reading, from the last parameter on. */
  lemma {:induction false} WeightSnoc(parameters: seq<string>, last: string, quality: nat)
    ensures Weight(parameters + [last], quality) ==
              match Weight(parameters, quality)
              case None => None
              case Some(before) => Weight([last], before)
  {
    if parameters == [] {
      assert parameters + [last] == [last];
    } else {
      assert (parameters + [last])[1..] == parameters[1..] + [last];
      WeightSnoc(parameters[1..], last, quality);
      match SplitOnce(Trim(parameters[0]), '=')
      case None =>
      case Some((_, value)) =>
        if Q.Quality(Trim(value)).Some? {
          WeightSnoc(parameters[1..], last, Q.Quality(Trim(value)).value);
        }
    }
  }

  lemma OneWeight(p: Parameter, quality: nat)
    requires p.Ok()
    ensures Weight([p.Print()], quality) ==
              match p
              case Word(_) => None
              case Pair(name, value) =>
                if name.text == "q" || name.text == "Q" then Q.Quality(value.text) else Some(quality)
  {
    ParameterPair(p);
    var texts := [p.Print()];
    assert texts[1..] == [];
    if p.Pair? {
      OnlyQ(p.name.text);
    }
    hide SplitOnce, Q.Quality;
  }

  lemma OnlyQ(name: string)
    ensures SameIgnoringCase(name, "q") <==> name == "q" || name == "Q"
  {
    if |name| == 1 {
      assert name == [name[0]];
    }
  }

  lemma {:induction false} WeightIsSaid(parameters: seq<Parameter>)
    requires forall i :: 0 <= i < |parameters| ==> parameters[i].Ok()
    ensures Weight(PrintParameters(parameters), Q.QUALITY_MAX) == WeightSaid(parameters)
  {
    if parameters != [] {
      var before, last := parameters[..|parameters| - 1], parameters[|parameters| - 1];
      hide Parameter.Ok, Parameter.Print, Weight, Q.Quality;
      WeightIsSaid(before);
      PrintsSnoc(parameters);
      WeightSnoc(PrintParameters(before), last.Print(), Q.QUALITY_MAX);
      hide PrintParameters;
      if WeightSaid(before).Some? {
        OneWeight(last, WeightSaid(before).value);
      }
    }
  }

  lemma PrintsSnoc(parameters: seq<Parameter>)
    requires parameters != []
    ensures var n := |parameters| - 1;
            PrintParameters(parameters) == PrintParameters(parameters[..n]) + [parameters[n].Print()]
  {
    hide Parameter.Print;
  }

  /** However it is padded, an item reads as what its parts say. */
  lemma ItemReadsAsSaid(item: ListItem)
    requires item.Ok()
    ensures ReadItem(PrintListItem(item)) == Said(item)
    ensures ',' !in PrintListItem(item)
  {
    var texts := PrintParameters(item.parameters);
    var pieces := [item.token.Print()] + texts;
    PaddedLacks(item.token, ",;", ';');
    PaddedLacks(item.token, ",;", ',');
    forall piece | piece in pieces ensures ';' !in piece && ',' !in piece {
      if piece in texts {
        var i :| 0 <= i < |texts| && texts[i] == piece;
        ParameterPair(item.parameters[i]);
      }
    }
    UnsplitLacks(pieces, ';', ',');
    SplitUnsplit(pieces, ';');
    SplitTrim(PrintListItem(item), ';');
    TrimPadded(item.token, ",;");
    var parts := Split(Trim(PrintListItem(item)), ';');
    hide Split, Trim, SlotOf, Unsplit;
    assert SameTrims(parts[1..], texts) by {
      forall i | 0 <= i < |texts| ensures Trim(parts[1..][i]) == Trim(texts[i]) {
        assert pieces[i + 1] == texts[i];
      }
    }
    WeightSameTrims(parts[1..], texts, Q.QUALITY_MAX);
    WeightIsSaid(item.parameters);
    hide Weight, WeightSaid;
  }

  lemma {:induction false} UnsplitLacks(pieces: seq<string>, separator: char, c: char)
    requires pieces != [] && c != separator && forall piece :: piece in pieces ==> c !in piece
    ensures c !in Unsplit(pieces, separator)
  {
    if |pieces| > 1 {
      UnsplitLacks(pieces[1..], separator, c);
    }
  }

  /** However it is padded, a list reads as what its items say: nothing else about its text counts. */
  lemma {:induction false} ListReadsAsSaid(items: seq<ListItem>, slot: Slot)
    requires items != [] && forall i :: 0 <= i < |items| ==> items[i].Ok()
    ensures IsHighest(Read(PrintList(items)).quality, AllSaid(items), slot)
    ensures Read(PrintList(items)).fieldPresent
  {
    var texts := seq(|items|, i requires 0 <= i < |items| => PrintListItem(items[i]));
    forall i | 0 <= i < |items| ensures ReadItem(texts[i]) == Said(items[i]) && ',' !in texts[i] {
      ItemReadsAsSaid(items[i]);
    }
    SplitUnsplit(texts, ',');
    SlotIsHighest(texts, slot);
    ReadItemsPresent(texts);
    hide ReadItem, Said, PrintListItem, ReadItems, Split, Unsplit;
    assert Readings(texts) == AllSaid(items) by {
      forall said | said in AllSaid(items) ensures said in Readings(texts) {
        var i :| 0 <= i < |items| && Said(items[i]) == said;
        assert texts[i] in texts && ReadItem(texts[i]) == said;
      }
      forall read | read in Readings(texts) ensures read in AllSaid(items) {
        var i :| 0 <= i < |texts| && ReadItem(texts[i]) == read;
        assert items[i] in items && Said(items[i]) == read;
      }
    }
  }

  /** Blanks change nothing: lists whose items say the same are read the same. */
  lemma {:induction false} BlanksDoNotMatter(a: seq<ListItem>, b: seq<ListItem>)
    requires a != [] && forall i :: 0 <= i < |a| ==> a[i].Ok()
    requires b != [] && forall i :: 0 <= i < |b| ==> b[i].Ok()
    requires AllSaid(a) == AllSaid(b)
    ensures Read(PrintList(a)) == Read(PrintList(b))
  {
    forall slot ensures At(Read(PrintList(a)), slot) == At(Read(PrintList(b)), slot) {
      ListReadsAsSaid(a, slot);
      ListReadsAsSaid(b, slot);
      OneHighest(Read(PrintList(a)), Read(PrintList(b)), AllSaid(a), slot);
    }
    ListReadsAsSaid(a, Wildcard);
    ListReadsAsSaid(b, Wildcard);
    hide Read, PrintList, AllSaid, IsHighest;
    SameSlots(Read(PrintList(a)), Read(PrintList(b)));
  }

  // ----- tables, padded -----

  /** An item that gives a slot its quality, padded in any way. */
  predicate Gives(item: ListItem, slot: Slot, quality: nat)
    requires quality <= Q.QUALITY_MAX
  {
    && item.Ok() && item.token.text == SlotToken(slot)
    && |item.parameters| == 1 && item.parameters[0].Pair?
    && item.parameters[0].name.text == "q" && item.parameters[0].value.text == Q.PrintQuality(quality)
  }

  lemma GivesIsSaid(item: ListItem, slot: Slot, quality: nat)
    requires quality <= Q.QUALITY_MAX && Gives(item, slot, quality)
    ensures Said(item) == Some(Item(slot, quality))
  {
    TokenReads(slot);
    Q.PrintedQualityReads(quality);
    assert item.parameters[..0] == [];
    assert WeightSaid([]) == Some(1000);
    hide SlotToken, SlotOf, Q.PrintQuality, Q.Quality;
  }

  /** Each item gives its slot the table's quality, and every slot of the table is given. */
  ghost predicate Writes(items: seq<ListItem>, slots: seq<Slot>, table: map<Slot, nat>)
    requires IsTable(table)
  {
    && items != [] && |items| == |slots|
    && (forall i :: 0 <= i < |items| ==> slots[i] in table && Gives(items[i], slots[i], table[slots[i]]))
    && forall slot :: slot in table ==> slot in slots
  }

  /** Every table survives being written and read, in any order, repeated, and with any blanks. */
  lemma {:induction false} PaddedTableReads(table: map<Slot, nat>, slots: seq<Slot>, items: seq<ListItem>)
    requires IsTable(table) && Writes(items, slots, table)
    ensures Read(PrintList(items)) == AcceptEncoding(table, true)
  {
    assert forall i :: 0 <= i < |items| ==> items[i].Ok();
    hide Read, PrintList, Gives, IsHighest, Writes;
    forall slot ensures At(Read(PrintList(items)), slot) == At(AcceptEncoding(table, true), slot) {
      ListReadsAsSaid(items, slot);
      TableIsSaid(table, slots, items, slot);
      OneHighest(Read(PrintList(items)), AcceptEncoding(table, true), AllSaid(items), slot);
    }
    ListReadsAsSaid(items, Wildcard);
    SameSlots(Read(PrintList(items)), AcceptEncoding(table, true));
  }

  lemma TableIsSaid(table: map<Slot, nat>, slots: seq<Slot>, items: seq<ListItem>, slot: Slot)
    requires IsTable(table) && Writes(items, slots, table)
    ensures IsHighest(table, AllSaid(items), slot)
  {
    forall i | 0 <= i < |items| ensures Said(items[i]) == Some(Item(slots[i], table[slots[i]])) {
      GivesIsSaid(items[i], slots[i], table[slots[i]]);
    }
    hide Said, Gives;
    if slot in table {
      var i :| 0 <= i < |slots| && slots[i] == slot;
      assert Said(items[i]) in AllSaid(items);
    }
  }

  /** So a coding that the table names has its quality there, and a coding it does not name that of `*`. */
  lemma {:induction false} PaddedQualities(table: map<Slot, nat>, slots: seq<Slot>, items: seq<ListItem>,
                                           coding: ContentCoding)
    requires IsTable(table) && Writes(items, slots, table)
    ensures QualityOf(Read(PrintList(items)), coding) ==
              if Named(coding) in table then table[Named(coding)]
              else if coding == Identity then (if Wildcard in table && table[Wildcard] == 0 then 0 else 1000)
              else if Wildcard in table then table[Wildcard]
              else 0
  {
    PaddedTableReads(table, slots, items);
    hide Read, PrintList;
  }
}
