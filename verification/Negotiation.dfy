/** Accept-Encoding and the choice of a coding (core/src/negotiation.rs; section 12.5.3 of RFC 9110). */
module Negotiation {
  import opened Wrappers
  import opened Text
  import Q = Qvalue

  datatype ContentCoding = Gzip | Deflate | Brotli | Zstd | DictionaryBrotli | DictionaryZstd | Identity

  function Token(coding: ContentCoding): string {
    match coding
    case Gzip => "gzip"
    case Deflate => "deflate"
    case Brotli => "br"
    case Zstd => "zstd"
    case DictionaryBrotli => "dcb"
    case DictionaryZstd => "dcz"
    case Identity => "identity"
  }

  /** ContentCoding::parse. */
  function ParseCoding(value: string): Option<ContentCoding> {
    if SameIgnoringCase(value, "gzip") || SameIgnoringCase(value, "x-gzip") then Some(Gzip)
    else if SameIgnoringCase(value, "deflate") then Some(Deflate)
    else if SameIgnoringCase(value, "br") then Some(Brotli)
    else if SameIgnoringCase(value, "zstd") then Some(Zstd)
    else if SameIgnoringCase(value, "dcb") then Some(DictionaryBrotli)
    else if SameIgnoringCase(value, "dcz") then Some(DictionaryZstd)
    else if SameIgnoringCase(value, "identity") then Some(Identity)
    else None
  }

  /** What a list item is about: a coding, or `*`. */
  datatype Slot = Named(coding: ContentCoding) | Wildcard

  datatype Item = Item(slot: Slot, quality: nat)

  /** The slots a field value fills, and whether there was a field at all. */
  datatype AcceptEncoding = AcceptEncoding(quality: map<Slot, nat>, fieldPresent: bool)

  const ABSENT := AcceptEncoding(map[], false)
  const EMPTY := AcceptEncoding(map[], true)

  // ----- reading one item -----

  /** The weight the parameters give, each read in turn; none when one is malformed. */
  function Weight(parameters: seq<string>, quality: nat): Option<nat> {
    if parameters == [] then Some(quality)
    else
      match SplitOnce(Trim(parameters[0]), '=')
      case None => None
      case Some((name, value)) =>
        if SameIgnoringCase(Trim(name), "q") then
          match Q.Quality(Trim(value))
          case None => None
          case Some(parsed) => Weight(parameters[1..], parsed)
        else
          Weight(parameters[1..], quality)
  }

  function SlotOf(token: string): Option<Slot> {
    if token == "*" then Some(Wildcard)
    else
      match ParseCoding(token)
      case None => None
      case Some(coding) => Some(Named(coding))
  }

  /** One item of the list, if it says anything. */
  function ReadItem(item: string): Option<Item> {
    var parts := Split(Trim(item), ';');
    var token := Trim(parts[0]);
    match Weight(parts[1..], Q.QUALITY_MAX)
    case None => None
    case Some(quality) =>
      match SlotOf(token)
      case None => None
      case Some(slot) => Some(Item(slot, quality))
  }

  // ----- the list -----

  function Max(a: nat, b: nat): nat {
    if a < b then b else a
  }

  /** A slot keeps the highest quality given to it. */
  function Raise(a: AcceptEncoding, item: Option<Item>): AcceptEncoding {
    match item
    case None => a
    case Some(Item(slot, quality)) =>
      a.(quality := a.quality[slot := if slot in a.quality then Max(a.quality[slot], quality) else quality])
  }

  function ReadItems(items: seq<string>): AcceptEncoding {
    if items == [] then EMPTY
    else Raise(ReadItems(items[..|items| - 1]), ReadItem(items[|items| - 1]))
  }

  /** A whole field value. */
  function Read(value: string): AcceptEncoding {
    ReadItems(Split(value, ','))
  }

  /** AcceptEncoding::parse. */
  method Parse(value: string) returns (parsed: AcceptEncoding)
    ensures parsed == Read(value)
  {
    parsed := EMPTY;
    var items := Split(value, ',');
    for i := 0 to |items|
      invariant parsed == ReadItems(items[..i])
    {
      assert items[..i + 1][..i] == items[..i];
      var parts := Split(Trim(items[i]), ';');
      var token := Trim(parts[0]);
      if token == "" {
        assert SlotOf(token) == None;
        continue;
      }
      var quality, valid := Q.QUALITY_MAX, true;
      var j := 1;
      while valid && j < |parts|
        invariant 1 <= j <= |parts|
        invariant Weight(parts[1..], Q.QUALITY_MAX) == if valid then Weight(parts[j..], quality) else None
        decreases valid, |parts| - j
      {
        match SplitOnce(Trim(parts[j]), '=') {
          case None => valid := false;
          case Some((name, text)) =>
            if SameIgnoringCase(Trim(name), "q") {
              var read := Q.ParseQuality(Trim(text));
              if read.None? { valid := false; } else { quality := read.value; }
            }
        }
        if valid { j := j + 1; }
      }
      if valid {
        var slot := SlotOf(token);
        if slot.Some? {
          parsed := Raise(parsed, Some(Item(slot.value, quality)));
        }
      }
    }
    assert items[..|items|] == items;
  }

  // ----- what a list means -----

  /** The quality of a coding. */
  function QualityOf(a: AcceptEncoding, coding: ContentCoding): nat {
    if Named(coding) in a.quality then a.quality[Named(coding)]
    else if coding == Identity then
      (if Wildcard in a.quality && a.quality[Wildcard] == 0 then 0 else Q.QUALITY_MAX)
    else if !a.fieldPresent then 0
    else if Wildcard in a.quality then a.quality[Wildcard]
    else 0
  }

  /** Slot by slot, the higher quality. */
  function Join(a: AcceptEncoding, b: AcceptEncoding): AcceptEncoding {
    AcceptEncoding(
      map slot | slot in a.quality.Keys + b.quality.Keys ::
        if slot !in b.quality then a.quality[slot]
        else if slot !in a.quality then b.quality[slot]
        else Max(a.quality[slot], b.quality[slot]),
      a.fieldPresent || b.fieldPresent)
  }

  /** The join is commutative, associative and idempotent, and an absent field is its unit. */
  lemma JoinLaws(a: AcceptEncoding, b: AcceptEncoding, c: AcceptEncoding)
    ensures Join(a, b) == Join(b, a)
    ensures Join(Join(a, b), c) == Join(a, Join(b, c))
    ensures Join(a, a) == a
    ensures Join(ABSENT, a) == a
  {
    assert Join(a, b).quality == Join(b, a).quality;
    assert Join(a, a).quality == a.quality;
    assert Join(ABSENT, a).quality == a.quality;
    JoinAssociates(a, b, c);
  }

  lemma JoinAssociates(a: AcceptEncoding, b: AcceptEncoding, c: AcceptEncoding)
    ensures Join(Join(a, b), c) == Join(a, Join(b, c))
  {
    var left, right := Join(Join(a, b), c), Join(a, Join(b, c));
    assert left.fieldPresent == right.fieldPresent;
    hide Join;
    forall slot ensures At(left, slot) == At(right, slot) {
      JoinAt(Join(a, b), c, slot);
      JoinAt(a, b, slot);
      JoinAt(a, Join(b, c), slot);
      JoinAt(b, c, slot);
    }
    SameSlots(left, right);
  }

  lemma SameSlots(a: AcceptEncoding, b: AcceptEncoding)
    requires a.fieldPresent == b.fieldPresent && forall slot :: At(a, slot) == At(b, slot)
    ensures a == b
  {
    assert forall slot :: slot in a.quality <==> At(a, slot).Some?;
    assert forall slot :: slot in b.quality <==> At(b, slot).Some?;
    assert a.quality == b.quality;
  }

  function At(a: AcceptEncoding, slot: Slot): Option<nat> {
    if slot in a.quality then Some(a.quality[slot]) else None
  }

  function Higher(x: Option<nat>, y: Option<nat>): Option<nat> {
    if x == None then y else if y == None then x else Some(Max(x.value, y.value))
  }

  lemma JoinAt(a: AcceptEncoding, b: AcceptEncoding, slot: Slot)
    ensures At(Join(a, b), slot) == Higher(At(a, slot), At(b, slot))
  {
  }

  lemma RaiseJoins(a: AcceptEncoding, b: AcceptEncoding, item: Option<Item>)
    requires b.fieldPresent
    ensures Raise(Join(a, b), item) == Join(a, Raise(b, item))
  {
    assert Raise(Join(a, b), item).quality == Join(a, Raise(b, item)).quality;
  }

  lemma {:induction false} ReadItemsAppend(a: seq<string>, b: seq<string>)
    ensures ReadItems(a + b) == Join(ReadItems(a), ReadItems(b))
    ensures ReadItems(b).fieldPresent
    decreases |b|
  {
    if b == [] {
      ReadItemsPresent(a);
      assert a + b == a;
      assert Join(ReadItems(a), EMPTY).quality == ReadItems(a).quality;
    } else {
      ReadItemsAppend(a, b[..|b| - 1]);
      AppendLast(a, b);
      RaiseJoins(ReadItems(a), ReadItems(b[..|b| - 1]), ReadItem(b[|b| - 1]));
    }
  }

  lemma {:induction false} ReadItemsPresent(items: seq<string>)
    ensures ReadItems(items).fieldPresent
  {
    if items != [] {
      ReadItemsPresent(items[..|items| - 1]);
    }
  }

  /** A list of lists is read as the join of its parts (section 5.3 of RFC 9110). */
  lemma ReadIsHomomorphism(a: string, b: string)
    ensures Read(a + "," + b) == Join(Read(a), Read(b))
  {
    SplitJoined(a, b, ',');
    ReadItemsAppend(Split(a, ','), Split(b, ','));
  }

  /** The slot holds the highest of the qualities that are read for it, and none if none is. */
  ghost predicate IsHighest(quality: map<Slot, nat>, readings: set<Option<Item>>, slot: Slot) {
    if slot in quality then
      && Some(Item(slot, quality[slot])) in readings
      && forall q :: Some(Item(slot, q)) in readings ==> q <= quality[slot]
    else
      forall q :: Some(Item(slot, q)) !in readings
  }

  lemma RaiseIsHighest(a: AcceptEncoding, readings: set<Option<Item>>, item: Option<Item>, slot: Slot)
    requires IsHighest(a.quality, readings, slot)
    ensures IsHighest(Raise(a, item).quality, readings + {item}, slot)
  {
  }

  /** Each slot holds the highest of the qualities the items give it, and none if none does. */
  lemma {:induction false} SlotIsHighest(items: seq<string>, slot: Slot)
    ensures IsHighest(ReadItems(items).quality, Readings(items), slot)
  {
    if items != [] {
      var before, last := items[..|items| - 1], items[|items| - 1];
      hide IsHighest, Readings, ReadItem, Raise;
      SlotIsHighest(before, slot);
      RaiseIsHighest(ReadItems(before), Readings(before), ReadItem(last), slot);
      ReadingsSnoc(before, last);
      assert items == before + [last];
    }
  }

  lemma ReadingsSnoc(items: seq<string>, item: string)
    ensures Readings(items + [item]) == Readings(items) + {ReadItem(item)}
  {
  }

  /** What the items say, regardless of order and repetition. */
  function Readings(items: seq<string>): set<Option<Item>> {
    set item | item in items :: ReadItem(item)
  }

  /** Neither the order nor the repetition of items matters. */
  lemma {:induction false} OrderAndRepetitionDoNotMatter(a: string, b: string)
    requires Readings(Split(a, ',')) == Readings(Split(b, ','))
    ensures Read(a) == Read(b)
  {
    var x, y := Split(a, ','), Split(b, ',');
    ReadItemsPresent(x);
    ReadItemsPresent(y);
    hide Split, ReadItems, Readings, IsHighest;
    forall slot ensures At(Read(a), slot) == At(Read(b), slot) {
      SlotIsHighest(x, slot);
      SlotIsHighest(y, slot);
      OneHighest(ReadItems(x), ReadItems(y), Readings(x), slot);
    }
    SameSlots(Read(a), Read(b));
  }

  lemma OneHighest(a: AcceptEncoding, b: AcceptEncoding, readings: set<Option<Item>>, slot: Slot)
    requires IsHighest(a.quality, readings, slot) && IsHighest(b.quality, readings, slot)
    ensures At(a, slot) == At(b, slot)
  {
  }

  ghost predicate Names(items: seq<string>, slot: Slot) {
    exists q :: Some(Item(slot, q)) in Readings(items)
  }

  ghost predicate Welcomes(items: seq<string>, slot: Slot) {
    exists q :: q > 0 && Some(Item(slot, q)) in Readings(items)
  }

  /** The rules of section 12.5.3 of RFC 9110, read off the items: a coding is acceptable by an item that names it,
      or else by a `*`, or else only if it is identity; of several such items one above zero is enough. */
  lemma {:induction false} AcceptableByTheRules(value: string, coding: ContentCoding)
    ensures var items := Split(value, ',');
            QualityOf(Read(value), coding) > 0 <==>
              if Names(items, Named(coding)) then Welcomes(items, Named(coding))
              else if Names(items, Wildcard) then Welcomes(items, Wildcard)
              else coding == Identity
  {
    var items := Split(value, ',');
    SlotIsHighest(items, Named(coding));
    SlotIsHighest(items, Wildcard);
    ReadItemsPresent(items);
    HighestWelcomes(items, Named(coding));
    HighestWelcomes(items, Wildcard);
    hide IsHighest, Names, Welcomes, ReadItems, Split;
  }

  /** `quality` is given to the slot, and nothing higher is. */
  ghost predicate IsTop(readings: set<Option<Item>>, slot: Slot, quality: nat) {
    && Some(Item(slot, quality)) in readings
    && forall q: nat :: Some(Item(slot, q)) in readings ==> q <= quality
  }

  /** How high a quality is, read off the items: the highest the coding is given by name; or else, for a coding
      other than identity, the highest `*` is given, or nothing; and an identity nobody names is fully acceptable,
      unless `*` is given zero and nothing above. */
  lemma {:induction false} QualityFromItems(value: string, coding: ContentCoding)
    ensures var items, quality := Split(value, ','), QualityOf(Read(value), coding);
            if Names(items, Named(coding)) then IsTop(Readings(items), Named(coding), quality)
            else if coding == Identity then
              quality == (if IsTop(Readings(items), Wildcard, 0) then 0 else 1000)
            else if Names(items, Wildcard) then IsTop(Readings(items), Wildcard, quality)
            else quality == 0
  {
    var items := Split(value, ',');
    SlotIsHighest(items, Named(coding));
    SlotIsHighest(items, Wildcard);
    ReadItemsPresent(items);
    HighestWelcomes(items, Named(coding));
    HighestWelcomes(items, Wildcard);
    HighestIsTop(items, Named(coding));
    HighestIsTop(items, Wildcard);
    hide IsHighest, Names, Welcomes, IsTop, ReadItems, Readings, Split;
  }

  lemma HighestIsTop(items: seq<string>, slot: Slot)
    requires IsHighest(ReadItems(items).quality, Readings(items), slot)
    ensures var quality := ReadItems(items).quality;
            && (slot in quality ==> IsTop(Readings(items), slot, quality[slot]))
            && (IsTop(Readings(items), slot, 0) <==> slot in quality && quality[slot] == 0)
  {
    hide ReadItems, Readings;
  }

  /** Without a field only identity is acceptable. */
  lemma QualityOfAbsent(coding: ContentCoding)
    ensures QualityOf(ABSENT, coding) == if coding == Identity then 1000 else 0
  {
  }

  lemma HighestWelcomes(items: seq<string>, slot: Slot)
    requires IsHighest(ReadItems(items).quality, Readings(items), slot)
    ensures slot in ReadItems(items).quality <==> Names(items, slot)
    ensures slot in ReadItems(items).quality && ReadItems(items).quality[slot] > 0 <==> Welcomes(items, slot)
  {
    hide ReadItems, Readings;
  }

  // ----- several field lines -----

  /** A request header; a value that is not text is absent. */
  datatype Header = Header(name: string, value: Option<string>)

  predicate IsLine(header: Header) {
    SameIgnoringCase(header.name, "accept-encoding") && header.value.Some?
  }

  /** The Accept-Encoding lines of a request, in order. */
  function Lines(headers: seq<Header>): seq<string> {
    if headers == [] then []
    else
      var last := headers[|headers| - 1];
      Lines(headers[..|headers| - 1]) + (if IsLine(last) then [last.value.value] else [])
  }

  function Combine(combined: string, line: string): string {
    (if combined == "" then "" else combined + ",") + line
  }

  function Combined(lines: seq<string>): string {
    if lines == [] then "" else Combine(Combined(lines[..|lines| - 1]), lines[|lines| - 1])
  }

  function ReadCombined(value: string): AcceptEncoding {
    if value == "" then ABSENT else Read(value)
  }

  /** FilterModule::accept_encoding. */
  method AcceptEncodingOf(headers: seq<Header>) returns (r: AcceptEncoding)
    ensures r == ReadCombined(Combined(Lines(headers)))
  {
    var combined := "";
    for i := 0 to |headers|
      invariant combined == Combined(Lines(headers[..i]))
    {
      assert headers[..i + 1][..i] == headers[..i];
      ghost var before, lines := Lines(headers[..i]), Lines(headers[..i + 1]);
      assert lines == before + (if IsLine(headers[i]) then [headers[i].value.value] else []);
      assert IsLine(headers[i]) ==> lines[..|lines| - 1] == before;
      assert !IsLine(headers[i]) ==> lines == before;
      if IsLine(headers[i]) {
        combined := Combine(combined, headers[i].value.value);
      }
    }
    assert headers[..|headers|] == headers;
    if combined == "" { r := ABSENT; } else { r := Parse(combined); }
  }

  /** Each line read on its own, and joined. */
  function JoinedLines(lines: seq<string>): AcceptEncoding {
    if lines == [] then ABSENT else Join(JoinedLines(lines[..|lines| - 1]), Read(lines[|lines| - 1]))
  }

  lemma ReadNothing()
    ensures Read("") == EMPTY
  {
    assert Split("", ',') == [""];
    assert Trim("") == "" && Split(Trim(""), ';') == [""];
    assert SlotOf("") == None;
    assert ReadItem("") == None;
    assert [""][..0] == [];
    assert ReadItems([""]) == Raise(ReadItems([]), ReadItem(""));
  }

  lemma {:induction false} CombinedIsJoin(lines: seq<string>)
    ensures JoinedLines(lines).quality == ReadCombined(Combined(lines)).quality
    ensures Combined(lines) != "" ==> JoinedLines(lines) == Read(Combined(lines))
    ensures Combined(lines) == "" ==> JoinedLines(lines).quality == map[]
  {
    ReadNothing();
    if lines != [] {
      var before, line := lines[..|lines| - 1], lines[|lines| - 1];
      CombinedIsJoin(before);
      ReadItemsPresent(Split(line, ','));
      if Combined(before) == "" {
        assert Join(JoinedLines(before), Read(line)).quality == Read(line).quality;
        assert Combined(lines) == line;
        assert JoinedLines(lines).quality == Read(line).quality;
      } else {
        ReadIsHomomorphism(Combined(before), line);
      }
    }
  }

  /** Sending the lines separately, together, or with empty ones among them, comes to the same for every coding. */
  lemma LinesJoin(headers: seq<Header>, coding: ContentCoding)
    ensures QualityOf(ReadCombined(Combined(Lines(headers))), coding) == QualityOf(JoinedLines(Lines(headers)), coding)
  {
    CombinedIsJoin(Lines(headers));
    if Combined(Lines(headers)) != "" {
      ReadItemsPresent(Split(Combined(Lines(headers)), ','));
    }
  }

  // ----- choosing -----

  datatype Choice = Selected(coding: ContentCoding) | NotAcceptable

  /** One turn of the fold: a later coding must be strictly better. */
  function Prefer(a: AcceptEncoding, chosen: Choice, coding: ContentCoding): Choice {
    var quality := QualityOf(a, coding);
    if chosen.Selected? && quality <= QualityOf(a, chosen.coding) then chosen
    else if quality > 0 then Selected(coding)
    else chosen
  }

  /** AcceptEncoding::negotiate_available. */
  function Negotiate(a: AcceptEncoding, preference: seq<ContentCoding>, available: ContentCoding -> bool): Choice {
    if preference == [] then NotAcceptable
    else
      var before, coding := preference[..|preference| - 1], preference[|preference| - 1];
      var chosen := Negotiate(a, before, available);
      if available(coding) then Prefer(a, chosen, coding) else chosen
  }

  /** `preference[k]` is available, acceptable, and no other available one is better, or as good and preferred. */
  predicate IsBest(a: AcceptEncoding, preference: seq<ContentCoding>, available: ContentCoding -> bool, k: nat) {
    && k < |preference| && available(preference[k])
    && QualityOf(a, preference[k]) > 0
    && forall j :: 0 <= j < |preference| && available(preference[j]) ==>
         && QualityOf(a, preference[j]) <= QualityOf(a, preference[k])
         && (j < k ==> QualityOf(a, preference[j]) < QualityOf(a, preference[k]))
  }

  /** Negotiation picks the best, and refuses only when nothing available is acceptable. */
  lemma {:induction false} NegotiateBest(a: AcceptEncoding, preference: seq<ContentCoding>,
                                         available: ContentCoding -> bool)
    returns (k: nat)
    ensures var r := Negotiate(a, preference, available);
            if r.Selected? then IsBest(a, preference, available, k) && preference[k] == r.coding
            else forall j :: 0 <= j < |preference| && available(preference[j]) ==> QualityOf(a, preference[j]) == 0
  {
    k := 0;
    if preference != [] {
      var before := preference[..|preference| - 1];
      k := NegotiateBest(a, before, available);
      var was, r := Negotiate(a, before, available), Negotiate(a, preference, available);
      if r.Selected? && (!was.Selected? || r != was) {
        k := |preference| - 1;
      }
      hide QualityOf;
      assert forall j :: 0 <= j < |before| ==> before[j] == preference[j];
    }
  }

  /** Only the availability of each coding matters. */
  lemma {:induction false} NegotiateSame(a: AcceptEncoding, preference: seq<ContentCoding>,
                                         available: ContentCoding -> bool, also: ContentCoding -> bool)
    requires forall coding :: available(coding) == also(coding)
    ensures Negotiate(a, preference, available) == Negotiate(a, preference, also)
  {
    if preference != [] {
      NegotiateSame(a, preference[..|preference| - 1], available, also);
    }
  }

  /** There is only one best, so the choice is exactly determined. */
  lemma {:induction false} NegotiateIff(a: AcceptEncoding, preference: seq<ContentCoding>,
                                        available: ContentCoding -> bool, coding: ContentCoding)
    ensures Negotiate(a, preference, available) == Selected(coding) <==>
            exists k: nat :: IsBest(a, preference, available, k) && preference[k] == coding
  {
    var k := NegotiateBest(a, preference, available);
    hide QualityOf;
    if j: nat :| IsBest(a, preference, available, j) && preference[j] == coding {
      assert Negotiate(a, preference, available).Selected?;
      assert j == k;
    }
  }
}
