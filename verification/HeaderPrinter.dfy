/** Accept-Encoding values written out, and read back. */
module HeaderPrinter {
  import opened Wrappers
  import opened Text
  import opened Negotiation
  import Q = Qvalue

  const SLOTS: seq<Slot> := [
    Named(Gzip), Named(Deflate), Named(Brotli), Named(Zstd),
    Named(DictionaryBrotli), Named(DictionaryZstd), Named(Identity), Wildcard]

  /** Any quality for any of the seven codings and `*`. */
  predicate IsTable(table: map<Slot, nat>) {
    forall slot :: slot in table ==> table[slot] <= Q.QUALITY_MAX
  }

  function SlotToken(slot: Slot): string {
    match slot
    case Wildcard => "*"
    case Named(coding) => Token(coding)
  }

  function PrintItem(slot: Slot, quality: nat): string
    requires quality <= Q.QUALITY_MAX
  {
    SlotToken(slot) + ";" + ("q=" + Q.PrintQuality(quality))
  }

  function PrintItems(table: map<Slot, nat>, slots: seq<Slot>): seq<string>
    requires IsTable(table)
  {
    if slots == [] then []
    else
      var slot := slots[|slots| - 1];
      PrintItems(table, slots[..|slots| - 1]) + (if slot in table then [PrintItem(slot, table[slot])] else [])
  }

  function Print(table: map<Slot, nat>): string
    requires IsTable(table)
  {
    var items := PrintItems(table, SLOTS);
    if items == [] then "" else Unsplit(items, ',')
  }

  lemma NothingToTrim(s: string)
    requires s != "" && !IsWhitespace(s[0]) && !IsWhitespace(s[|s| - 1])
    ensures Trim(s) == s
  {
  }

  lemma TokenReads(slot: Slot)
    ensures var token := SlotToken(slot);
            && token != "" && !IsWhitespace(token[0]) && !IsWhitespace(token[|token| - 1])
            && ',' !in token && ';' !in token
            && SlotOf(token) == Some(slot)
  {
  }

  lemma PrintedQualityIsPlain(q: nat)
    requires q <= Q.QUALITY_MAX
    ensures var v := Q.PrintQuality(q);
            && v != "" && !IsWhitespace(v[0]) && !IsWhitespace(v[|v| - 1])
            && ',' !in v && ';' !in v
  {
    var v := Q.PrintQuality(q);
    assert forall i :: 0 <= i < |v| ==> IsDigit(v[i]) || v[i] == '.';
  }

  lemma PrintedWeight(q: nat)
    requires q <= Q.QUALITY_MAX
    ensures Weight(["q=" + Q.PrintQuality(q)], Q.QUALITY_MAX) == Some(q)
  {
    var v := Q.PrintQuality(q);
    PrintedQualityIsPlain(q);
    Q.PrintedQualityReads(q);
    hide Q.PrintQuality, Q.Quality;
    var s := "q=" + v;
    NothingToTrim(s);
    NothingToTrim(v);
    NothingToTrim("q");
    assert s[1..] == "=" + v && s[1..][1..] == v;
    assert SplitOnce(s[1..], '=') == Some(("", v));
    assert [s[0]] + "" == "q";
    assert SplitOnce(s, '=') == Some(("q", v));
    assert Weight([s][1..], q) == Some(q);
  }

  lemma PrintedItemReads(slot: Slot, q: nat)
    requires q <= Q.QUALITY_MAX
    ensures ReadItem(PrintItem(slot, q)) == Some(Item(slot, q))
    ensures ',' !in PrintItem(slot, q)
  {
    var token, v := SlotToken(slot), Q.PrintQuality(q);
    TokenReads(slot);
    PrintedQualityIsPlain(q);
    PrintedWeight(q);
    hide SlotToken, Q.PrintQuality, Q.Quality, Weight, SlotOf;
    var weight := "q=" + v;
    NothingToTrim(token + ";" + weight);
    NothingToTrim(token);
    SplitJoined(token, weight, ';');
    SplitWhole(token, ';');
    SplitWhole(weight, ';');
    assert ([token] + [weight])[1..] == [weight];
  }

  function Restricted(table: map<Slot, nat>, slots: seq<Slot>): map<Slot, nat> {
    map slot | slot in table && slot in slots :: table[slot]
  }

  lemma {:induction false} PrintedItemsRead(table: map<Slot, nat>, slots: seq<Slot>)
    requires IsTable(table)
    ensures ReadItems(PrintItems(table, slots)) == AcceptEncoding(Restricted(table, slots), true)
    ensures forall item :: item in PrintItems(table, slots) ==> ',' !in item
  {
    if slots == [] {
      assert Restricted(table, []) == map[];
    } else {
      var before, slot := slots[..|slots| - 1], slots[|slots| - 1];
      PrintedItemsRead(table, before);
      assert slots == before + [slot];
      RestrictedMore(table, before, slot);
      hide Restricted, ReadItem, PrintItem;
      if slot in table {
        PrintedItemReads(slot, table[slot]);
        ReadItemsSnoc(PrintItems(table, before), PrintItem(slot, table[slot]));
      } else {
        assert PrintItems(table, before) + [] == PrintItems(table, before);
      }
    }
  }

  lemma RestrictedMore(table: map<Slot, nat>, slots: seq<Slot>, slot: Slot)
    ensures var was := Restricted(table, slots);
            Restricted(table, slots + [slot]) == if slot in table then was[slot := table[slot]] else was
    ensures slot in Restricted(table, slots) ==> Restricted(table, slots)[slot] == table[slot]
  {
  }

  lemma ReadItemsSnoc(items: seq<string>, item: string)
    ensures ReadItems(items + [item]) == Raise(ReadItems(items), ReadItem(item))
  {
    assert (items + [item])[..|items|] == items;
  }

  /** Every table survives being written and read. */
  lemma PrintReadRoundTrip(table: map<Slot, nat>)
    requires IsTable(table)
    ensures Read(Print(table)) == AcceptEncoding(table, true)
  {
    PrintedItemsRead(table, SLOTS);
    EverySlotPrints();
    assert Restricted(table, SLOTS) == table;
    var items := PrintItems(table, SLOTS);
    if items == [] {
      ReadNothing();
    } else {
      SplitUnsplit(items, ',');
    }
  }

  lemma EverySlotPrints()
    ensures forall slot: Slot :: slot in SLOTS
  {
    forall slot: Slot ensures slot in SLOTS {
      match slot
      case Wildcard => assert SLOTS[7] == slot;
      case Named(coding) =>
        match coding
        case Gzip => assert SLOTS[0] == slot;
        case Deflate => assert SLOTS[1] == slot;
        case Brotli => assert SLOTS[2] == slot;
        case Zstd => assert SLOTS[3] == slot;
        case DictionaryBrotli => assert SLOTS[4] == slot;
        case DictionaryZstd => assert SLOTS[5] == slot;
        case Identity => assert SLOTS[6] == slot;
    }
  }
}
