/** The configured coding priority: what is accepted (config/value.rs) and what it resolves to (config/resolve.rs). */
module Priority {
  import opened Wrappers
  import opened Text
  import opened Negotiation

  datatype Profile = Fast | Balanced | Custom

  const RUNTIME: set<ContentCoding> := {Gzip, Deflate, Brotli, Zstd}
  const SLOTS: nat := 5

  predicate Distinct(codings: seq<ContentCoding>) {
    forall i, j :: 0 <= i < j < |codings| ==> codings[i] != codings[j]
  }

  predicate AllRuntime(codings: seq<ContentCoding>) {
    forall i :: 0 <= i < |codings| ==> codings[i] in RUNTIME
  }

  /** The profile's own order. */
  function Defaults(profile: Option<Profile>): seq<ContentCoding> {
    if profile == Some(Fast) then [Zstd, Gzip, Brotli, Deflate] else [Zstd, Brotli, Gzip, Deflate]
  }

  /** A pigeonhole: there is no room for a fifth. */
  lemma {:induction false} DistinctRuntimeCodings(codings: seq<ContentCoding>)
    requires Distinct(codings) && AllRuntime(codings)
    ensures |codings| <= 4
    ensures |codings| == 4 ==> forall coding :: coding in RUNTIME ==> coding in codings
  {
    var all := set coding | coding in codings;
    SizeOfDistinct(codings);
    assert all <= RUNTIME;
    SubsetSize(all, RUNTIME);
    if |codings| == 4 && exists coding :: coding in RUNTIME && coding !in codings {
      var coding :| coding in RUNTIME && coding !in codings;
      SubsetSize(all + {coding}, RUNTIME);
    }
  }

  lemma {:induction false} SizeOfDistinct(codings: seq<ContentCoding>)
    requires Distinct(codings)
    ensures |set coding | coding in codings| == |codings|
  {
    if codings != [] {
      var before, last := codings[..|codings| - 1], codings[|codings| - 1];
      SizeOfDistinct(before);
      assert codings == before + [last];
      assert (set coding | coding in codings) == (set coding | coding in before) + {last};
    }
  }

  // ----- set_priority -----

  function RuntimeCoding(value: string): Option<ContentCoding> {
    if SameIgnoringCase(value, "gzip") then Some(Gzip)
    else if SameIgnoringCase(value, "deflate") then Some(Deflate)
    else if SameIgnoringCase(value, "br") then Some(Brotli)
    else if SameIgnoringCase(value, "zstd") then Some(Zstd)
    else None
  }

  /** It knows the names that a header has for the four, in any case, but for the old name of gzip. */
  lemma {:induction false} RuntimeNames(value: string, coding: ContentCoding)
    ensures RuntimeCoding(value) == Some(coding) <==>
              && coding in RUNTIME
              && ParseCoding(value) == Some(coding)
              && !SameIgnoringCase(value, "x-gzip")
  {
    if |value| >= 2 {
      assert SameIgnoringCase(value, "gzip") ==> LowerAscii(value[0]) == 'g';
    }
  }

  predicate AllKnown(values: seq<string>) {
    forall i :: 0 <= i < |values| ==> RuntimeCoding(values[i]).Some?
  }

  function Codings(values: seq<string>): (codings: seq<ContentCoding>)
    requires AllKnown(values)
    ensures |codings| == |values| && AllRuntime(codings)
  {
    seq(|values|, i requires 0 <= i < |values| => RuntimeCoding(values[i]).value)
  }

  class Config {
    var priority: Option<seq<ContentCoding>>

    constructor ()
      ensures priority == None
    {
      priority := None;
    }

    /** set_priority: one or more of the four runtime codings, no one twice. */
    method SetPriority(values: seq<string>) returns (ok: bool)
      modifies this
      ensures ok <==> values != [] && AllKnown(values) && Distinct(Codings(values))
      ensures priority == if ok then Some(Codings(values)) else old(priority)
    {
      var parsed := [];
      for i := 0 to |values|
        invariant AllKnown(values[..i]) && parsed == Codings(values[..i]) && Distinct(parsed)
      {
        var coding := RuntimeCoding(values[i]);
        if coding.None? { return false; }
        if coding.value in parsed {
          RepeatsACoding(values, i);
          return false;
        }
        parsed := parsed + [coding.value];
      }
      assert values[..|values|] == values;
      DistinctRuntimeCodings(parsed);
      if |parsed| == 0 || |parsed| > 4 { return false; }
      priority := Some(parsed);
      return true;
    }
  }

  lemma RepeatsACoding(values: seq<string>, i: nat)
    requires i < |values| && AllKnown(values[..i])
    requires RuntimeCoding(values[i]).Some? && RuntimeCoding(values[i]).value in Codings(values[..i])
    ensures AllKnown(values) ==> !Distinct(Codings(values))
  {
    var before := Codings(values[..i]);
    var j :| 0 <= j < i && before[j] == RuntimeCoding(values[i]).value;
    assert values[..i][j] == values[j];
    if AllKnown(values) {
      assert Codings(values)[j] == Codings(values)[i];
    }
  }

  // ----- resolve_priority -----

  /** Each coding where it first comes, without identity. */
  function Firsts(codings: seq<ContentCoding>): seq<ContentCoding> {
    if codings == [] then []
    else
      var before, last := Firsts(codings[..|codings| - 1]), codings[|codings| - 1];
      if last == Identity || last in before then before else before + [last]
  }

  /** The explicit codings, then the profile's. */
  function Chain(profile: Option<Profile>, explicit: Option<seq<ContentCoding>>): seq<ContentCoding> {
    (if explicit.Some? then explicit.value else []) + Defaults(profile)
  }

  /** The slots that are left over hold identity. */
  function Padded(codings: seq<ContentCoding>): seq<ContentCoding> {
    codings + seq(if |codings| <= SLOTS then SLOTS - |codings| else 0, _ => Identity)
  }

  function Resolved(profile: Option<Profile>, explicit: Option<seq<ContentCoding>>): seq<ContentCoding> {
    Padded(Firsts(Chain(profile, explicit)))
  }

  /** The loop stays inside its slots. */
  predicate Fits(profile: Option<Profile>, explicit: Option<seq<ContentCoding>>) {
    |Firsts(Chain(profile, explicit))| <= SLOTS
  }

  lemma {:induction false} FirstsAreDistinct(codings: seq<ContentCoding>)
    ensures Distinct(Firsts(codings)) && Identity !in Firsts(codings)
    ensures forall coding :: coding in Firsts(codings) <==> coding in codings && coding != Identity
  {
    if codings != [] {
      FirstsAreDistinct(codings[..|codings| - 1]);
      assert codings == codings[..|codings| - 1] + [codings[|codings| - 1]];
    }
  }

  lemma {:induction false} FirstsOfDistinct(codings: seq<ContentCoding>)
    requires Distinct(codings) && Identity !in codings
    ensures Firsts(codings) == codings
  {
    if codings != [] {
      var before := codings[..|codings| - 1];
      FirstsOfDistinct(before);
      assert codings == before + [codings[|codings| - 1]];
    }
  }

  /** The codings of `order` that are not in `listed`, in their order. */
  function Missing(listed: seq<ContentCoding>, order: seq<ContentCoding>): seq<ContentCoding> {
    if order == [] then []
    else
      var last := order[|order| - 1];
      Missing(listed, order[..|order| - 1]) + (if last in listed then [] else [last])
  }

  lemma {:induction false} MissingIsPart(listed: seq<ContentCoding>, order: seq<ContentCoding>)
    ensures forall coding :: coding in Missing(listed, order) <==> coding in order && coding !in listed
  {
    if order != [] {
      MissingIsPart(listed, order[..|order| - 1]);
      assert order == order[..|order| - 1] + [order[|order| - 1]];
    }
  }

  lemma {:induction false} FirstsComplete(listed: seq<ContentCoding>, order: seq<ContentCoding>)
    requires Distinct(order) && Identity !in order
    requires Distinct(listed) && Identity !in listed
    ensures Firsts(listed + order) == listed + Missing(listed, order)
    decreases |order|
  {
    if order == [] {
      assert listed + order == listed;
      FirstsOfDistinct(listed);
    } else {
      var before, last := order[..|order| - 1], order[|order| - 1];
      assert order == before + [last];
      FirstsComplete(listed, before);
      AppendLast(listed, order);
      MissingIsPart(listed, before);
    }
  }

  lemma DefaultsAreAll(profile: Option<Profile>)
    ensures var order := Defaults(profile);
            && |order| == 4 && Distinct(order) && AllRuntime(order)
            && forall coding :: coding in RUNTIME ==> coding in order
  {
    DistinctRuntimeCodings(Defaults(profile));
  }

  /** What a request's configuration can hold: no list, or one that set_priority accepted. */
  predicate Configured(explicit: Option<seq<ContentCoding>>) {
    explicit.Some? ==> Distinct(explicit.value) && AllRuntime(explicit.value)
  }

  /** For every configuration: the list comes first and whole, the profile's order supplies the rest, every
      runtime coding is there exactly once, and identity is last. */
  lemma ResolvedIsComplete(profile: Option<Profile>, explicit: Option<seq<ContentCoding>>)
    requires Configured(explicit)
    ensures var listed := if explicit.Some? then explicit.value else [];
            var r := Resolved(profile, explicit);
            && r == listed + Missing(listed, Defaults(profile)) + [Identity]
            && |r| == SLOTS && Distinct(r) && r == r[..4] + [Identity]
            && forall coding :: coding in r[..4] <==> coding in RUNTIME
  {
    var listed := if explicit.Some? then explicit.value else [];
    DefaultsAreAll(profile);
    FirstsComplete(listed, Defaults(profile));
    FirstsFillTheSlots(listed, profile);
    hide Firsts, Missing, Defaults, Configured;
    var firsts := Firsts(listed + Defaults(profile));
    PaddedFour(firsts);
    assert Resolved(profile, explicit) == firsts + [Identity];
    hide Resolved, Padded;
    assert (firsts + [Identity])[..4] == firsts;
    IdentityBehind(firsts);
  }

  /** The orders of a location that lists nothing. */
  lemma DocumentedOrders(profile: Option<Profile>)
    ensures Resolved(profile, None) == if profile == Some(Fast) then [Zstd, Gzip, Brotli, Deflate, Identity]
                                       else [Zstd, Brotli, Gzip, Deflate, Identity]
  {
    ResolvedIsComplete(profile, None);
    var order := Defaults(profile);
    DefaultsAreAll(profile);
    MissingFromNone(order);
  }

  lemma {:induction false} MissingFromNone(order: seq<ContentCoding>)
    ensures Missing([], order) == order
  {
    if order != [] {
      MissingFromNone(order[..|order| - 1]);
      assert order == order[..|order| - 1] + [order[|order| - 1]];
    }
  }

  lemma IdentityBehind(codings: seq<ContentCoding>)
    requires Distinct(codings) && AllRuntime(codings)
    requires forall coding :: coding in RUNTIME ==> coding in codings
    ensures Distinct(codings + [Identity])
    ensures forall coding :: coding in codings <==> coding in RUNTIME
  {
  }

  lemma PaddedFour(codings: seq<ContentCoding>)
    requires |codings| == 4
    ensures Padded(codings) == codings + [Identity]
  {
    assert seq(1, _ => Identity) == [Identity];
  }

  lemma IdentityIsLast(profile: Option<Profile>, explicit: Option<seq<ContentCoding>>)
    requires Configured(explicit)
    ensures var r := Resolved(profile, explicit);
            |r| == SLOTS && r == r[..4] + [Identity] && Identity !in r[..4]
  {
    hide Firsts, Defaults;
    FirstsFillTheSlots(if explicit.Some? then explicit.value else [], profile);
    var firsts := Firsts(Chain(profile, explicit));
    assert forall i :: 0 <= i < |firsts| ==> firsts[i] != Identity;
    hide AllRuntime, Chain;
    PaddedFour(firsts);
    assert Resolved(profile, explicit)[..4] == firsts;
  }

  lemma FirstsFillTheSlots(listed: seq<ContentCoding>, profile: Option<Profile>)
    requires AllRuntime(listed)
    ensures var firsts := Firsts(listed + Defaults(profile));
            && |firsts| == 4 && Distinct(firsts) && AllRuntime(firsts)
            && forall coding :: coding in RUNTIME ==> coding in firsts
  {
    var chain := listed + Defaults(profile);
    DefaultsAreAll(profile);
    FirstsAreDistinct(chain);
    hide Firsts, Defaults;
    var firsts := Firsts(chain);
    forall coding | coding in RUNTIME ensures coding in firsts {
      assert coding in Defaults(profile);
    }
    assert AllRuntime(firsts) by {
      forall i | 0 <= i < |firsts| ensures firsts[i] in RUNTIME {
        assert firsts[i] in chain;
      }
    }
    DistinctRuntimeCodings(firsts);
    SizeOfDistinct(firsts);
    var all := set coding | coding in firsts;
    assert RUNTIME <= all;
    SubsetSize(RUNTIME, all);
    assert |RUNTIME| == 4;
  }

  lemma {:induction false} FirstsGrow(codings: seq<ContentCoding>, n: nat)
    requires n <= |codings|
    ensures |Firsts(codings[..n])| <= |Firsts(codings)|
    decreases |codings|
  {
    if n == |codings| {
      assert codings[..n] == codings;
    } else {
      var before := codings[..|codings| - 1];
      assert before[..n] == codings[..n];
      FirstsGrow(before, n);
    }
  }

  lemma FirstsStep(codings: seq<ContentCoding>, i: nat)
    requires i < |codings|
    ensures var before, coding := Firsts(codings[..i]), codings[i];
            Firsts(codings[..i + 1]) == if coding == Identity || coding in before then before else before + [coding]
  {
    assert codings[..i + 1][..i] == codings[..i];
  }

  /** Exactly when the five slots suffice: unless both dictionary codings are listed. A list that set_priority
      accepts has neither. */
  lemma FitsIff(profile: Option<Profile>, explicit: Option<seq<ContentCoding>>)
    ensures Fits(profile, explicit) <==>
              !(explicit.Some? && DictionaryBrotli in explicit.value && DictionaryZstd in explicit.value)
    ensures Configured(explicit) ==> Fits(profile, explicit)
  {
    hide Firsts, Configured, Distinct;
    var listed := if explicit.Some? then explicit.value else [];
    var firsts := Firsts(listed + Defaults(profile));
    FirstsAreDistinct(listed + Defaults(profile));
    hide Defaults;
    SizeOfDistinct(firsts);
    var extra := set coding | coding in {DictionaryBrotli, DictionaryZstd} && coding in listed;
    forall coding ensures coding in firsts <==> coding in RUNTIME + extra {
      FirstsHold(profile, listed, coding);
    }
    assert (set coding | coding in firsts) == RUNTIME + extra;
    RuntimeAndMore(extra);
    if Configured(explicit) && explicit.Some? {
      ConfiguredHasNone(explicit);
    }
  }

  lemma FirstsHold(profile: Option<Profile>, listed: seq<ContentCoding>, coding: ContentCoding)
    ensures coding in Firsts(listed + Defaults(profile)) <==>
              coding in RUNTIME || (coding in {DictionaryBrotli, DictionaryZstd} && coding in listed)
  {
    DefaultsAreAll(profile);
    FirstsAreDistinct(listed + Defaults(profile));
    hide Firsts, Defaults, Distinct;
    EveryCoding(coding);
    assert coding in listed + Defaults(profile) <==> coding in listed || coding in Defaults(profile);
  }

  lemma RuntimeAndMore(extra: set<ContentCoding>)
    requires extra <= {DictionaryBrotli, DictionaryZstd}
    ensures |RUNTIME + extra| <= SLOTS <==> !(DictionaryBrotli in extra && DictionaryZstd in extra)
  {
    DictionaryCodings(extra);
    assert |RUNTIME| == 4 && RUNTIME !! extra;
  }

  lemma ConfiguredHasNone(explicit: Option<seq<ContentCoding>>)
    requires Configured(explicit) && explicit.Some?
    ensures DictionaryBrotli !in explicit.value && DictionaryZstd !in explicit.value
  {
  }

  lemma EveryCoding(coding: ContentCoding)
    ensures coding in RUNTIME || coding in {DictionaryBrotli, DictionaryZstd} || coding == Identity
  {
  }

  lemma DictionaryCodings(extra: set<ContentCoding>)
    requires extra <= {DictionaryBrotli, DictionaryZstd}
    ensures |extra| <= 1 <==> !(DictionaryBrotli in extra && DictionaryZstd in extra)
  {
    if DictionaryBrotli in extra && DictionaryZstd in extra {
      assert extra == {DictionaryBrotli, DictionaryZstd};
    } else if DictionaryBrotli in extra {
      assert extra == {DictionaryBrotli};
    } else if DictionaryZstd in extra {
      assert extra == {DictionaryZstd};
    } else {
      assert extra == {};
    }
  }

  /** resolve_priority, for any list. Where the slots do not suffice the index is out of range: null stands for
      the panic. */
  method ResolvePriority(profile: Option<Profile>, explicit: Option<seq<ContentCoding>>)
    returns (resolved: array?<ContentCoding>)
    ensures resolved != null <==> Fits(profile, explicit)
    ensures resolved != null ==>
              fresh(resolved) && resolved.Length == SLOTS && resolved[..] == Resolved(profile, explicit)
  {
    hide Firsts, Chain, Defaults;
    var slots := new ContentCoding[SLOTS](_ => Identity);
    var len := 0;
    var chain := Chain(profile, explicit);
    FirstsOfNone(chain);
    for i := 0 to |chain|
      invariant len <= SLOTS
      invariant slots[..len] == Firsts(chain[..i])
      invariant forall k :: len <= k < SLOTS ==> slots[k] == Identity
    {
      FirstsStep(chain, i);
      FirstsGrow(chain, i + 1);
      if chain[i] != Identity && chain[i] !in slots[..len] {
        ghost var kept := slots[..len];
        assert |Firsts(chain[..i + 1])| == len + 1;
        if len == SLOTS {
          return null;
        }
        slots[len] := chain[i];
        len := len + 1;
        assert slots[..len] == kept + [chain[i]];
      }
    }
    PaddedSlots(slots[..], len);
    resolved := slots;
  }

  lemma FirstsOfNone(chain: seq<ContentCoding>)
    ensures chain[..|chain|] == chain && Firsts(chain[..0]) == []
  {
    assert chain[..0] == [];
  }

  lemma PaddedSlots(slots: seq<ContentCoding>, len: nat)
    requires len <= |slots| == SLOTS && forall k :: len <= k < SLOTS ==> slots[k] == Identity
    ensures slots == Padded(slots[..len])
  {
  }
}
