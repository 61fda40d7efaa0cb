/** Serving a precompressed sidecar (module/src/static_file/mod.rs and sidecar.rs). */
module Sidecar {
  import opened Wrappers
  import opened Negotiation
  import opened StaticPolicy
  import opened Configuration

  /** What opening a sidecar comes to. */
  datatype Probe = Missing | Found | Broken

  type Files = ContentCoding -> Probe

  datatype Outcome = Served(coding: ContentCoding) | Declined | Refused | ServerError

  datatype ResponseHeader = ContentEncoding(coding: ContentCoding) | VaryAcceptEncoding

  /** The response's header list, and how many more headers there is memory for. */
  datatype Headers = Headers(list: seq<ResponseHeader>, room: nat)

  function Push(h: Headers, header: ResponseHeader): Result<Headers, ()> {
    if h.room == 0 then Failure(()) else Success(Headers(h.list + [header], h.room - 1))
  }

  datatype Answer = Answer(outcome: Outcome, headers: Headers)

  function Send(coding: ContentCoding, h: Headers): Answer {
    match Push(h, ContentEncoding(coding))
    case Failure(_) => Answer(ServerError, h)
    case Success(sent) => Answer(Served(coding), sent)
  }

  /** After the last candidate. */
  function FallBack(varies: bool, fallbackAcceptable: bool, h: Headers): Answer {
    if fallbackAcceptable then Answer(Declined, h)
    else if !varies then Answer(Refused, h)
    else
      match Push(h, VaryAcceptEncoding)
      case Failure(_) => Answer(ServerError, h)
      case Success(marked) => Answer(Refused, marked)
  }

  /** The rest of probe_and_serve; `varies` says that Vary has yet to be added. */
  function ProbeFrom(candidates: seq<Candidate>, varies: bool, fallbackAcceptable: bool, files: Files,
                     h: Headers): Answer {
    if candidates == [] then FallBack(varies, fallbackAcceptable, h)
    else
      var candidate := candidates[0];
      match files(candidate.coding)
      case Broken => Answer(ServerError, h)
      case Missing => ProbeFrom(candidates[1..], varies, fallbackAcceptable, files, h)
      case Found =>
        match (if varies then Push(h, VaryAcceptEncoding) else Success(h))
        case Failure(_) => Answer(ServerError, h)
        case Success(marked) =>
          if candidate.accepted then Send(candidate.coding, marked)
          else ProbeFrom(candidates[1..], false, fallbackAcceptable, files, marked)
  }

  class Response {
    var headers: Headers

    constructor (room: nat)
      ensures headers == Headers([], room)
    {
      headers := Headers([], room);
    }

    method AddHeader(header: ResponseHeader) returns (ok: bool)
      modifies this
      ensures ok <==> Push(old(headers), header).Success?
      ensures headers == if ok then Push(old(headers), header).value else old(headers)
    {
      ok := headers.room > 0;
      if ok {
        headers := Headers(headers.list + [header], headers.room - 1);
      }
    }

    method SendFile(coding: ContentCoding) returns (outcome: Outcome)
      modifies this
      ensures Answer(outcome, headers) == Send(coding, old(headers))
    {
      var ok := AddHeader(ContentEncoding(coding));
      outcome := if ok then Served(coding) else ServerError;
    }

    /** probe_and_serve. */
    method ProbeAndServe(candidates: seq<Candidate>, vary: bool, fallbackAcceptable: bool, files: Files)
      returns (outcome: Outcome)
      modifies this
      ensures Answer(outcome, headers) == ProbeFrom(candidates, vary, fallbackAcceptable, files, old(headers))
    {
      var varyAdded := false;
      for i := 0 to |candidates|
        invariant ProbeFrom(candidates, vary, fallbackAcceptable, files, old(headers))
               == ProbeFrom(candidates[i..], vary && !varyAdded, fallbackAcceptable, files, headers)
      {
        assert candidates[i..][1..] == candidates[i + 1..];
        match files(candidates[i].coding) {
          case Broken => return ServerError;
          case Missing => continue;
          case Found =>
        }
        if vary && !varyAdded {
          var ok := AddHeader(VaryAcceptEncoding);
          if !ok { return ServerError; }
          varyAdded := true;
        }
        if candidates[i].accepted {
          outcome := SendFile(candidates[i].coding);
          return;
        }
      }
      if fallbackAcceptable { return Declined; }
      if vary && !varyAdded {
        var ok := AddHeader(VaryAcceptEncoding);
        if !ok { return ServerError; }
      }
      return Refused;
    }

    /** serve, once it has the resolved settings and the request's facts. */
    method Serve(settings: Settings, facts: Facts, files: Files) returns (outcome: Outcome)
      modifies this
      ensures Answer(outcome, headers) == ServeAnswer(settings, facts, files, old(headers))
    {
      if settings.mode == Off || !NamesAFile(facts) { return Declined; }
      var candidates := StaticCandidates(settings.mode, facts, settings.priority);
      outcome := ProbeAndServe(candidates, settings.mode == On && settings.vary,
                               FallbackAcceptable(settings, facts.accept), files);
    }
  }

  // ----- the decision -----

  /** runtime_available. */
  function RuntimeAvailable(settings: Settings): ContentCoding -> bool {
    (coding: ContentCoding) =>
      match coding
      case Identity => true
      case Gzip => settings.gzip.Some?
      case Deflate => settings.deflate.Some?
      case Brotli => settings.brotli.Some?
      case Zstd => settings.zstd.Some?
      case _ => false
  }

  /** The runtime filter can answer the request with something other than identity. */
  predicate RuntimeAcceptable(settings: Settings, a: AcceptEncoding) {
    settings.enabled
    && var choice := Negotiate(a, settings.priority, RuntimeAvailable(settings));
       choice.Selected? && choice.coding != Identity
  }

  predicate FallbackAcceptable(settings: Settings, a: AcceptEncoding) {
    settings.mode == Always || QualityOf(a, Identity) > 0 || RuntimeAcceptable(settings, a)
  }

  function ServeAnswer(settings: Settings, facts: Facts, files: Files, h: Headers): Answer {
    if settings.mode == Off || !NamesAFile(facts) then Answer(Declined, h)
    else
      ProbeFrom(StaticCandidates(settings.mode, facts, settings.priority), settings.mode == On && settings.vary,
                FallbackAcceptable(settings, facts.accept), files, h)
  }

  // ----- what probing comes to -----

  predicate Serves(candidate: Candidate, files: Files) {
    candidate.accepted && files(candidate.coding) == Found
  }

  /** The first acceptable candidate that exists. */
  function FirstServed(candidates: seq<Candidate>, files: Files): Option<ContentCoding> {
    if candidates == [] then None
    else if Serves(candidates[0], files) then Some(candidates[0].coding)
    else FirstServed(candidates[1..], files)
  }

  predicate SomeExists(candidates: seq<Candidate>, files: Files) {
    exists i :: 0 <= i < |candidates| && files(candidates[i].coding) == Found
  }

  /** Short of an error the first acceptable candidate that exists is served. Vary is there, once, exactly
      when the answer depends on Accept-Encoding: some candidate exists, or the request is refused. */
  lemma {:induction false} ProbeServesFirst(
      candidates: seq<Candidate>, varies: bool, fallbackAcceptable: bool, files: Files, h: Headers)
    ensures var r := ProbeFrom(candidates, varies, fallbackAcceptable, files, h);
            var first := FirstServed(candidates, files);
            r.outcome != ServerError ==>
              && r.outcome == (if first.Some? then Served(first.value)
                               else if fallbackAcceptable then Declined else Refused)
              && r.headers.list == h.list
                   + (if varies && (SomeExists(candidates, files) || r.outcome == Refused)
                      then [VaryAcceptEncoding] else [])
                   + (if first.Some? then [ContentEncoding(first.value)] else [])
    ensures h.room >= 2 && (forall i :: 0 <= i < |candidates| ==> files(candidates[i].coding) != Broken) ==>
              ProbeFrom(candidates, varies, fallbackAcceptable, files, h).outcome != ServerError
    decreases |candidates|
  {
    if candidates != [] {
      var rest := candidates[1..];
      assert forall i :: 0 <= i < |rest| ==> rest[i] == candidates[i + 1];
      var marked := if varies && files(candidates[0].coding) == Found then Push(h, VaryAcceptEncoding) else Success(h);
      if files(candidates[0].coding) == Missing {
        ProbeServesFirst(rest, varies, fallbackAcceptable, files, h);
        assert SomeExists(candidates, files) <==> SomeExists(rest, files);
      } else if files(candidates[0].coding) == Found {
        assert SomeExists(candidates, files);
        if marked.Success? && !candidates[0].accepted {
          WithoutVary(rest, fallbackAcceptable, files, marked.value);
        }
      }
    }
  }

  lemma {:induction false} WithoutVary(candidates: seq<Candidate>, fallbackAcceptable: bool, files: Files, h: Headers)
    ensures var r := ProbeFrom(candidates, false, fallbackAcceptable, files, h);
            var first := FirstServed(candidates, files);
            r.outcome != ServerError ==>
              && r.outcome == (if first.Some? then Served(first.value)
                               else if fallbackAcceptable then Declined else Refused)
              && r.headers.list == h.list + (if first.Some? then [ContentEncoding(first.value)] else [])
    ensures h.room >= 1 && (forall i :: 0 <= i < |candidates| ==> files(candidates[i].coding) != Broken) ==>
              ProbeFrom(candidates, false, fallbackAcceptable, files, h).outcome != ServerError
    decreases |candidates|
  {
    if candidates != [] {
      var rest := candidates[1..];
      assert forall i :: 0 <= i < |rest| ==> rest[i] == candidates[i + 1];
      WithoutVary(rest, fallbackAcceptable, files, h);
    }
  }

  // ----- probing refines negotiation -----

  /** The representations there are: the sidecars that exist, and the file itself. */
  function Representations(files: Files): ContentCoding -> bool {
    (coding: ContentCoding) => coding == Identity || (Extension(coding).Some? && files(coding) == Found)
  }

  predicate Usable(a: AcceptEncoding, files: Files, coding: ContentCoding) {
    Extension(coding).Some? && files(coding) == Found && Accepts(On, a, coding)
  }

  /** What the sorted probe serves, read off the unsorted preference: a later coding must be strictly better. */
  function Pick(a: AcceptEncoding, files: Files, preference: seq<ContentCoding>): Option<ContentCoding> {
    if preference == [] then None
    else
      var later := Pick(a, files, preference[1..]);
      if Usable(a, files, preference[0])
         && (later.None? || QualityOf(a, preference[0]) >= QualityOf(a, later.value))
      then Some(preference[0]) else later
  }

  lemma {:induction false} FirstOfInserted(a: AcceptEncoding, files: Files, x: Candidate, sorted: seq<Candidate>)
    requires Descending(ByQuality(a), sorted)
    ensures var was := FirstServed(sorted, files);
            FirstServed(Insert(ByQuality(a), x, sorted), files) ==
              if Serves(x, files) && (was.None? || QualityOf(a, x.coding) >= QualityOf(a, was.value))
              then Some(x.coding) else was
  {
    var key := ByQuality(a);
    if sorted == [] || key(x) >= key(sorted[0]) {
      assert ([x] + sorted)[1..] == sorted;
      FirstIsNoBetter(a, files, sorted);
    } else {
      FirstOfInserted(a, files, x, sorted[1..]);
      var rest := Insert(key, x, sorted[1..]);
      assert ([sorted[0]] + rest)[1..] == rest;
    }
  }

  lemma {:induction false} FirstIsNoBetter(a: AcceptEncoding, files: Files, sorted: seq<Candidate>)
    requires Descending(ByQuality(a), sorted)
    ensures FirstServed(sorted, files).Some? ==>
              sorted != [] && QualityOf(a, FirstServed(sorted, files).value) <= ByQuality(a)(sorted[0])
  {
    if sorted != [] {
      FirstIsNoBetter(a, files, sorted[1..]);
    }
  }

  lemma {:induction false} SortedProbeIsPick(a: AcceptEncoding, files: Files, preference: seq<ContentCoding>)
    ensures FirstServed(SortDescending(ByQuality(a), InServerOrder(On, a, preference)), files)
         == Pick(a, files, preference)
  {
    if preference != [] {
      var rest := preference[1..];
      SortedProbeIsPick(a, files, rest);
      var later := InServerOrder(On, a, rest);
      if Extension(preference[0]).Some? {
        var x := Candidate(preference[0], Extension(preference[0]).value, Accepts(On, a, preference[0]));
        assert ([x] + later)[1..] == later;
        SortIsStable(ByQuality(a), later, 0);
        FirstOfInserted(a, files, x, SortDescending(ByQuality(a), later));
      } else {
        assert [] + later == later;
      }
    }
  }

  /** What is picked is usable, and no other usable coding is better, or as good and preferred. */
  lemma {:induction false} PickIsBest(a: AcceptEncoding, files: Files, preference: seq<ContentCoding>) returns (k: nat)
    ensures var r := Pick(a, files, preference);
            if r.None? then forall j :: 0 <= j < |preference| ==> !Usable(a, files, preference[j])
            else
              && k < |preference| && preference[k] == r.value && Usable(a, files, preference[k])
              && forall j :: 0 <= j < |preference| && Usable(a, files, preference[j]) ==>
                   && QualityOf(a, preference[j]) <= QualityOf(a, preference[k])
                   && (j < k ==> QualityOf(a, preference[j]) < QualityOf(a, preference[k]))
  {
    k := 0;
    if preference != [] {
      var rest := preference[1..];
      var i := PickIsBest(a, files, rest);
      var later, r := Pick(a, files, rest), Pick(a, files, preference);
      hide QualityOf, Usable;
      assert forall j :: 1 <= j < |preference| ==> preference[j] == rest[j - 1];
      if later.Some? && !(Usable(a, files, preference[0]) && QualityOf(a, preference[0]) >= QualityOf(a, later.value)) {
        k := i + 1;
      }
    }
  }

  /** With identity last, the sorted probe serves exactly the coding negotiation selects among the sidecars that
      exist and the file itself, and serves nothing exactly when that is identity, or nothing. */
  lemma ProbeRefinesNegotiation(a: AcceptEncoding, files: Files, preference: seq<ContentCoding>, coding: ContentCoding)
    requires Identity !in preference
    ensures var choice := Negotiate(a, preference + [Identity], Representations(files));
            var sorted := SortDescending(ByQuality(a), InServerOrder(On, a, preference + [Identity]));
            var served := FirstServed(sorted, files);
            && (served == Some(coding) <==> coding != Identity && choice == Selected(coding))
            && (served == None <==> choice == Selected(Identity) || choice == NotAcceptable)
  {
    var all := preference + [Identity];
    var available := Representations(files);
    SortedProbeIsPick(a, files, all);
    var k := PickIsBest(a, files, all);
    var i := NegotiateBest(a, all, available);
    var picked := Pick(a, files, all);
    hide QualityOf, Negotiate, Pick;
    assert all[|preference|] == Identity;
    if picked.Some? {
      assert IsBest(a, all, available, k) by {
        forall j | 0 <= j < |all| && available(all[j])
          ensures QualityOf(a, all[j]) <= QualityOf(a, all[k])
          ensures j < k ==> QualityOf(a, all[j]) < QualityOf(a, all[k])
        {
          assert all[j] == Identity ==> j == |preference|;
        }
      }
      NegotiateIff(a, all, available, picked.value);
    } else if Negotiate(a, all, available).Selected? && all[i] != Identity {
      assert false;
    }
  }

  // ----- what the client gets -----

  /** Something with a quality above zero can be sent: the file, a sidecar that exists, or what the filter makes. */
  predicate SomethingAcceptable(settings: Settings, a: AcceptEncoding, files: Files) {
    exists coding ::
      && coding in settings.priority
      && QualityOf(a, coding) > 0
      && (Representations(files)(coding) || (settings.enabled && RuntimeAvailable(settings)(coding)))
  }

  /** `on` mode, end to end: the sidecar negotiation selects, or else a decline if anything can be
      sent at all, or else a refusal. */
  lemma OnModeServes(settings: Settings, preference: seq<ContentCoding>, facts: Facts, files: Files, h: Headers,
                     coding: ContentCoding)
    requires settings.mode == On && NamesAFile(facts)
    requires settings.priority == preference + [Identity] && Identity !in preference
    ensures var r := ServeAnswer(settings, facts, files, h);
            var choice := Negotiate(facts.accept, settings.priority, Representations(files));
            r.outcome != ServerError ==>
              && (r.outcome == Served(coding) <==> coding != Identity && choice == Selected(coding))
              && (r.outcome == Refused <==> !SomethingAcceptable(settings, facts.accept, files))
  {
    var a := facts.accept;
    var candidates := StaticCandidates(On, facts, settings.priority);
    ProbeServesFirst(candidates, settings.vary, FallbackAcceptable(settings, a), files, h);
    RefusedIff(settings, preference, a, files);
    ProbeRefinesNegotiation(a, files, preference, coding);
    hide ProbeFrom, FirstServed, SortDescending, InServerOrder, Negotiate, SomethingAcceptable, FallbackAcceptable;
  }

  /** `on` mode with Vary switched on marks the response exactly when it depends on Accept-Encoding. */
  lemma OnModeVaries(settings: Settings, preference: seq<ContentCoding>, facts: Facts, files: Files, h: Headers)
    requires settings.mode == On && NamesAFile(facts)
    requires settings.priority == preference + [Identity]
    ensures var r := ServeAnswer(settings, facts, files, h);
            r.outcome != ServerError ==>
              && h.list <= r.headers.list
              && (VaryAcceptEncoding in r.headers.list[|h.list|..] <==>
                    settings.vary
                    && (r.outcome == Refused
                        || exists coding :: coding in preference && Extension(coding).Some? && files(coding) == Found))
  {
    var candidates := StaticCandidates(On, facts, settings.priority);
    ProbeServesFirst(candidates, settings.vary, FallbackAcceptable(settings, facts.accept), files, h);
    SomeSidecarExists(settings, preference, facts.accept, files);
    hide ProbeFrom, FirstServed, SortDescending, InServerOrder, SomeExists, FallbackAcceptable;
    var r := ServeAnswer(settings, facts, files, h);
    if r.outcome != ServerError {
      assert r.headers.list[|h.list|..] ==
        (if settings.vary && (SomeExists(candidates, files) || r.outcome == Refused) then [VaryAcceptEncoding] else [])
        + (if FirstServed(candidates, files).Some?
           then [ContentEncoding(FirstServed(candidates, files).value)] else []);
    }
  }

  lemma RefusedIff(settings: Settings, preference: seq<ContentCoding>, a: AcceptEncoding, files: Files)
    requires settings.mode == On
    requires settings.priority == preference + [Identity] && Identity !in preference
    ensures var first := FirstServed(SortDescending(ByQuality(a), InServerOrder(On, a, settings.priority)), files);
            first.None? && !FallbackAcceptable(settings, a) <==> !SomethingAcceptable(settings, a, files)
  {
    var all := settings.priority;
    SortedProbeIsPick(a, files, all);
    var k := PickIsBest(a, files, all);
    var i := NegotiateBest(a, all, RuntimeAvailable(settings));
    hide QualityOf, Negotiate, Pick, SortDescending, InServerOrder;
    assert all[|preference|] == Identity;
    var picked := Pick(a, files, all);
    if picked.Some? {
      assert all[k] in all && Representations(files)(all[k]) && QualityOf(a, all[k]) > 0;
    } else if QualityOf(a, Identity) > 0 {
      assert Identity in all && Representations(files)(Identity);
    } else if RuntimeAcceptable(settings, a) {
      assert all[i] in all && QualityOf(a, all[i]) > 0;
    }
  }

  lemma {:induction false} SidecarsOf(mode: StaticMode, a: AcceptEncoding, preference: seq<ContentCoding>,
                                      coding: ContentCoding)
    ensures (exists candidate :: candidate in InServerOrder(mode, a, preference) && candidate.coding == coding) <==>
            coding in preference && Extension(coding).Some?
  {
    if preference != [] {
      var rest := preference[1..];
      SidecarsOf(mode, a, rest, coding);
      assert preference == [preference[0]] + rest;
      if Extension(preference[0]).Some? {
        var x := Candidate(preference[0], Extension(preference[0]).value, Accepts(mode, a, preference[0]));
        assert InServerOrder(mode, a, preference) == [x] + InServerOrder(mode, a, rest);
        assert x in InServerOrder(mode, a, preference);
      } else {
        assert InServerOrder(mode, a, preference) == InServerOrder(mode, a, rest);
      }
    }
  }

  lemma SomeSidecarExists(settings: Settings, preference: seq<ContentCoding>, a: AcceptEncoding, files: Files)
    requires settings.priority == preference + [Identity]
    ensures SomeExists(SortDescending(ByQuality(a), InServerOrder(On, a, settings.priority)), files) <==>
            exists coding :: coding in preference && Extension(coding).Some? && files(coding) == Found
  {
    var inOrder := InServerOrder(On, a, settings.priority);
    SameElements(ByQuality(a), inOrder);
    var sorted := SortDescending(ByQuality(a), inOrder);
    hide SortDescending;
    if coding :| coding in preference && Extension(coding).Some? && files(coding) == Found {
      SidecarsOf(On, a, settings.priority, coding);
      hide InServerOrder;
      var candidate :| candidate in inOrder && candidate.coding == coding;
      var i :| 0 <= i < |sorted| && sorted[i] == candidate;
    }
    if SomeExists(sorted, files) {
      var i :| 0 <= i < |sorted| && files(sorted[i].coding) == Found;
      assert sorted[i] in inOrder;
      SidecarsOf(On, a, settings.priority, sorted[i].coding);
      hide InServerOrder;
    }
  }

  lemma SameElements<T>(key: T -> nat, s: seq<T>)
    ensures forall x :: x in SortDescending(key, s) <==> x in s
  {
    SortIsStable(key, s, 0);
    hide SortDescending;
    forall x ensures x in SortDescending(key, s) <==> x in s {
      assert x in multiset(s) <==> x in multiset(SortDescending(key, s));
    }
  }

  /** Nothing is looked up, and the request goes on as it came, in mode `off`, for a method other than GET and HEAD,
      and for a path that is empty or ends in a slash; for no other request is the answer independent of the files. */
  lemma {:induction false} LooksUpIff(settings: Settings, facts: Facts, h: Headers)
    requires exists coding :: coding in settings.priority && Extension(coding).Some?
    ensures (forall files :: ServeAnswer(settings, facts, files, h) == Answer(Declined, h)) <==>
              || settings.mode == Off
              || !facts.methodSupported
              || facts.uri == []
              || exists path :: facts.uri == path + [0x2f]
  {
    if facts.uri != [] {
      assert facts.uri == facts.uri[..|facts.uri| - 1] + [facts.uri[|facts.uri| - 1]];
    }
    if settings.mode != Off && NamesAFile(facts) {
      var broken: Files := coding => Broken;
      SomeCandidate(settings, facts);
      hide StaticCandidates, FallbackAcceptable, NamesAFile;
      assert ServeAnswer(settings, facts, broken, h) == Answer(ServerError, h);
    }
  }

  lemma SomeCandidate(settings: Settings, facts: Facts)
    requires settings.mode != Off && NamesAFile(facts)
    requires exists coding :: coding in settings.priority && Extension(coding).Some?
    ensures StaticCandidates(settings.mode, facts, settings.priority) != []
  {
    var inOrder := InServerOrder(settings.mode, facts.accept, settings.priority);
    var coding :| coding in settings.priority && Extension(coding).Some?;
    SidecarsOf(settings.mode, facts.accept, settings.priority, coding);
    hide InServerOrder;
    SameElements(ByQuality(facts.accept), inOrder);
    hide SortDescending;
    var candidate :| candidate in inOrder && candidate.coding == coding;
  }

  /** `always` mode takes no notice of the client: the first sidecar in the server's order, never a refusal, never
      Vary. */
  lemma AlwaysModeServes(settings: Settings, facts: Facts, files: Files, h: Headers)
    requires settings.mode == Always && NamesAFile(facts)
    ensures var r := ServeAnswer(settings, facts, files, h);
            && r.outcome != Refused
            && h.list <= r.headers.list
            && VaryAcceptEncoding !in r.headers.list[|h.list|..]
            && (r.outcome == Declined ==>
                  forall coding :: coding in settings.priority && Extension(coding).Some? ==> files(coding) == Missing)
            && (forall coding :: r.outcome == Served(coding) ==>
                  exists k :: FirstThere(files, settings.priority, k) && settings.priority[k] == coding)
  {
    var k := AlwaysProbes(settings.priority, facts.accept, files, h);
  }

  /** `preference[k]` is there to be sent, and none before it. */
  predicate FirstThere(files: Files, preference: seq<ContentCoding>, k: int) {
    && 0 <= k < |preference|
    && Extension(preference[k]).Some? && files(preference[k]) == Found
    && forall j :: 0 <= j < k && Extension(preference[j]).Some? ==> files(preference[j]) == Missing
  }

  lemma {:induction false} AlwaysProbes(preference: seq<ContentCoding>, a: AcceptEncoding, files: Files, h: Headers)
    returns (k: int)
    ensures var r := ProbeFrom(InServerOrder(Always, a, preference), false, true, files, h);
            && r.outcome != Refused && h.list <= r.headers.list
            && VaryAcceptEncoding !in r.headers.list[|h.list|..]
            && (r.outcome == Declined ==>
                  forall coding :: coding in preference && Extension(coding).Some? ==> files(coding) == Missing)
            && (r.outcome.Served? ==> FirstThere(files, preference, k) && preference[k] == r.outcome.coding)
    decreases |preference|
  {
    k := 0;
    if preference != [] {
      var first, rest := preference[0], preference[1..];
      var i := AlwaysProbes(rest, a, files, h);
      assert preference == [first] + rest;
      if Extension(first).None? || files(first) == Missing { k := i + 1; }
      FirstThereLater(files, first, rest, i);
      AlwaysOneMore(first, rest, a, files, h);
      hide InServerOrder, FirstThere, ProbeFrom;
    }
  }

  lemma FirstThereLater(files: Files, first: ContentCoding, rest: seq<ContentCoding>, i: int)
    ensures FirstThere(files, rest, i) && (Extension(first).Some? ==> files(first) == Missing) ==>
              FirstThere(files, [first] + rest, i + 1) && ([first] + rest)[i + 1] == rest[i]
    ensures Extension(first).Some? && files(first) == Found ==> FirstThere(files, [first] + rest, 0)
  {
    var all := [first] + rest;
    assert forall j :: 0 < j < |all| ==> all[j] == rest[j - 1];
  }

  lemma AlwaysOneMore(first: ContentCoding, rest: seq<ContentCoding>, a: AcceptEncoding, files: Files, h: Headers)
    ensures var later := ProbeFrom(InServerOrder(Always, a, rest), false, true, files, h);
            ProbeFrom(InServerOrder(Always, a, [first] + rest), false, true, files, h) ==
              if Extension(first).None? || files(first) == Missing then later
              else if files(first) == Broken then Answer(ServerError, h)
              else Send(first, h)
  {
    assert ([first] + rest)[1..] == rest;
    var later := InServerOrder(Always, a, rest);
    if Extension(first).None? {
      assert [] + later == later;
    } else {
      assert ([Candidate(first, Extension(first).value, true)] + later)[1..] == later;
    }
  }
}
