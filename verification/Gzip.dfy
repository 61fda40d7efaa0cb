/**
 * The gzip coding (codecs/src/flate/gzip.rs): a header, a deflate stream and a trailer,
 * which the caller may cut at any output byte.
 */
module Gzip {
  import opened Wrappers
  import opened Progress
  import opened Codec
  import opened OutputPool
  import opened Transcript
  import opened Filter
  import opened FilterInput
  import opened FilterRuns
  import opened FilterGate
  import opened FilterOutput
  import opened Honesty
  import opened Protocol
  import opened Liveness
  import opened Flate
  import C = Crc

  const GZIP_HEADER: seq<byte> := [0x1f, 0x8b, 0x08, 0x00, 0, 0, 0, 0, 0x00, 0xff]

  datatype GzipState<+D> = GzipState(
    core: D,
    crc: C.Running,
    headerPos: nat,
    bodyDone: bool,
    trailer: seq<byte>,
    trailerPos: nat)

  /** copy_into(&source[from..], destination) as a value: what is copied. */
  function Cut(source: seq<byte>, from: nat, room: nat): seq<byte> {
    if from <= |source| then source[from..from + Min(|source| - from, room)] else []
  }

  function ComputeTrailer(crc: C.Running): (t: seq<byte>)
    ensures |t| == 8
  {
    C.Le32(C.Sum(crc)) + C.Le32(crc.amount % C.WORD)
  }

  function TrailerState(trailerPos: nat): StepState {
    if trailerPos == 8 then Complete else NeedsOutput
  }

  /** Writes more of the trailer after `before`. */
  function PutTrailer<D>(g: GzipState<D>, consumed: nat, before: seq<byte>, capacity: nat): Reply<GzipState<D>>
    requires |before| <= capacity
  {
    var put := Cut(g.trailer, g.trailerPos, capacity - |before|);
    var g' := g.(trailerPos := g.trailerPos + |put|);
    Reply.Stepped(g', consumed, before + put, TrailerState(g'.trailerPos))
  }

  function GzipCall<D>(core: Deflater<D>, g: GzipState<D>, operation: Operation, input: seq<byte>, capacity: nat)
    : Reply<GzipState<D>>
  {
    var head := Cut(GZIP_HEADER, g.headerPos, capacity);
    var g1 := g.(headerPos := g.headerPos + |head|);
    if g1.headerPos < |GZIP_HEADER| then
      Reply.Stepped(g1, 0, head, NeedsOutput)
    else if g1.bodyDone then
      PutTrailer(g1, 0, head, capacity)
    else
      Body(g1, core.run(g1.core, operation, input, capacity - |head|), operation, input, head, capacity)
  }

  /** What becomes of the deflate stream's answer. */
  function Body<D>(g: GzipState<D>, ran: Ran<D>, operation: Operation, input: seq<byte>, head: seq<byte>, capacity: nat)
    : Reply<GzipState<D>>
    requires |head| <= capacity
  {
    match ran
    case RunFailed(next) => Backend(g.(core := next))
    case Ran(next, consumed, bytes, ended) =>
      var g' := g.(core := next, crc := C.Update(g.crc, input[..Min(consumed, |input|)]));
      var produced := head + bytes;
      if operation == Finish && ended && |produced| <= capacity then
        PutTrailer(g'.(bodyDone := true, trailer := ComputeTrailer(g'.crc)), consumed, produced, capacity)
      else
        Reply.Stepped(g', consumed, produced,
                      DeriveState(operation, consumed == |input|, |produced| == capacity, false))
  }

  function GzipStep<D>(core: Deflater<D>): StepFn<GzipState<D>> {
    (g: GzipState<D>, operation: Operation, input: seq<byte>, capacity: nat) =>
      GzipCall(core, g, operation, input, capacity)
  }

  /** Gzip::new over a fresh deflate stream. */
  function NewGzip<D>(core: Deflater<D>): GzipState<D> {
    GzipState(core.initial, C.EMPTY, 0, false, seq(8, _ => 0), 0)
  }

  // ----- the invariant -----

  /** Everything the codec has written so far. */
  function Written<D>(core: Deflater<D>, g: GzipState<D>): seq<byte> {
    Cut(GZIP_HEADER, 0, g.headerPos) + core.emitted(g.core) + Cut(g.trailer, 0, g.trailerPos)
  }

  /** The frame of `data` around its deflate stream (section 2.3 of RFC 1952). */
  function Frame(body: seq<byte>, data: seq<byte>): seq<byte> {
    GZIP_HEADER + body + C.Le32(C.Crc32(data)) + C.Le32(|data| % C.WORD)
  }

  /** The frame's header fields (section 2.3.1 of RFC 1952): the magic number, deflate, no optional field, no time,
      no extra flag, and an unknown system. */
  lemma HeaderFields(body: seq<byte>, data: seq<byte>)
    ensures var frame := Frame(body, data);
            && |frame| == |body| + 18
            && frame[0] == 31 && frame[1] == 139 && frame[2] == 8
            && frame[3] == 0
            && C.FromLe32(frame[4..8]) == 0
            && frame[8] == 0 && frame[9] == 255
  {
    var frame := Frame(body, data);
    assert frame[..10] == GZIP_HEADER;
    assert frame[4..8] == frame[..10][4..8];
  }

  /** In header, body or trailer, and what the mode says about it. */
  ghost predicate GzipInv<D>(core: Deflater<D>, g: GzipState<D>, mode: Mode) {
    && g.headerPos <= |GZIP_HEADER| && g.trailerPos <= 8 && |g.trailer| == 8
    && C.Counts(g.crc, core.fed(g.core))
    && (g.headerPos < |GZIP_HEADER| ==> g.core == core.initial && !g.bodyDone && mode != Ended)
    && (!g.bodyDone ==> g.trailerPos == 0 && mode != Ended)
    && (!g.bodyDone && g.headerPos == |GZIP_HEADER| ==> core.inv(g.core, mode))
    && (g.bodyDone ==>
          && g.headerPos == |GZIP_HEADER|
          && g.trailer == ComputeTrailer(g.crc)
          && core.inflate(core.emitted(g.core)) == Some(core.fed(g.core))
          && mode == if g.trailerPos == 8 then Ended else AtBoundary(Finish, 0))
  }

  ghost function GzipInvariant<D(!new)>(core: Deflater<D>): (GzipState<D>, Mode) -> bool {
    (g, mode) => GzipInv(core, g, mode)
  }

  function OwedByGzip<D>(core: Deflater<D>): GzipState<D> -> Owed {
    (g: GzipState<D>) =>
      if g.bodyDone then Owed(0, 8 - Min(g.trailerPos, 8))
      else Owed(1 + 10 - Min(g.headerPos, 10), core.owed(g.core))
  }

  /** The reply passes the contract, and never asks for input at a boundary. */
  predicate Passes(operation: Operation, available: nat, capacity: nat, consumed: nat, produced: nat,
                   state: StepState) {
    && ValidateProgress(operation, available, capacity, StepResult(consumed, produced, state)) == None
    && (operation != Continue ==> state != NeedsInput)
  }

  /** What a legal call must come to: it passes the contract, adds to what was written and taken exactly
      what it says, and keeps the invariant. */
  ghost predicate GoodReply<D>(core: Deflater<D>, g: GzipState<D>, mode: Mode, operation: Operation, input: seq<byte>,
                               capacity: nat, r: Reply<GzipState<D>>) {
    && r.Stepped?
    && r.consumed <= |input|
    && Passes(operation, |input|, capacity, r.consumed, |r.bytes|, r.state)
    && Written(core, r.next) == Written(core, g) + r.bytes
    && core.fed(r.next.core) == core.fed(g.core) + input[..r.consumed]
    && GzipInv(core, r.next, After(operation, |input|, r.consumed, r.state))
  }

  /** It takes nothing, ends nothing, shows nothing new: then it leaves less to be drained. */
  ghost predicate ReplyDrains<D>(core: Deflater<D>, g: GzipState<D>, mode: Mode, operation: Operation,
                                 input: seq<byte>, r: Reply<GzipState<D>>) {
    && r.Stepped? && r.consumed <= |input|
    && (r.consumed == 0 && !Ends(operation, r.state) && After(operation, |input|, r.consumed, r.state) == mode ==>
          OwesLess(OwedByGzip(core)(r.next), OwedByGzip(core)(g)))
  }

  /** A state derived from drained and full passes, if one of the two holds. */
  lemma DerivedStatePasses(operation: Operation, available: nat, capacity: nat, consumed: nat, produced: nat)
    requires consumed <= available && produced <= capacity
    requires consumed == available || produced == capacity
    requires operation == Finish ==> produced == capacity
    ensures Passes(operation, available, capacity, consumed, produced,
                   DeriveState(operation, consumed == available, produced == capacity, false))
  {
  }

  lemma CutGoesOn(source: seq<byte>, from: nat, room: nat)
    requires from <= |source|
    ensures var put := Cut(source, from, room);
            && |put| == Min(|source| - from, room)
            && Cut(source, 0, from) + put == Cut(source, 0, from + |put|)
  {
  }

  /** Writing any part of the trailer, at the end of the input, passes the contract. */
  lemma TrailerPut<D>(g: GzipState<D>, consumed: nat, before: seq<byte>, capacity: nat)
    requires g.trailerPos <= 8 && |g.trailer| == 8 && |before| <= capacity
    ensures var put := Cut(g.trailer, g.trailerPos, capacity - |before|);
            var r := PutTrailer(g, consumed, before, capacity);
            && r.next == g.(trailerPos := g.trailerPos + |put|)
            && r.next.trailerPos <= 8
            && r.bytes == before + put
            && Cut(g.trailer, 0, g.trailerPos) + put == Cut(g.trailer, 0, r.next.trailerPos)
            && Passes(Finish, consumed, capacity, consumed, |r.bytes|, r.state)
            && After(Finish, consumed, consumed, r.state)
               == (if r.next.trailerPos == 8 then Ended else AtBoundary(Finish, 0))
            && (|before| < capacity && g.trailerPos < 8 ==> |put| > 0)
  {
    CutGoesOn(g.trailer, g.trailerPos, capacity - |before|);
  }

  lemma TrailerCall<D>(core: Deflater<D>, g: GzipState<D>, mode: Mode, operation: Operation, input: seq<byte>,
                       capacity: nat)
    requires GzipInv(core, g, mode) && Legal(mode, operation, |input|)
    requires g.bodyDone
    ensures GoodReply(core, g, mode, operation, input, capacity, PutTrailer(g, 0, [], capacity))
  {
    TrailerPut(g, 0, [], capacity);
    assert operation == Finish && input == [];
    var r := PutTrailer(g, 0, [], capacity);
    assert Written(core, r.next) == Written(core, g) + r.bytes;
    assert input[..0] == [];
  }

  /** The header goes out in any pieces; until it is out the deflate stream is untouched. */
  lemma HeaderCall<D(!new)>(core: Deflater<D>, g: GzipState<D>, mode: Mode, operation: Operation, input: seq<byte>,
                            capacity: nat)
    requires Zlib(core) && GzipInv(core, g, mode) && Legal(mode, operation, |input|)
    requires g.headerPos + |Cut(GZIP_HEADER, g.headerPos, capacity)| < |GZIP_HEADER|
    ensures var head := Cut(GZIP_HEADER, g.headerPos, capacity);
            GoodReply(core, g, mode, operation, input, capacity,
                      Reply.Stepped(g.(headerPos := g.headerPos + |head|), 0, head, NeedsOutput))
  {
    var head := Cut(GZIP_HEADER, g.headerPos, capacity);
    var g' := g.(headerPos := g.headerPos + |head|);
    CutGoesOn(GZIP_HEADER, g.headerPos, capacity);
    assert |head| == capacity;
    assert core.emitted(g.core) == [];
    assert Written(core, g) == Cut(GZIP_HEADER, 0, g.headerPos);
    assert Written(core, g') == Cut(GZIP_HEADER, 0, g'.headerPos);
    assert input[..0] == [];
  }

  /** The mode the deflate stream is in: it has seen nothing before the header is out. */
  function CoreMode<D>(g: GzipState<D>, mode: Mode): Mode {
    if g.headerPos < |GZIP_HEADER| then Ready else mode
  }

  /** The header is out with this call, at the latest, and the stream has answered. */
  ghost predicate InBody<D(!new)>(core: Deflater<D>, g: GzipState<D>, mode: Mode, operation: Operation,
                                  input: seq<byte>, capacity: nat, head: seq<byte>, ran: Ran<D>) {
    && GzipInv(core, g, mode) && Legal(mode, operation, |input|) && !g.bodyDone
    && head == Cut(GZIP_HEADER, g.headerPos, capacity)
    && g.headerPos + |head| == |GZIP_HEADER|
    && |head| <= capacity
    && ran == core.run(g.core, operation, input, capacity - |head|)
    && RunsWell(core, g.core, CoreMode(g, mode), operation, input, capacity - |head|)
  }

  lemma BodyWritten<D(!new)>(core: Deflater<D>, g: GzipState<D>, mode: Mode, operation: Operation, input: seq<byte>,
                             capacity: nat, head: seq<byte>, ran: Ran<D>)
    requires Zlib(core) && InBody(core, g, mode, operation, input, capacity, head, ran)
    ensures Written(core, g) + head + ran.bytes == GZIP_HEADER + core.emitted(ran.next)
    ensures C.Counts(C.Update(g.crc, input[..ran.consumed]), core.fed(ran.next))
  {
    CutGoesOn(GZIP_HEADER, g.headerPos, capacity);
    assert Cut(GZIP_HEADER, 0, |GZIP_HEADER|) == GZIP_HEADER;
    assert Cut(g.trailer, 0, 0) == [];
    C.UpdateCounts(g.crc, core.fed(g.core), input[..ran.consumed]);
    if g.headerPos < |GZIP_HEADER| {
      assert Written(core, g) == Cut(GZIP_HEADER, 0, g.headerPos);
    } else {
      assert head == [];
      assert Written(core, g) == GZIP_HEADER + core.emitted(g.core);
    }
  }

  /** The stream goes on. */
  lemma BodyGoesOn<D(!new)>(core: Deflater<D>, g: GzipState<D>, mode: Mode, operation: Operation, input: seq<byte>,
                            capacity: nat, head: seq<byte>, ran: Ran<D>)
    requires Zlib(core) && InBody(core, g, mode, operation, input, capacity, head, ran)
    requires !ran.ended
    ensures GoodReply(core, g, mode, operation, input, capacity,
                      Body(g.(headerPos := g.headerPos + |head|), ran, operation, input, head, capacity))
  {
    BodyStands(core, g, mode, operation, input, capacity, head, ran);
    hide Zlib, C.Update, C.Counts, ValidateProgress, DeriveState, Written;
    var r := Body(g.(headerPos := g.headerPos + |head|), ran, operation, input, head, capacity);
    DerivedStatePasses(operation, |input|, capacity, ran.consumed, |r.bytes|);
  }

  lemma BodyStands<D(!new)>(core: Deflater<D>, g: GzipState<D>, mode: Mode, operation: Operation, input: seq<byte>,
                            capacity: nat, head: seq<byte>, ran: Ran<D>)
    requires Zlib(core) && InBody(core, g, mode, operation, input, capacity, head, ran)
    requires !ran.ended
    ensures var r := Body(g.(headerPos := g.headerPos + |head|), ran, operation, input, head, capacity);
            && r.Stepped?
            && Written(core, r.next) == Written(core, g) + r.bytes
            && ran.consumed <= |input|
            && var after := After(operation, |input|, ran.consumed, r.state);
            && after == RanMode(operation, |input|, capacity - |head|, ran.consumed, |ran.bytes|, false)
            && GzipInv(core, r.next, after)
  {
    BodyWritten(core, g, mode, operation, input, capacity, head, ran);
    hide Zlib, C.Update, C.Counts;
    var r := Body(g.(headerPos := g.headerPos + |head|), ran, operation, input, head, capacity);
    assert Cut(GZIP_HEADER, 0, |GZIP_HEADER|) == GZIP_HEADER;
    assert Cut(g.trailer, 0, 0) == [];
    assert Written(core, g) + r.bytes == Written(core, g) + head + ran.bytes;
  }

  /** The codec's state as the stream ends and before any of the trailer is out. */
  function Ending<D>(g: GzipState<D>, next: D, taken: seq<byte>): GzipState<D> {
    var crc := C.Update(g.crc, taken);
    g.(headerPos := |GZIP_HEADER|, core := next, crc := crc, bodyDone := true, trailer := ComputeTrailer(crc))
  }

  lemma EndingWritten<D(!new)>(core: Deflater<D>, g: GzipState<D>, mode: Mode, operation: Operation, input: seq<byte>,
                               capacity: nat, head: seq<byte>, ran: Ran<D>)
    requires Zlib(core) && InBody(core, g, mode, operation, input, capacity, head, ran)
    requires ran.ended
    ensures var ending := Ending(g, ran.next, input[..ran.consumed]);
            && Written(core, ending) == Written(core, g) + (head + ran.bytes)
            && C.Counts(ending.crc, core.fed(ran.next))
            && Body(g.(headerPos := g.headerPos + |head|), ran, operation, input, head, capacity)
               == PutTrailer(ending, ran.consumed, head + ran.bytes, capacity)
  {
    BodyWritten(core, g, mode, operation, input, capacity, head, ran);
    var ending := Ending(g, ran.next, input[..ran.consumed]);
    assert Cut(GZIP_HEADER, 0, |GZIP_HEADER|) == GZIP_HEADER;
    assert Cut(ending.trailer, 0, 0) == [];
    assert Written(core, g) + head + ran.bytes == Written(core, g) + (head + ran.bytes);
  }

  /** The stream ends: the trailer is fixed and starts to go out. */
  lemma BodyEnds<D(!new)>(core: Deflater<D>, g: GzipState<D>, mode: Mode, operation: Operation, input: seq<byte>,
                          capacity: nat, head: seq<byte>, ran: Ran<D>)
    requires Zlib(core) && InBody(core, g, mode, operation, input, capacity, head, ran)
    requires ran.ended
    ensures GoodReply(core, g, mode, operation, input, capacity,
                      Body(g.(headerPos := g.headerPos + |head|), ran, operation, input, head, capacity))
  {
    EndingWritten(core, g, mode, operation, input, capacity, head, ran);
    var ending := Ending(g, ran.next, input[..ran.consumed]);
    var r := PutTrailer(ending, ran.consumed, head + ran.bytes, capacity);
    TrailerPut(ending, ran.consumed, head + ran.bytes, capacity);
    WrittenMore(core, ending, r.next, head + ran.bytes, r.bytes);
  }

  lemma WrittenMore<D>(core: Deflater<D>, g: GzipState<D>, g': GzipState<D>, before: seq<byte>, bytes: seq<byte>)
    requires g.trailerPos == 0 && g' == g.(trailerPos := g'.trailerPos)
    requires bytes == before + Cut(g.trailer, 0, g'.trailerPos)
    ensures forall w: seq<byte> :: Written(core, g) == w + before ==> Written(core, g') == w + bytes
  {
    assert Cut(g.trailer, 0, 0) == [];
    forall w: seq<byte> | Written(core, g) == w + before
      ensures Written(core, g') == w + bytes
    {
      assert Written(core, g') == (w + before) + Cut(g.trailer, 0, g'.trailerPos);
    }
  }

  /** One legal call, in any mode and at any capacity, from any cut of the header or the trailer. */
  lemma EveryCallIsGood<D(!new)>(core: Deflater<D>, g: GzipState<D>, mode: Mode, operation: Operation, input: seq<byte>,
                                 capacity: nat)
    requires Zlib(core) && GzipInv(core, g, mode) && Legal(mode, operation, |input|)
    ensures GoodReply(core, g, mode, operation, input, capacity, GzipCall(core, g, operation, input, capacity))
  {
    assert g.bodyDone ==> g.headerPos == |GZIP_HEADER|;
    hide GoodReply, PutTrailer, Body, Zlib, GzipInv, Legal;
    var head := Cut(GZIP_HEADER, g.headerPos, capacity);
    if g.headerPos + |head| < |GZIP_HEADER| {
      HeaderCall(core, g, mode, operation, input, capacity);
    } else if g.bodyDone {
      assert head == [];
      TrailerCall(core, g, mode, operation, input, capacity);
    } else {
      BodyCall(core, g, mode, operation, input, capacity, head);
    }
  }

  lemma BodyCall<D(!new)>(core: Deflater<D>, g: GzipState<D>, mode: Mode, operation: Operation, input: seq<byte>,
                          capacity: nat, head: seq<byte>)
    requires Zlib(core) && GzipInv(core, g, mode) && Legal(mode, operation, |input|) && !g.bodyDone
    requires head == Cut(GZIP_HEADER, g.headerPos, capacity) && g.headerPos + |head| >= |GZIP_HEADER|
    ensures |head| <= capacity
    ensures var ran := core.run(g.core, operation, input, capacity - |head|);
            GoodReply(core, g, mode, operation, input, capacity,
                      Body(g.(headerPos := g.headerPos + |head|), ran, operation, input, head, capacity))
  {
    assert |head| <= capacity && g.headerPos + |head| == |GZIP_HEADER|;
    assert RunsWell(core, g.core, CoreMode(g, mode), operation, input, capacity - |head|);
    var ran := core.run(g.core, operation, input, capacity - |head|);
    assert ran.Ran?;
    hide GoodReply, Body, Zlib, RunsWell, GzipInv, Cut;
    if ran.ended {
      BodyEnds(core, g, mode, operation, input, capacity, head, ran);
    } else {
      BodyGoesOn(core, g, mode, operation, input, capacity, head, ran);
    }
  }

  lemma NewGzipIsReady<D(!new)>(core: Deflater<D>)
    requires Zlib(core)
    ensures GzipInv(core, NewGzip(core), Ready)
  {
  }

  /** Over any zlib the gzip adapter passes the contract, at every capacity, and never asks for input at a boundary. */
  lemma GzipIsHonest<D(!new)>(core: Deflater<D>)
    requires Zlib(core)
    ensures Honest(GzipStep(core), GzipInvariant(core), NewGzip(core))
  {
    hide GzipInv, NewGzip, GzipStep, AnswersHonestly, Zlib, Legal;
    NewGzipIsReady(core);
    assert GzipInvariant(core)(NewGzip(core), Ready);
    forall g, mode, operation, input: seq<byte>, capacity: nat
      | GzipInvariant(core)(g, mode) && Legal(mode, operation, |input|)
      ensures AnswersHonestly(GzipStep(core), GzipInvariant(core), g, operation, input, capacity)
    {
      AnyCallIsHonest(core, g, mode, operation, input, capacity);
    }
  }

  lemma AnyCallIsHonest<D(!new)>(core: Deflater<D>, g: GzipState<D>, mode: Mode, operation: Operation,
                                 input: seq<byte>, capacity: nat)
    requires Zlib(core) && GzipInv(core, g, mode) && Legal(mode, operation, |input|)
    ensures AnswersHonestly(GzipStep(core), GzipInvariant(core), g, operation, input, capacity)
  {
    EveryCallIsGood(core, g, mode, operation, input, capacity);
    assert GzipStep(core)(g, operation, input, capacity) == GzipCall(core, g, operation, input, capacity);
    hide GzipCall, GzipInv, Written, ValidateProgress, GzipStep, Zlib;
  }

  /** Over a zlib that drains, it drains: header bytes, then what the stream owes, then trailer bytes. */
  lemma GzipDrains<D(!new)>(core: Deflater<D>)
    requires Zlib(core) && Drains(core)
    ensures Draining(GzipStep(core), GzipInvariant(core), OwedByGzip(core), core.least)
  {
    hide GzipInv, GzipStep, OwedByGzip, DrainsAt, Zlib, Drains, Legal, Ample;
    forall g, mode, operation, input: seq<byte>, capacity: nat
      | GzipInvariant(core)(g, mode) && Legal(mode, operation, |input|) && Ample(capacity, core.least, operation)
      ensures DrainsAt(GzipStep(core), OwedByGzip(core), g, mode, operation, input, capacity)
    {
      AnyCallDrains(core, g, mode, operation, input, capacity);
    }
  }

  lemma AnyCallDrains<D(!new)>(core: Deflater<D>, g: GzipState<D>, mode: Mode, operation: Operation,
                               input: seq<byte>, capacity: nat)
    requires Zlib(core) && Drains(core) && GzipInv(core, g, mode) && Legal(mode, operation, |input|)
    requires Ample(capacity, core.least, operation)
    ensures DrainsAt(GzipStep(core), OwedByGzip(core), g, mode, operation, input, capacity)
  {
    EveryCallDrains(core, g, mode, operation, input, capacity);
    assert GzipStep(core)(g, operation, input, capacity) == GzipCall(core, g, operation, input, capacity);
    hide GzipCall, GzipInv, ValidateProgress, OwedByGzip, GzipStep, Zlib, Drains;
  }

  /** The stage falls while the header goes out, even with little room left for the stream, and once more when the
      stream ends; in between the stream drains by itself. */
  lemma EveryCallDrains<D(!new)>(core: Deflater<D>, g: GzipState<D>, mode: Mode, operation: Operation, input: seq<byte>,
                                 capacity: nat)
    requires Zlib(core) && Drains(core) && GzipInv(core, g, mode) && Legal(mode, operation, |input|)
    requires Ample(capacity, core.least, operation)
    ensures ReplyDrains(core, g, mode, operation, input, GzipCall(core, g, operation, input, capacity))
  {
    EveryCallIsGood(core, g, mode, operation, input, capacity);
    if g.headerPos == |GZIP_HEADER| && !g.bodyDone {
      BodyDrains(core, g, mode, operation, input, capacity);
    } else {
      StageFalls(core, g, mode, operation, input, capacity);
    }
  }

  lemma BodyDrains<D(!new)>(core: Deflater<D>, g: GzipState<D>, mode: Mode, operation: Operation, input: seq<byte>,
                            capacity: nat)
    requires Zlib(core) && Drains(core) && GzipInv(core, g, mode) && Legal(mode, operation, |input|)
    requires Ample(capacity, core.least, operation) && g.headerPos == |GZIP_HEADER| && !g.bodyDone
    ensures ReplyDrains(core, g, mode, operation, input, GzipCall(core, g, operation, input, capacity))
  {
    assert RunsWell(core, g.core, mode, operation, input, capacity);
    assert RunDrains(core, g.core, mode, operation, input, capacity);
    var head := Cut(GZIP_HEADER, g.headerPos, capacity);
    assert head == [];
    hide Zlib, Drains, C.Update, ComputeTrailer, GzipInv, Cut, C.Counts;
    var ran := core.run(g.core, operation, input, capacity);
    assert head + ran.bytes == ran.bytes;
  }

  lemma StageFalls<D(!new)>(core: Deflater<D>, g: GzipState<D>, mode: Mode, operation: Operation, input: seq<byte>,
                            capacity: nat)
    requires GzipInv(core, g, mode) && Legal(mode, operation, |input|)
    requires capacity > 0 && (g.headerPos == |GZIP_HEADER| ==> g.bodyDone)
    requires GoodReply(core, g, mode, operation, input, capacity, GzipCall(core, g, operation, input, capacity))
    ensures ReplyDrains(core, g, mode, operation, input, GzipCall(core, g, operation, input, capacity))
  {
    hide Zlib, Drains, C.Update, ComputeTrailer, RunsWell, Written, Passes, C.Counts;
    assert g.headerPos < |GZIP_HEADER| ==> |Cut(GZIP_HEADER, g.headerPos, capacity)| > 0;
  }

  // ----- the frame -----

  /** Along any legal log the codec has written exactly what its state accounts for, and taken what it fed on. */
  lemma {:induction false} GzipAlongLog<D(!new)>(core: Deflater<D>, log: seq<StepRecord>)
    requires Zlib(core) && LegalLog(log) && Genuine(GzipStep(core), NewGzip(core), log)
    ensures var g := StateAfter(GzipStep(core), NewGzip(core), log);
            && GzipInv(core, g, LogMode(log))
            && Produced(log) == Written(core, g)
            && Consumed(log) == core.fed(g.core)
  {
    if log != [] {
      var before, r := log[..|log| - 1], Last(log);
      GzipAlongLog(core, before);
      var g := StateAfter(GzipStep(core), NewGzip(core), before);
      EveryCallIsGood(core, g, LogMode(before), r.operation, r.offered, r.capacity);
      assert GzipStep(core)(g, r.operation, r.offered, r.capacity)
          == GzipCall(core, g, r.operation, r.offered, r.capacity);
    }
  }

  /** A reader of the frame: checks the fixed header fields, inflates, and checks both trailer words
      (sections 2.2 and 2.3 of RFC 1952; the members this codec writes carry no optional field). */
  function Gunzip(inflate: seq<byte> -> Option<seq<byte>>, s: seq<byte>): Option<seq<byte>> {
    if |s| < 18 || s[0] != 0x1f || s[1] != 0x8b || s[2] != 8 || s[3] != 0 then None
    else
      match inflate(s[10..|s| - 8])
      case None => None
      case Some(data) =>
        if && C.FromLe32(s[|s| - 8..|s| - 4]) == C.Crc32(data)
           && C.FromLe32(s[|s| - 4..]) == |data| % C.WORD
        then Some(data) else None
  }

  lemma GunzipFrame(inflate: seq<byte> -> Option<seq<byte>>, body: seq<byte>, data: seq<byte>)
    requires inflate(body) == Some(data)
    ensures Gunzip(inflate, Frame(body, data)) == Some(data)
  {
    var sum, amount := C.Le32(C.Crc32(data)), C.Le32(|data| % C.WORD);
    var s := Frame(body, data);
    assert s == GZIP_HEADER + body + sum + amount;
    assert s[10..|s| - 8] == body;
    assert s[|s| - 8..|s| - 4] == sum;
    assert s[|s| - 4..] == amount;
    C.Le32RoundTrip(C.Crc32(data));
    C.Le32RoundTrip(|data| % C.WORD);
  }

  /** A log that ended is one whole frame. */
  lemma EndedLogIsFrame<D(!new)>(core: Deflater<D>, log: seq<StepRecord>)
    requires Zlib(core) && LegalLog(log) && Genuine(GzipStep(core), NewGzip(core), log)
    requires LogMode(log) == Ended
    ensures var body := core.emitted(StateAfter(GzipStep(core), NewGzip(core), log).core);
            && Produced(log) == Frame(body, Consumed(log))
            && core.inflate(body) == Some(Consumed(log))
            && Gunzip(core.inflate, Produced(log)) == Some(Consumed(log))
  {
    GzipAlongLog(core, log);
    var g := StateAfter(GzipStep(core), NewGzip(core), log);
    TrailerOfWhole(g.crc, core.fed(g.core));
    assert Cut(GZIP_HEADER, 0, |GZIP_HEADER|) == GZIP_HEADER;
    assert Cut(g.trailer, 0, 8) == g.trailer;
    var body, data := core.emitted(g.core), Consumed(log);
    assert Frame(body, data) == GZIP_HEADER + body + (C.Le32(C.Crc32(data)) + C.Le32(|data| % C.WORD));
    GunzipFrame(core.inflate, body, data);
  }

  lemma TrailerOfWhole(crc: C.Running, data: seq<byte>)
    requires C.Counts(crc, data)
    ensures ComputeTrailer(crc) == C.Le32(C.Crc32(data)) + C.Le32(|data| % C.WORD)
  {
  }

  lemma NothingAppended(a: seq<byte>, b: seq<byte>)
    ensures a + b == a <==> b == []
  {
    assert |a + b| == |a| + |b|;
  }

  /**
   * The gzip frame theorem. Over every run of the filter, with any cutting of the input into buffers, any
   * flushes, any buffer sizes, budget and buffer stops: once the response is done, what the filter put on the
   * wire is one gzip member, whose unframing and inflating gives back the arrived bytes up to the finish. The
   * wire is that member and then the bytes of late buffers: it is the member alone exactly when they have none.
   */
  lemma GzipOverTheWire<D(!new)>(core: Deflater<D>, limits: Limits, memory: nat, others: set<nat>, events: seq<Event>)
    requires Zlib(core)
    ensures var w := Run(GzipStep(core), limits, Start(NewGzip(core), memory, others), events);
            var past := w.ctx.past;
            !w.failed && w.ctx.done ==>
              && past.arrived == Admitted(GzipStep(core), limits, Start(NewGzip(core), memory, others), events)
              && 0 < |past.closed| <= |past.arrived|
              && var data := Bytes(past.arrived[..|past.closed|]);
              && var member := Frame(core.emitted(w.ctx.codec.core), data);
              && var late := Late(GzipStep(core), limits, Start(NewGzip(core), memory, others), events);
              && Wire(past.handed) == member
              && Wire(Received(past)) == member + Bytes(late)
              && (Wire(Received(past)) == member <==> Bytes(late) == [])
              && core.inflate(core.emitted(w.ctx.codec.core)) == Some(data)
              && Gunzip(core.inflate, Wire(past.handed)) == Some(data)
  {
    var step, start := GzipStep(core), NewGzip(core);
    var w := Run(step, limits, Start(start, memory, others), events);
    GzipIsHonest(core);
    HonestRuns(step, GzipInvariant(core), limits, start, memory, others, events);
    Conservation(step, limits, start, memory, others, events);
    MarksInOrder(step, limits, start, memory, others, events);
    if !w.failed && w.ctx.done {
      RunsLegally(step, GzipInvariant(core), limits, start, w);
      EndedLogIsFrame(core, Log(w.ctx));
      NothingAppended(Produced(Log(w.ctx)), Bytes(Late(step, limits, Start(start, memory, others), events)));
    }
  }

  /**
   * Total correctness, over a zlib that drains: once a finish has arrived, with buffers large enough for the
   * flushes there are and room in the pool again and again, re-entering the filter delivers, after finitely many
   * callbacks, one gzip member of the arrived bytes.
   */
  lemma GzipDelivers<D(!new)>(core: Deflater<D>, limits: Limits, memory: nat, others: set<nat>, events: seq<Event>,
                              downstream: nat -> Downstream) returns (n: nat)
    requires Zlib(core) && Drains(core)
    requires var w := Run(GzipStep(core), limits, Start(NewGzip(core), memory, others), events);
             && !w.failed && FinishArrived(w.ctx) && Supplied(limits, w.ctx)
             && Roomy(limits, core.least, w.ctx.past.arrived)
             && RoomAgainAndAgain(GzipStep(core), limits, w, downstream)
    ensures var w := Run(GzipStep(core), limits, Start(NewGzip(core), memory, others),
                         events + Reentries(downstream, n));
            var past := w.ctx.past;
            && !w.failed && w.ctx.done
            && 0 < |past.closed| <= |past.arrived|
            && Gunzip(core.inflate, Wire(past.handed)) == Some(Bytes(past.arrived[..|past.closed|]))
            && Wire(Received(past)) == Wire(past.handed)
                                     + Bytes(Late(GzipStep(core), limits, Start(NewGzip(core), memory, others), events))
  {
    GzipIsHonest(core);
    GzipDrains(core);
    n := RunsToTheEnd(GzipStep(core), GzipInvariant(core), OwedByGzip(core), core.least, limits, NewGzip(core), memory,
                      others, events, downstream);
    GzipOverTheWire(core, limits, memory, others, events + Reentries(downstream, n));
    ReentriesAreNotLate(GzipStep(core), limits, Start(NewGzip(core), memory, others), events, downstream, n);
  }
}
