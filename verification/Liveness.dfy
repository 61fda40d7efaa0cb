/**
 * Every response ends. With an honest codec that drains what it owes, buffers large enough for it to
 * complete a flush in, and a free or allocatable buffer again and again, re-entering with no new input
 * reaches `done`.
 */
module Liveness {
  import opened Wrappers
  import opened Progress
  import opened Codec
  import opened OutputPool
  import opened Stream
  import opened Transcript
  import opened Filter
  import opened FilterInput
  import opened FilterInvariant
  import opened FilterRuns
  import opened FilterGate
  import opened Honesty

  /** The step ends the buffer, if the offered bytes were its last. */
  predicate Ends(operation: Operation, state: StepState) {
    state == NeedsInput || (operation != Continue && state == Complete)
  }

  /** What a codec still has to write without more input: a stage, then bytes within it. */
  datatype Owed = Owed(stage: nat, bytes: nat)

  predicate OwesLess(a: Owed, b: Owed) {
    a.stage < b.stage || (a.stage == b.stage && a.bytes < b.bytes)
  }

  /** A step that takes nothing, ends nothing and shows nothing new leaves less to be drained. */
  ghost predicate DrainsAt<S(!new)>(step: StepFn<S>, weight: S -> Owed, s: S, mode: Mode, operation: Operation,
                                    input: seq<byte>, capacity: nat) {
    var r := CheckedStep(step, s, operation, input, capacity);
    r.Accepted? && r.consumed == 0 && !Ends(operation, r.state) && After(operation, |input|, 0, r.state) == mode ==>
      OwesLess(weight(r.next), weight(s))
  }

  /** Room enough for a call: some, and for a flush at least `least` bytes. */
  predicate Ample(capacity: nat, least: nat, operation: Operation) {
    capacity > 0 && (operation == Flush ==> capacity >= least)
  }

  ghost predicate Draining<S(!new)>(step: StepFn<S>, inv: (S, Mode) -> bool, weight: S -> Owed, least: nat) {
    forall s, mode, operation, input, capacity {:trigger DrainsAt(step, weight, s, mode, operation, input, capacity)} ::
      inv(s, mode) && Legal(mode, operation, |input|) && Ample(capacity, least, operation) ==>
        DrainsAt(step, weight, s, mode, operation, input, capacity)
  }

  /** What is left to do: buffers to close, bytes to take, whether the current boundary has yet to be
      shown, and output the codec owes. Ordered lexicographically. */
  datatype Measure = Measure(buffers: nat, bytes: nat, unshown: nat, owed: Owed)

  predicate Less(a: Measure, b: Measure) {
    || a.buffers < b.buffers
    || (a.buffers == b.buffers && a.bytes < b.bytes)
    || (a.buffers == b.buffers && a.bytes == b.bytes && a.unshown < b.unshown)
    || (a.buffers == b.buffers && a.bytes == b.bytes && a.unshown == b.unshown && OwesLess(a.owed, b.owed))
  }

  function Unshown(steps: seq<StepRecord>, operation: Operation): nat {
    if Shown(steps, operation) then 0 else 1
  }

  function OperationUnderway<S>(c: Ctx<S>): Operation {
    if c.pending.Some? then c.pending.value else if c.input != [] then c.input[0].operation else Continue
  }

  function Jobs<S>(c: Ctx<S>): nat {
    |c.input| + if c.pending.Some? then 1 else 0
  }

  function MeasureOf<S>(weight: S -> Owed, c: Ctx<S>): Measure {
    Measure(Jobs(c), |Bytes(c.input)|, Unshown(c.past.open, OperationUnderway(c)), weight(c.codec))
  }

  /** The request pool can still provide every output buffer the limit allows. */
  predicate Provisioned(limits: Limits, p: Pool) {
    limits.bufferCount <= p.memory + p.allocatedBuffers
  }

  // ----- one drive -----

  /** The part of the measure that a drive of one buffer moves. */
  function DriveMeasure<S>(weight: S -> Owed, m: Machine<S>, operation: Operation, left: nat): Measure {
    Measure(0, left, Unshown(m.steps, operation), weight(m.codec))
  }

  lemma RoundDescends<S(!new)>(
      step: StepFn<S>, inv: (S, Mode) -> bool, weight: S -> Owed, least: nat, start: S, limits: Limits,
      m: Machine<S>,
      operation: Operation, input: seq<byte>, offset: nat, budget: WorkBudget)
    requires Honest(step, inv, start) && Draining(step, inv, weight, least)
    requires Ample(limits.bufferSize, least, operation)
    requires offset <= |input|
    requires inv(m.codec, ModeOf(m.steps, operation, |input| - offset))
    requires Covered(m.steps, operation, input[offset..], budget.inputBytes)
    requires Round(step, limits, m, operation, input, offset, budget).Running?
    ensures var d := Round(step, limits, m, operation, input, offset, budget);
            Less(DriveMeasure(weight, d.machine, operation, |input| - d.offset),
                 DriveMeasure(weight, m, operation, |input| - offset))
  {
    var end := offset + budget.InputLimit(|input| - offset);
    var shown := ShownOperation(operation, input, end);
    var mode := ModeOf(m.steps, operation, |input| - offset);
    assert Legal(mode, shown, |input[offset..end]|);
    assert AnswersHonestly(step, inv, m.codec, shown, input[offset..end], limits.bufferSize);
    assert DrainsAt(step, weight, m.codec, mode, shown, input[offset..end], limits.bufferSize);
  }

  /** A drive that finds a buffer to write into either closes its buffer or leaves less to do. */
  ghost predicate DriveAdvances<S>(weight: S -> Owed, m: Machine<S>, operation: Operation, input: seq<byte>,
                                   offset: nat, d: Drive<S>)
    requires offset <= |input|
  {
    && d.Stopped? && d.result.consumed <= |input|
    && ((d.result.Outcome? && d.result.state != BudgetExhausted)
        || Less(DriveMeasure(weight, d.machine, operation, |input| - d.result.consumed),
                DriveMeasure(weight, m, operation, |input| - offset)))
  }

  lemma LessTransitive(a: Measure, b: Measure, c: Measure)
    requires (a == b || Less(a, b)) && Less(b, c)
    ensures Less(a, c)
  {
  }

  lemma {:induction false} DriveDescends<S(!new)>(
      step: StepFn<S>, inv: (S, Mode) -> bool, weight: S -> Owed, least: nat, start: S, limits: Limits,
      m: Machine<S>,
      operation: Operation, input: seq<byte>, offset: nat, budget: WorkBudget)
    requires Honest(step, inv, start) && Draining(step, inv, weight, least)
    requires Ample(limits.bufferSize, least, operation)
    requires offset <= |input|
    requires inv(m.codec, ModeOf(m.steps, operation, |input| - offset))
    requires Covered(m.steps, operation, input[offset..], budget.inputBytes)
    ensures var d := DriveFrom(step, limits, m, operation, input, offset, budget);
            || DriveAdvances(weight, m, operation, input, offset, d)
            || (d.machine == m && d.result.consumed == offset)
    ensures budget.CanStep(offset < |input|) && HasRoom(limits, m.pool) && Provisioned(limits, m.pool) ==>
              DriveAdvances(weight, m, operation, input, offset,
                            DriveFrom(step, limits, m, operation, input, offset, budget))
    decreases budget.codecSteps
  {
    HonestRound(step, inv, start, limits, m, operation, input, offset, budget);
    var d := Round(step, limits, m, operation, input, offset, budget);
    if d.Running? {
      RoundDescends(step, inv, weight, least, start, limits, m, operation, input, offset, budget);
      DriveDescends(step, inv, weight, least, start, limits, d.machine, operation, input, d.offset, d.budget);
      hide Honest, Draining, Round, Covered;
      var e := DriveFrom(step, limits, d.machine, operation, input, d.offset, d.budget);
      if e.result.DriveFailure? || e.result.state == BudgetExhausted {
        LessTransitive(DriveMeasure(weight, e.machine, operation, |input| - e.result.consumed),
                       DriveMeasure(weight, d.machine, operation, |input| - d.offset),
                       DriveMeasure(weight, m, operation, |input| - offset));
      }
    }
  }

  // ----- one callback -----

  predicate AllSound(input: seq<InBuf>) {
    forall i :: 0 <= i < |input| ==> input[i].sound
  }

  /** Nothing outside the codec can fail the request. */
  predicate Supplied<S>(limits: Limits, c: Ctx<S>) {
    Provisioned(limits, c.pool) && AllSound(c.input)
  }

  /** Serving adds no work and keeps the request supplied. */
  ghost predicate Steadily<S>(limits: Limits, c: Ctx<S>, r: Served<S>) {
    && r.ctx.past.arrived == c.past.arrived
    && Jobs(r.ctx) <= Jobs(c)
    && Supplied(limits, r.ctx)
    && (r.Return? ==> r.result != Failure(OutputAllocation) && r.result != Failure(InvalidFfiState))
  }

  lemma {:induction false} DriveProvisioned<S>(
      step: StepFn<S>, limits: Limits, m: Machine<S>, operation: Operation, input: seq<byte>, offset: nat,
      budget: WorkBudget)
    requires offset <= |input| && Provisioned(limits, m.pool)
    ensures var d := DriveFrom(step, limits, m, operation, input, offset, budget);
            && Provisioned(limits, d.machine.pool)
            && (d.result.DriveFailure? ==> d.result.error != OutputFailed(Allocation))
    decreases budget.codecSteps
  {
    var d := Round(step, limits, m, operation, input, offset, budget);
    if d.Running? {
      DriveProvisioned(step, limits, d.machine, operation, input, d.offset, d.budget);
    }
  }

  lemma ResumeSteady<S>(step: StepFn<S>, limits: Limits, c: Ctx<S>, budget: WorkBudget)
    requires Supplied(limits, c)
    ensures Steadily(limits, c, Resume(step, limits, c, budget))
  {
    if c.pending.Some? {
      DriveProvisioned(step, limits, Machine(c.codec, c.pool, c.past.open), c.pending.value, [], 0, budget);
    }
  }

  lemma ServeHeadSteady<S>(step: StepFn<S>, limits: Limits, c: Ctx<S>, budget: WorkBudget)
    requires Supplied(limits, c) && c.input != [] && c.pending == None
    ensures Steadily(limits, c, ServeHead(step, limits, c, budget))
    ensures var r := ServeHead(step, limits, c, budget);
            r.Proceed? ==> r.ctx.pending == None && Jobs(r.ctx) < Jobs(c)
  {
    var m := Machine(c.codec, c.pool, c.past.open);
    var head := c.input[0];
    DriveProvisioned(step, limits, m, head.operation, head.bytes, 0, budget);
    DriveBudget(step, limits, m, head.operation, head.bytes, 0, budget);
  }

  lemma {:induction false} ServeQueueSteady<S>(step: StepFn<S>, limits: Limits, c: Ctx<S>, budget: WorkBudget)
    requires Supplied(limits, c) && c.pending == None
    ensures Steadily(limits, c, ServeQueue(step, limits, c, budget))
    decreases |c.input|
  {
    if c.input != [] {
      ServeHeadSteady(step, limits, c, budget);
      var r := ServeHead(step, limits, c, budget);
      if r.Proceed? {
        ServeQueueSteady(step, limits, r.ctx, r.budget);
      }
    }
  }

  /** The first job of a callback either ends or has less left of it afterwards. */
  lemma FirstJobDescends<S(!new)>(
      step: StepFn<S>, inv: (S, Mode) -> bool, weight: S -> Owed, least: nat, limits: Limits, start: S, c: Ctx<S>)
    requires Honest(step, inv, start) && Draining(step, inv, weight, least)
    requires Ample(limits.bufferSize, least, OperationUnderway(c))
    requires Inv(step, limits, start, c) && !c.done && HonestCtx(inv, c) && Supplied(limits, c)
    requires HasWork(c) && HasRoom(limits, c.pool)
    ensures var r := if c.pending.Some? then Resume(step, limits, c, PER_CALLBACK)
                     else ServeHead(step, limits, c, PER_CALLBACK);
            if r.Proceed? then Jobs(r.ctx) < Jobs(c)
            else r.result.Success? ==> r.ctx.done || Less(MeasureOf(weight, r.ctx), MeasureOf(weight, c))
  {
    if c.pending.Some? {
      ResumeDescends(step, inv, weight, least, limits, start, c);
    } else {
      ServeHeadDescends(step, inv, weight, least, limits, start, c);
    }
  }

  lemma ResumeDescends<S(!new)>(
      step: StepFn<S>, inv: (S, Mode) -> bool, weight: S -> Owed, least: nat, limits: Limits, start: S, c: Ctx<S>)
    requires Honest(step, inv, start) && Draining(step, inv, weight, least)
    requires Ample(limits.bufferSize, least, OperationUnderway(c))
    requires Inv(step, limits, start, c) && !c.done && HonestCtx(inv, c) && Supplied(limits, c)
    requires c.pending.Some? && HasRoom(limits, c.pool)
    ensures var r := Resume(step, limits, c, PER_CALLBACK);
            if r.Proceed? then Jobs(r.ctx) < Jobs(c)
            else r.result.Success? ==> r.ctx.done || Less(MeasureOf(weight, r.ctx), MeasureOf(weight, c))
  {
    var m := Machine(c.codec, c.pool, c.past.open);
    var none: seq<byte> := [];
    assert none[0..] == [];
    DriveDescends(step, inv, weight, least, start, limits, m, c.pending.value, [], 0, PER_CALLBACK);
    hide Honest, Draining, Inv, DriveFrom;
  }

  lemma ServeHeadDescends<S(!new)>(
      step: StepFn<S>, inv: (S, Mode) -> bool, weight: S -> Owed, least: nat, limits: Limits, start: S, c: Ctx<S>)
    requires Honest(step, inv, start) && Draining(step, inv, weight, least)
    requires Ample(limits.bufferSize, least, OperationUnderway(c))
    requires Inv(step, limits, start, c) && !c.done && HonestCtx(inv, c) && Supplied(limits, c)
    requires c.input != [] && c.pending == None && HasRoom(limits, c.pool)
    ensures var r := ServeHead(step, limits, c, PER_CALLBACK);
            if r.Proceed? then Jobs(r.ctx) < Jobs(c)
            else r.result.Success? ==> r.ctx.done || Less(MeasureOf(weight, r.ctx), MeasureOf(weight, c))
  {
    var m := Machine(c.codec, c.pool, c.past.open);
    var head := c.input[0];
    assert head.bytes[0..] == head.bytes;
    DriveDescends(step, inv, weight, least, start, limits, m, head.operation, head.bytes, 0, PER_CALLBACK);
    DriveBudget(step, limits, m, head.operation, head.bytes, 0, PER_CALLBACK);
    hide Honest, Draining, Inv, DriveFrom, HonestCtx;
    if head.sound {
      HeadMeasure(weight, c, DriveCtx(step, limits, c, head.operation, head.bytes, PER_CALLBACK));
      hide Settle, MeasureOf, Less, Jobs;
    }
  }

  /** A head left in the queue, or its operation left pending, keeps the descent of its drive. */
  lemma HeadMeasure<S>(weight: S -> Owed, c: Ctx<S>, d: Drive<S>)
    requires c.input != [] && c.pending == None
    requires DriveAdvances(weight, Machine(c.codec, c.pool, c.past.open), c.input[0].operation, c.input[0].bytes, 0, d)
    ensures var r := Settle(c, d);
            if r.Proceed? then Jobs(r.ctx) < Jobs(c)
            else r.result.Success? ==> r.ctx.done || Less(MeasureOf(weight, r.ctx), MeasureOf(weight, c))
  {
    var head := c.input[0];
    var left := ConsumeHead(c.input, d.result.consumed);
    HeadBytes(c.input);
    if d.result.consumed < |head.bytes| {
      HeadBytes(left);
      assert left[1..] == c.input[1..];
    }
  }

  /** Memory enough for the links of a chain of sound buffers, and then for every output buffer. */
  predicate SuppliedWith<S>(limits: Limits, c: Ctx<S>, chain: seq<InBuf>) {
    && |chain| <= c.pool.memory && limits.bufferCount + |chain| <= c.pool.memory + c.pool.allocatedBuffers
    && AllSound(c.input) && AllSound(chain)
  }

  lemma {:induction false} AppendSupplied<S>(limits: Limits, c: Ctx<S>, chain: seq<InBuf>)
    requires SuppliedWith(limits, c, chain)
    ensures AppendInput(c, chain).1 == None && Supplied(limits, AppendInput(c, chain).0)
    decreases |chain|
  {
    if chain != [] {
      if Queued(c.input, chain[0].addr) {
        AppendSupplied(limits, c, chain[1..]);
      } else {
        AppendSupplied(limits, Enqueue(c, chain[0]), chain[1..]);
      }
    }
  }

  /** Nothing fails a callback whose request is supplied. */
  lemma CompressSteady<S(!new)>(
      step: StepFn<S>, inv: (S, Mode) -> bool, limits: Limits, start: S, c: Ctx<S>, chain: seq<InBuf>)
    requires Honest(step, inv, start)
    requires Inv(step, limits, start, c) && !c.done && HonestCtx(inv, c) && SuppliedWith(limits, c, chain)
    ensures var r := Compress(step, limits, c, chain);
            r.result.Success? && Steadily(limits, AppendInput(c, chain).0, r)
  {
    CompressHonest(step, inv, limits, start, c, chain);
    AppendSupplied(limits, c, chain);
    var c' := AppendInput(c, chain).0;
    hide Inv, Honest, HonestCtx, Resume, AppendInput, ServeQueue;
    ResumeSteady(step, limits, c', PER_CALLBACK);
    var r := Resume(step, limits, c', PER_CALLBACK);
    if r.Proceed? {
      ResumeLeavesNothingPending(step, limits, c', PER_CALLBACK);
      ServeQueueSteady(step, limits, r.ctx, r.budget);
    }
  }

  lemma ResumeLeavesNothingPending<S>(step: StepFn<S>, limits: Limits, c: Ctx<S>, budget: WorkBudget)
    ensures Resume(step, limits, c, budget).Proceed? ==> Resume(step, limits, c, budget).ctx.pending == None
  {
  }

  /** Every callback with work pending and a buffer to be had strictly decreases the measure. */
  lemma CompressDescends<S(!new)>(
      step: StepFn<S>, inv: (S, Mode) -> bool, weight: S -> Owed, least: nat, limits: Limits, start: S, c: Ctx<S>)
    requires Honest(step, inv, start) && Draining(step, inv, weight, least)
    requires Ample(limits.bufferSize, least, OperationUnderway(c))
    requires Inv(step, limits, start, c) && !c.done && HonestCtx(inv, c) && Supplied(limits, c)
    requires HasWork(c) && HasRoom(limits, c.pool)
    ensures var r := Compress(step, limits, c, []);
            && r.result.Success?
            && (r.ctx.done || Less(MeasureOf(weight, r.ctx), MeasureOf(weight, c)))
  {
    FirstJobDescends(step, inv, weight, least, limits, start, c);
    CompressSteady(step, inv, limits, start, c, []);
    hide Inv, Honest, Draining, HonestCtx, Resume, ServeHead, Bytes;
    if c.pending.Some? {
      var r := Resume(step, limits, c, PER_CALLBACK);
      if r.Proceed? {
        ResumeSteady(step, limits, c, PER_CALLBACK);
        ResumeLeavesNothingPending(step, limits, c, PER_CALLBACK);
        ServeQueueSteady(step, limits, r.ctx, r.budget);
      }
    } else {
      ServeHeadSteady(step, limits, c, PER_CALLBACK);
      var r := ServeHead(step, limits, c, PER_CALLBACK);
      if r.Proceed? {
        ServeQueueSteady(step, limits, r.ctx, r.budget);
      }
    }
  }

  /** A callback that finds no buffer leaves everything to be done as it was. */
  lemma CompressWaits<S>(step: StepFn<S>, weight: S -> Owed, limits: Limits, c: Ctx<S>)
    requires !c.done && HasWork(c) && AllSound(c.input) && !HasRoom(limits, c.pool)
    ensures var r := Compress(step, limits, c, []);
            r.result == Success(true) && !r.ctx.done && MeasureOf(weight, r.ctx) == MeasureOf(weight, c)
  {
    var operation := OperationUnderway(c);
    var bytes := if c.pending.Some? then [] else c.input[0].bytes;
    NoBufferNoStep(step, limits, Machine(c.codec, c.pool, c.past.open), operation, bytes);
    hide DriveFrom, HasRoom;
    var d := DriveCtx(step, limits, c, operation, bytes, PER_CALLBACK);
    assert Absorb(c, d.machine) == c;
    if c.pending == None {
      WaitingHead(step, weight, limits, c);
    }
  }

  lemma NoBufferNoStep<S>(step: StepFn<S>, limits: Limits, m: Machine<S>, operation: Operation, bytes: seq<byte>)
    requires !HasRoom(limits, m.pool)
    ensures DriveFrom(step, limits, m, operation, bytes, 0, PER_CALLBACK)
         == Stopped(m, PER_CALLBACK, DriveFailure(0, OutputFailed(Exhausted)))
  {
  }

  lemma WaitingHead<S>(step: StepFn<S>, weight: S -> Owed, limits: Limits, c: Ctx<S>)
    requires !c.done && c.pending == None && c.input != [] && c.input[0].sound
    requires var d := DriveCtx(step, limits, c, c.input[0].operation, c.input[0].bytes, PER_CALLBACK);
             Absorb(c, d.machine) == c && d.result == DriveFailure(0, OutputFailed(Exhausted))
    ensures var r := ServeHead(step, limits, c, PER_CALLBACK);
            && r.Return? && r.result == Success(true) && !r.ctx.done
            && MeasureOf(weight, r.ctx) == MeasureOf(weight, c)
  {
    hide DriveCtx;
    var head := c.input[0];
    HeadBytes(c.input);
    if head.bytes != [] {
      assert head.bytes[0..] == head.bytes && [head] + c.input[1..] == c.input;
    }
  }

  // ----- whole runs -----

  /** The request after k further callbacks without new input. */
  function Reentered<S>(step: StepFn<S>, limits: Limits, w: World<S>, downstream: nat -> Downstream, k: nat): World<S> {
    if k == 0 then w
    else Next(step, limits, Reentered(step, limits, w, downstream, k - 1), Call([], downstream(k - 1)))
  }

  /** A finish has arrived. */
  ghost predicate FinishArrived<S>(c: Ctx<S>) {
    exists j :: 0 <= j < |c.past.arrived| && c.past.arrived[j].operation == Finish
  }

  /** An honest request that a finish has reached and that has not finished still has work. */
  lemma UnfinishedHasWork<S(!new)>(
      step: StepFn<S>, inv: (S, Mode) -> bool, limits: Limits, start: S, w: World<S>)
    requires HonestWorld(step, inv, limits, start, w) && !w.failed && !w.ctx.done && FinishArrived(w.ctx)
    ensures HasWork(w.ctx)
  {
    var past := w.ctx.past;
    var j :| 0 <= j < |past.arrived| && past.arrived[j].operation == Finish;
    assert j >= |past.closed|;
  }

  ghost predicate Alive<S(!new)>(step: StepFn<S>, inv: (S, Mode) -> bool, limits: Limits, start: S, w: World<S>) {
    && HonestWorld(step, inv, limits, start, w)
    && !w.failed
    && FinishArrived(w.ctx)
    && Supplied(limits, w.ctx)
  }

  /** A flush comes before any finish. */
  ghost predicate FlushFirst(arrived: seq<InBuf>) {
    exists j :: FlushAt(arrived, j)
  }

  ghost predicate FlushAt(arrived: seq<InBuf>, j: int) {
    && 0 <= j < |arrived| && arrived[j].operation == Flush
    && forall i :: 0 <= i < j ==> arrived[i].operation != Finish
  }

  /** The buffers are large enough for the flushes there are. */
  ghost predicate Roomy(limits: Limits, least: nat, arrived: seq<InBuf>) {
    limits.bufferSize > 0 && (limits.bufferSize >= least || !FlushFirst(arrived))
  }

  lemma UnderwayIsAmple<S(!new)>(
      step: StepFn<S>, inv: (S, Mode) -> bool, least: nat, limits: Limits, start: S, w: World<S>)
    requires HonestWorld(step, inv, limits, start, w) && !w.failed && !w.ctx.done && HasWork(w.ctx)
    requires Roomy(limits, least, w.ctx.past.arrived)
    ensures Ample(limits.bufferSize, least, OperationUnderway(w.ctx))
  {
    var past := w.ctx.past;
    var n := |past.closed|;
    assert OperationUnderway(w.ctx) == past.arrived[n].operation;
    if past.arrived[n].operation == Flush {
      assert FlushAt(past.arrived, n);
    }
  }

  /** With or without a buffer to be had, a supplied request stays alive. */
  lemma AliveStays<S(!new)>(
      step: StepFn<S>, inv: (S, Mode) -> bool, limits: Limits, start: S, w: World<S>, down: Downstream)
    requires Honest(step, inv, start)
    requires Alive(step, inv, limits, start, w) && !w.ctx.done
    ensures var w' := Next(step, limits, w, Call([], down));
            && Alive(step, inv, limits, start, w')
            && w' == Callback(step, limits, w, [], down)
            && w'.ctx.past.arrived == w.ctx.past.arrived
  {
    CompressSteady(step, inv, limits, start, w.ctx, []);
    CallbackHonest(step, inv, limits, start, w, [], down);
    HandingOverIsNoWork(step, (s: S) => Owed(0, 0), limits, w, down);
    hide HonestWorld, Honest, Compress, Callback, MeasureOf, Supplied;
    assert Next(step, limits, w, Call([], down)) == Callback(step, limits, w, [], down);
  }

  /** With a buffer to be had, the measure falls; without one, it stays. */
  lemma ReentryAdvances<S(!new)>(
      step: StepFn<S>, inv: (S, Mode) -> bool, weight: S -> Owed, least: nat, limits: Limits, start: S, w: World<S>,
      down: Downstream)
    requires Honest(step, inv, start) && Draining(step, inv, weight, least)
    requires Alive(step, inv, limits, start, w) && !w.ctx.done && Roomy(limits, least, w.ctx.past.arrived)
    ensures var w' := Next(step, limits, w, Call([], down));
            && Alive(step, inv, limits, start, w')
            && w'.ctx.past.arrived == w.ctx.past.arrived
            && (HasRoom(limits, w.ctx.pool) ==>
                  w'.ctx.done || Less(MeasureOf(weight, w'.ctx), MeasureOf(weight, w.ctx)))
            && (!HasRoom(limits, w.ctx.pool) ==>
                  !w'.ctx.done && MeasureOf(weight, w'.ctx) == MeasureOf(weight, w.ctx))
  {
    AliveStays(step, inv, limits, start, w, down);
    UnfinishedHasWork(step, inv, limits, start, w);
    UnderwayIsAmple(step, inv, least, limits, start, w);
    if HasRoom(limits, w.ctx.pool) {
      CompressDescends(step, inv, weight, least, limits, start, w.ctx);
    } else {
      CompressWaits(step, weight, limits, w.ctx);
    }
    HandingOverIsNoWork(step, weight, limits, w, down);
    hide Alive, Honest, Draining, Compress, Next, MeasureOf, Less, HasRoom;
  }

  /** What a callback does after compress leaves the work to be done as it was. */
  lemma HandingOverIsNoWork<S>(step: StepFn<S>, weight: S -> Owed, limits: Limits, w: World<S>, down: Downstream)
    requires !w.failed && !w.ctx.done && Compress(step, limits, w.ctx, []).result.Success?
    ensures var r := Compress(step, limits, w.ctx, []);
            var w' := Next(step, limits, w, Call([], down));
            && w' == Callback(step, limits, w, [], down) && !w'.failed
            && w'.ctx.done == r.ctx.done
            && w'.ctx.past.arrived == r.ctx.past.arrived
            && MeasureOf(weight, w'.ctx) == MeasureOf(weight, r.ctx)
            && (Supplied(limits, r.ctx) ==> Supplied(limits, w'.ctx))
  {
    hide Compress, Bytes, Send, Spent, Shown;
  }

  /** There is a buffer to be had at re-entry j, or nothing left to do. */
  predicate RoomAt<S>(step: StepFn<S>, limits: Limits, w: World<S>, downstream: nat -> Downstream, j: nat) {
    var wj := Reentered(step, limits, w, downstream, j);
    wj.ctx.done || HasRoom(limits, wj.ctx.pool)
  }

  /** However long one waits, there will be one again. */
  ghost predicate RoomAgainAndAgain<S>(step: StepFn<S>, limits: Limits, w: World<S>, downstream: nat -> Downstream) {
    forall i: nat :: RoomFrom(step, limits, w, downstream, i)
  }

  ghost predicate RoomFrom<S>(step: StepFn<S>, limits: Limits, w: World<S>, downstream: nat -> Downstream, i: nat) {
    exists j: nat :: i <= j && RoomAt(step, limits, w, downstream, j)
  }

  /**
   * Whole-run termination. Take any reachable request with an honest, draining codec that a finish has
   * reached; re-enter it with no new input, downstream behaving in any way, so long as again and again a buffer
   * is free or can be allocated. After finitely many callbacks the response is done, and none of them fails.
   */
  lemma {:induction false} EventuallyDone<S(!new)>(
      step: StepFn<S>, inv: (S, Mode) -> bool, weight: S -> Owed, least: nat, limits: Limits, start: S, w: World<S>,
      downstream: nat -> Downstream, k: nat, j: nat) returns (n: nat)
    requires Honest(step, inv, start) && Draining(step, inv, weight, least)
    requires Alive(step, inv, limits, start, Reentered(step, limits, w, downstream, k))
    requires Roomy(limits, least, Reentered(step, limits, w, downstream, k).ctx.past.arrived)
    requires RoomAgainAndAgain(step, limits, w, downstream)
    requires k <= j && RoomAt(step, limits, w, downstream, j)
    ensures k <= n
    ensures var wn := Reentered(step, limits, w, downstream, n);
            wn.ctx.done && !wn.failed && HonestWorld(step, inv, limits, start, wn)
    decreases MeasureOf(weight, Reentered(step, limits, w, downstream, k).ctx).buffers,
              MeasureOf(weight, Reentered(step, limits, w, downstream, k).ctx).bytes,
              MeasureOf(weight, Reentered(step, limits, w, downstream, k).ctx).unshown,
              MeasureOf(weight, Reentered(step, limits, w, downstream, k).ctx).owed.stage,
              MeasureOf(weight, Reentered(step, limits, w, downstream, k).ctx).owed.bytes,
              j - k
  {
    hide Honest, Draining, Alive, Roomy, MeasureOf, Next, HonestWorld, HasRoom, Less;
    var wk := Reentered(step, limits, w, downstream, k);
    AliveIsHonest(step, inv, limits, start, wk);
    n := k;
    if !wk.ctx.done {
      ReentryAdvances(step, inv, weight, least, limits, start, wk, downstream(k));
      var next := Reentered(step, limits, w, downstream, k + 1);
      assert next == Next(step, limits, wk, Call([], downstream(k)));
      hide Reentered;
      AliveIsHonest(step, inv, limits, start, next);
      n := k + 1;
      if !next.ctx.done {
        var j' := NextRoom(step, limits, w, downstream, k, j);
        LessDescends(MeasureOf(weight, next.ctx), MeasureOf(weight, wk.ctx));
        n := EventuallyDone(step, inv, weight, least, limits, start, w, downstream, k + 1, j');
      }
    }
  }

  /** The room to wait for after re-entry k: another, if k had some, else the same. */
  lemma NextRoom<S>(step: StepFn<S>, limits: Limits, w: World<S>, downstream: nat -> Downstream, k: nat, j: nat)
    returns (j': nat)
    requires RoomAgainAndAgain(step, limits, w, downstream)
    requires k <= j && RoomAt(step, limits, w, downstream, j)
    requires !Reentered(step, limits, w, downstream, k).ctx.done
    ensures k < j' && RoomAt(step, limits, w, downstream, j')
    ensures !HasRoom(limits, Reentered(step, limits, w, downstream, k).ctx.pool) ==> j' == j
  {
    hide Reentered, HasRoom;
    j' := j;
    if HasRoom(limits, Reentered(step, limits, w, downstream, k).ctx.pool) {
      assert RoomFrom(step, limits, w, downstream, k + 1);
      j' :| k + 1 <= j' && RoomAt(step, limits, w, downstream, j');
    }
  }

  lemma LessDescends(a: Measure, b: Measure)
    ensures Less(a, b) ==>
              || a.buffers < b.buffers
              || (a.buffers == b.buffers && a.bytes < b.bytes)
              || (a.buffers == b.buffers && a.bytes == b.bytes && a.unshown < b.unshown)
              || (a.buffers == b.buffers && a.bytes == b.bytes && a.unshown == b.unshown
                  && a.owed.stage < b.owed.stage)
              || (a.buffers == b.buffers && a.bytes == b.bytes && a.unshown == b.unshown
                  && a.owed.stage == b.owed.stage && a.owed.bytes < b.owed.bytes)
  {
  }

  lemma AliveIsHonest<S(!new)>(step: StepFn<S>, inv: (S, Mode) -> bool, limits: Limits, start: S, w: World<S>)
    requires Alive(step, inv, limits, start, w)
    ensures HonestWorld(step, inv, limits, start, w) && !w.failed
  {
  }

  /** Room again and again is no idle hope: a downstream that sends what it is given leaves some. */
  lemma PromptDownstreamMakesRoom<S>(
      step: StepFn<S>, limits: Limits, start: S, w: World<S>, chain: seq<InBuf>, down: Downstream)
    requires WorldOk(step, limits, start, w) && !w.failed && !w.ctx.done && limits.bufferCount > 0
    requires forall i: nat :: down.left(i) == 0
    ensures var w' := Callback(step, limits, w, chain, down);
            !w'.failed ==> HasRoom(limits, w'.ctx.pool) && w'.ctx.pool.busy == []
  {
    CallbackKeeps(step, limits, start, w, chain, down);
  }

  /** Re-entries are a run. */
  function Reentries(downstream: nat -> Downstream, k: nat): seq<Event> {
    seq(k, i requires 0 <= i < k => Call([], downstream(i)))
  }

  lemma {:induction false} ReenteredIsRun<S>(
      step: StepFn<S>, limits: Limits, w: World<S>, events: seq<Event>, downstream: nat -> Downstream, k: nat)
    ensures Reentered(step, limits, Run(step, limits, w, events), downstream, k)
         == Run(step, limits, w, events + Reentries(downstream, k))
  {
    hide Next;
    if k == 0 {
      assert events + Reentries(downstream, 0) == events;
    } else {
      ReenteredIsRun(step, limits, w, events, downstream, k - 1);
      var all := events + Reentries(downstream, k);
      assert all[..|all| - 1] == events + Reentries(downstream, k - 1);
      assert all[|all| - 1] == Call([], downstream(k - 1));
    }
  }

  /** A re-entry brings no chain, so nothing arrives. */
  lemma {:induction false} ReentriesAdmitNothing<S>(
      step: StepFn<S>, limits: Limits, w: World<S>, events: seq<Event>, downstream: nat -> Downstream, k: nat)
    ensures Admitted(step, limits, w, events + Reentries(downstream, k)) == Admitted(step, limits, w, events)
  {
    hide Run, Newcomers;
    if k == 0 {
      assert events + Reentries(downstream, 0) == events;
    } else {
      ReentriesAdmitNothing(step, limits, w, events, downstream, k - 1);
      var all := events + Reentries(downstream, k);
      assert all[..|all| - 1] == events + Reentries(downstream, k - 1);
      assert all[|all| - 1] == Call([], downstream(k - 1));
      NoNewcomers(Run(step, limits, w, all[..|all| - 1]).ctx.input);
      hide Reentries;
    }
  }

  /** A request whose first call brings distinct sound buffers, with memory enough, is under way and supplied. */
  lemma FirstCall<S(!new)>(
      step: StepFn<S>, inv: (S, Mode) -> bool, limits: Limits, codec: S, memory: nat, others: set<nat>,
      chain: seq<InBuf>, down: Downstream)
    requires Honest(step, inv, codec)
    requires AllSound(chain) && forall i, j :: 0 <= i < j < |chain| ==> chain[i].addr != chain[j].addr
    requires limits.bufferCount + |chain| <= memory
    ensures var w := Run(step, limits, Start(codec, memory, others), [Call(chain, down)]);
            !w.failed && w.ctx.past.arrived == chain && Supplied(limits, w.ctx)
  {
    var w0 := Start(codec, memory, others);
    var events := [Call(chain, down)];
    assert events[..0] == [];
    assert Run(step, limits, w0, []) == w0;
    HonestRuns(step, inv, limits, codec, memory, others, []);
    assert Run(step, limits, w0, events) == Next(step, limits, w0, events[0]);
    hide Run;
    CompressSteady(step, inv, limits, codec, w0.ctx, chain);
    assert !Next(step, limits, w0, events[0]).failed;
    NextAdmits(step, limits, w0, events[0]);
    WholeChain([], chain);
    assert [] + chain == chain;
    HandingOverSupplied(step, limits, w0, chain, down);
  }

  lemma HandingOverSupplied<S>(step: StepFn<S>, limits: Limits, w: World<S>, chain: seq<InBuf>, down: Downstream)
    requires !w.failed && !w.ctx.done
    requires var r := Compress(step, limits, w.ctx, chain); r.result.Success? && Supplied(limits, r.ctx)
    ensures Supplied(limits, Next(step, limits, w, Call(chain, down)).ctx)
  {
    hide Compress, Send, Spent;
  }

  /** A re-entry brings no chain, so none is late. */
  lemma {:induction false} ReentriesAreNotLate<S>(
      step: StepFn<S>, limits: Limits, w: World<S>, events: seq<Event>, downstream: nat -> Downstream, k: nat)
    ensures Late(step, limits, w, events + Reentries(downstream, k)) == Late(step, limits, w, events)
  {
    hide Run;
    if k == 0 {
      assert events + Reentries(downstream, 0) == events;
    } else {
      ReentriesAreNotLate(step, limits, w, events, downstream, k - 1);
      var all := events + Reentries(downstream, k);
      assert all[..|all| - 1] == events + Reentries(downstream, k - 1);
      assert all[|all| - 1] == Call([], downstream(k - 1));
    }
  }

  /** Total correctness of a run from its start: it reaches `done`, as the run of some longer list of events. */
  lemma RunsToTheEnd<S(!new)>(
      step: StepFn<S>, inv: (S, Mode) -> bool, weight: S -> Owed, least: nat, limits: Limits, codec: S, memory: nat,
      others: set<nat>, events: seq<Event>, downstream: nat -> Downstream) returns (n: nat)
    requires Honest(step, inv, codec) && Draining(step, inv, weight, least)
    requires var w := Run(step, limits, Start(codec, memory, others), events);
             && !w.failed && FinishArrived(w.ctx) && Supplied(limits, w.ctx)
             && Roomy(limits, least, w.ctx.past.arrived)
             && RoomAgainAndAgain(step, limits, w, downstream)
    ensures var w := Run(step, limits, Start(codec, memory, others), events + Reentries(downstream, n));
            !w.failed && w.ctx.done
  {
    var w := Run(step, limits, Start(codec, memory, others), events);
    HonestRuns(step, inv, limits, codec, memory, others, events);
    assert Alive(step, inv, limits, codec, w);
    hide Run, Honest, Draining, Roomy, HonestWorld, Alive, RoomAt;
    assert RoomFrom(step, limits, w, downstream, 0);
    var j: nat :| 0 <= j && RoomAt(step, limits, w, downstream, j);
    n := EventuallyDone(step, inv, weight, least, limits, codec, w, downstream, 0, j);
    ReenteredIsRun(step, limits, Start(codec, memory, others), events, downstream, n);
  }

  /** Downstream sends all it is given, at every re-entry. */
  ghost predicate Prompt(downstream: nat -> Downstream) {
    forall i: nat, j: nat :: downstream(i).left(j) == 0
  }

  /** With a prompt downstream a supplied request never fails, and from its first re-entry on there is room. */
  lemma {:induction false} PromptRoom<S(!new)>(
      step: StepFn<S>, inv: (S, Mode) -> bool, limits: Limits, start: S, w: World<S>, downstream: nat -> Downstream,
      i: nat)
    requires Honest(step, inv, start) && limits.bufferCount > 0
    requires Alive(step, inv, limits, start, w) && Prompt(downstream)
    ensures var wi := Reentered(step, limits, w, downstream, i);
            && !wi.failed
            && (wi.ctx.done ||
                (&& Alive(step, inv, limits, start, wi) && wi.ctx.past.arrived == w.ctx.past.arrived
                 && (i > 0 ==> HasRoom(limits, wi.ctx.pool))))
  {
    hide Honest, Alive, HasRoom, Next;
    if i == 0 {
      AliveIsHonest(step, inv, limits, start, w);
    } else {
      PromptRoom(step, inv, limits, start, w, downstream, i - 1);
      var before := Reentered(step, limits, w, downstream, i - 1);
      assert Reentered(step, limits, w, downstream, i) == Next(step, limits, before, Call([], downstream(i - 1)));
      hide Reentered;
      if before.ctx.done {
        NextPasses(step, limits, before, Call([], downstream(i - 1)));
      } else {
        PromptStep(step, inv, limits, start, before, downstream(i - 1));
      }
    }
  }

  lemma PromptStep<S(!new)>(
      step: StepFn<S>, inv: (S, Mode) -> bool, limits: Limits, start: S, w: World<S>, down: Downstream)
    requires Honest(step, inv, start) && limits.bufferCount > 0
    requires Alive(step, inv, limits, start, w) && !w.ctx.done
    requires forall j: nat :: down.left(j) == 0
    ensures var w' := Next(step, limits, w, Call([], down));
            && !w'.failed && Alive(step, inv, limits, start, w')
            && w'.ctx.past.arrived == w.ctx.past.arrived && HasRoom(limits, w'.ctx.pool)
  {
    AliveStays(step, inv, limits, start, w, down);
    hide Honest, Supplied, HasRoom, Next, Callback;
    PromptDownstreamMakesRoom(step, limits, start, w, [], down);
  }

  /** With a prompt downstream nothing more is needed: the run ends. */
  lemma PromptRunsToTheEnd<S(!new)>(
      step: StepFn<S>, inv: (S, Mode) -> bool, weight: S -> Owed, least: nat, limits: Limits, codec: S, memory: nat,
      others: set<nat>, events: seq<Event>, downstream: nat -> Downstream) returns (n: nat)
    requires Honest(step, inv, codec) && Draining(step, inv, weight, least) && limits.bufferCount > 0
    requires var w := Run(step, limits, Start(codec, memory, others), events);
             && !w.failed && FinishArrived(w.ctx) && Supplied(limits, w.ctx)
             && Roomy(limits, least, w.ctx.past.arrived)
    requires Prompt(downstream)
    ensures RoomAgainAndAgain(step, limits, Run(step, limits, Start(codec, memory, others), events), downstream)
    ensures var w := Run(step, limits, Start(codec, memory, others), events + Reentries(downstream, n));
            !w.failed && w.ctx.done
  {
    var w := Run(step, limits, Start(codec, memory, others), events);
    HonestRuns(step, inv, limits, codec, memory, others, events);
    assert Alive(step, inv, limits, codec, w);
    hide Run, Honest, Draining, Roomy, HonestWorld, Alive, HasRoom, Prompt;
    forall i: nat ensures RoomFrom(step, limits, w, downstream, i) {
      PromptRoom(step, inv, limits, codec, w, downstream, i + 1);
      assert RoomAt(step, limits, w, downstream, i + 1);
    }
    hide RoomFrom, RoomAt;
    n := RunsToTheEnd(step, inv, weight, least, limits, codec, memory, others, events, downstream);
  }
}
