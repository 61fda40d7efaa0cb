/**
 * Codecs that keep their side: they accept every step the driver may make, and answer a flush or
 * a finish only with "need output" or "complete".
 *
 * The progress contract alone admits a codec that answers NeedsInput to a flush once it has taken
 * the whole buffer; `DishonestCodecLosesTheFlush` shows what that costs.
 */
module Honesty {
  import opened Wrappers
  import opened Progress
  import opened Codec
  import opened OutputPool
  import opened Stream
  import opened Transcript
  import opened Filter
  import opened FilterInvariant
  import opened FilterRuns
  import opened FilterGate
  import opened FilterOutput

  /** Where a codec stands in the driver's protocol. At a boundary, `left` offered bytes are still to be taken. */
  datatype Mode = Ready | AtBoundary(operation: Operation, left: nat) | Ended

  /** Once a boundary has been shown, the driver shows it again, with what is left of its bytes. */
  predicate Legal(mode: Mode, operation: Operation, offered: nat) {
    match mode
    case Ready => true
    case AtBoundary(boundary, left) => operation == boundary && offered == left
    case Ended => false
  }

  function After(operation: Operation, offered: nat, consumed: nat, state: StepState): Mode
    requires consumed <= offered
  {
    if operation == Continue then Ready
    else if state != Complete then AtBoundary(operation, offered - consumed)
    else if operation == Finish then Ended
    else Ready
  }

  /** What an honest codec in `s` answers. */
  ghost predicate AnswersHonestly<S(!new)>(step: StepFn<S>, inv: (S, Mode) -> bool, s: S, operation: Operation,
                                           input: seq<byte>, capacity: nat) {
    var r := CheckedStep(step, s, operation, input, capacity);
    && r.Accepted?
    && (operation != Continue ==> r.state != NeedsInput)
    && inv(r.next, After(operation, |input|, r.consumed, r.state))
  }

  /** `inv` holds of `start` and is kept by every legal step, whatever the input and the capacity. */
  ghost predicate Honest<S(!new)>(step: StepFn<S>, inv: (S, Mode) -> bool, start: S) {
    && inv(start, Ready)
    && forall s, mode, operation, input, capacity
         {:trigger AnswersHonestly(step, inv, s, operation, input, capacity), Legal(mode, operation, |input|)} ::
         inv(s, mode) && Legal(mode, operation, |input|) ==> AnswersHonestly(step, inv, s, operation, input, capacity)
  }

  function ModeOf(steps: seq<StepRecord>, operation: Operation, left: nat): Mode {
    if Shown(steps, operation) then AtBoundary(operation, left) else Ready
  }

  /** The mode a drive leaves the codec in. */
  function ModeAfterDrive<S>(d: Drive<S>, operation: Operation, input: seq<byte>): Mode
    requires d.Stopped? && d.result.consumed <= |input|
  {
    match d.result
    case Outcome(_, Finished) => Ended
    case Outcome(_, BudgetExhausted) => ModeOf(d.machine.steps, operation, |input| - d.result.consumed)
    case Outcome(_, _) => Ready
    case DriveFailure(_, _) => ModeOf(d.machine.steps, operation, |input| - d.result.consumed)
  }

  /** An honest codec, driven, is never refused, stays honest, and completes every boundary it closes. */
  ghost predicate DrivesHonestly<S(!new)>(inv: (S, Mode) -> bool, operation: Operation, input: seq<byte>, d: Drive<S>) {
    && d.Stopped? && d.result.consumed <= |input|
    && (d.result.DriveFailure? ==> d.result.error.OutputFailed?)
    && inv(d.machine.codec, ModeAfterDrive(d, operation, input))
    && (d.result.Outcome? && operation != Continue ==> d.result.state != InputTaken)
  }

  lemma HonestRound<S(!new)>(step: StepFn<S>, inv: (S, Mode) -> bool, start: S, limits: Limits, m: Machine<S>,
                             operation: Operation, input: seq<byte>, offset: nat, budget: WorkBudget)
    requires Honest(step, inv, start)
    requires offset <= |input|
    requires inv(m.codec, ModeOf(m.steps, operation, |input| - offset))
    requires Covered(m.steps, operation, input[offset..], budget.inputBytes)
    ensures var d := Round(step, limits, m, operation, input, offset, budget);
            if d.Stopped? then DrivesHonestly(inv, operation, input, d)
            else
              && inv(d.machine.codec, ModeOf(d.machine.steps, operation, |input| - d.offset))
              && Covered(d.machine.steps, operation, input[d.offset..], d.budget.inputBytes)
  {
    if budget.CanStep(offset < |input|) {
      var end := offset + budget.InputLimit(|input| - offset);
      var shown := ShownOperation(operation, input, end);
      var mode := ModeOf(m.steps, operation, |input| - offset);
      assert Legal(mode, shown, |input[offset..end]|);
      assert AnswersHonestly(step, inv, m.codec, shown, input[offset..end], limits.bufferSize);
      hide Honest, ValidateProgress, Legal;
    }
  }

  lemma {:induction false} HonestDrive<S(!new)>(
      step: StepFn<S>, inv: (S, Mode) -> bool, start: S, limits: Limits, m: Machine<S>, operation: Operation,
      input: seq<byte>, offset: nat, budget: WorkBudget)
    requires Honest(step, inv, start)
    requires offset <= |input|
    requires inv(m.codec, ModeOf(m.steps, operation, |input| - offset))
    requires Covered(m.steps, operation, input[offset..], budget.inputBytes)
    ensures DrivesHonestly(inv, operation, input, DriveFrom(step, limits, m, operation, input, offset, budget))
    decreases budget.codecSteps
  {
    HonestRound(step, inv, start, limits, m, operation, input, offset, budget);
    var d := Round(step, limits, m, operation, input, offset, budget);
    if d.Running? {
      HonestDrive(step, inv, start, limits, d.machine, operation, input, d.offset, d.budget);
    }
  }

  // ----- over callbacks -----

  /** The mode the request leaves its codec in between callbacks. */
  function CtxMode<S>(c: Ctx<S>): Mode {
    if c.done then Ended
    else if c.pending.Some? then ModeOf(c.past.open, c.pending.value, 0)
    else if c.input != [] then ModeOf(c.past.open, c.input[0].operation, |c.input[0].bytes|)
    else Ready
  }

  /** Every flush and finish done with has completed. */
  ghost predicate AllCompleted(past: Past) {
    && |past.closed| <= |past.arrived|
    && forall k :: 0 <= k < |past.closed| && past.arrived[k].operation != Continue ==>
         Completes(past.closed[k], past.arrived[k].operation)
  }

  ghost predicate HonestCtx<S(!new)>(inv: (S, Mode) -> bool, c: Ctx<S>) {
    inv(c.codec, CtxMode(c)) && AllCompleted(c.past)
  }

  ghost predicate ServedHonestly<S(!new)>(inv: (S, Mode) -> bool, r: Served<S>) {
    match r
    case Proceed(c, _) => HonestCtx(inv, c)
    case Return(c, result) =>
      && (result.Failure? ==> result.error == OutputAllocation || result.error == InvalidFfiState)
      && (result.Success? ==> HonestCtx(inv, c))
  }

  lemma {:induction false} AppendInputHonest<S(!new)>(
      step: StepFn<S>, inv: (S, Mode) -> bool, limits: Limits, start: S, c: Ctx<S>, chain: seq<InBuf>)
    requires Inv(step, limits, start, c) && !c.done && HonestCtx(inv, c)
    ensures HonestCtx(inv, AppendInput(c, chain).0)
    ensures AppendInput(c, chain).1.Some? ==> AppendInput(c, chain).1.value == OutputAllocation
    decreases |chain|
  {
    if chain != [] {
      if Queued(c.input, chain[0].addr) {
        AppendInputHonest(step, inv, limits, start, c, chain[1..]);
      } else if c.pool.memory > 0 {
        var c' := Enqueue(c, chain[0]);
        EnqueueKeeps(step, limits, start, c, chain[0]);
        assert CtxMode(c') == CtxMode(c);
        AppendInputHonest(step, inv, limits, start, c', chain[1..]);
      }
    }
  }

  /** A closed buffer completed its boundary: so it stays true that all have. */
  lemma CloseCompleted(past: Past, operation: Operation)
    requires AllCompleted(past) && |past.closed| < |past.arrived|
    requires past.arrived[|past.closed|].operation == operation
    requires operation != Continue ==> Completes(past.open, operation)
    ensures AllCompleted(past.(closed := past.closed + [past.open], open := []))
  {
  }

  lemma ResumeHonest<S(!new)>(
      step: StepFn<S>, inv: (S, Mode) -> bool, limits: Limits, start: S, c: Ctx<S>, budget: WorkBudget)
    requires Honest(step, inv, start)
    requires Inv(step, limits, start, c) && !c.done && HonestCtx(inv, c)
    ensures ServedHonestly(inv, Resume(step, limits, c, budget))
  {
    if c.pending.Some? {
      var b := c.past.arrived[|c.past.closed|];
      var m := Machine(c.codec, c.pool, c.past.open);
      var none: seq<byte> := [];
      assert none[0..] == [];
      DriveKeeps(step, limits, start, Flatten(c.past.closed), c.past.handed, b.bytes, m, b.operation, [], 0, budget);
      HonestDrive(step, inv, start, limits, m, b.operation, [], 0, budget);
      hide Honest, Inv, Sound, Resume, DriveFrom;
      ResumedHonest(step, inv, limits, c, budget);
    }
  }

  lemma ResumedHonest<S(!new)>(step: StepFn<S>, inv: (S, Mode) -> bool, limits: Limits, c: Ctx<S>, budget: WorkBudget)
    requires !c.done && c.pending.Some? && AllCompleted(c.past)
    requires |c.past.closed| < |c.past.arrived|
    requires c.past.arrived[|c.past.closed|].operation == c.pending.value
    requires var d := DriveCtx(step, limits, c, c.pending.value, [], budget);
             && DrivesHonestly(inv, c.pending.value, [], d)
             && (d.result.Outcome? && d.result.state != BudgetExhausted && c.pending.value != Continue ==>
                   Completes(d.machine.steps, c.pending.value))
    ensures ServedHonestly(inv, Resume(step, limits, c, budget))
  {
    hide DriveFrom, Completes;
    var d := DriveCtx(step, limits, c, c.pending.value, [], budget);
    if d.result.Outcome? && d.result.state != BudgetExhausted {
      CloseCompleted(Absorb(c, d.machine).past, c.pending.value);
    }
  }

  lemma SettleHonest<S(!new)>(inv: (S, Mode) -> bool, c: Ctx<S>, d: Drive<S>)
    requires !c.done && c.pending == None && c.input != [] && AllCompleted(c.past)
    requires |c.past.closed| < |c.past.arrived|
    requires c.past.arrived[|c.past.closed|].operation == c.input[0].operation
    requires DrivesHonestly(inv, c.input[0].operation, c.input[0].bytes, d)
    requires d.result.Outcome? && d.result.state != BudgetExhausted ==>
               && d.result.consumed == |c.input[0].bytes|
               && (c.input[0].operation != Continue ==> Completes(d.machine.steps, c.input[0].operation))
    ensures ServedHonestly(inv, Settle(c, d))
  {
    var c' := Absorb(c, d.machine);
    if d.result.Outcome? && d.result.state != BudgetExhausted {
      CloseCompleted(c'.past, c.input[0].operation);
    } else {
      assert AllCompleted(c'.past);
    }
  }

  lemma ServeHeadHonest<S(!new)>(
      step: StepFn<S>, inv: (S, Mode) -> bool, limits: Limits, start: S, c: Ctx<S>, budget: WorkBudget)
    requires Honest(step, inv, start)
    requires Inv(step, limits, start, c) && !c.done && c.pending == None && c.input != [] && HonestCtx(inv, c)
    requires Covered(c.past.open, c.input[0].operation, c.input[0].bytes, budget.inputBytes)
    ensures ServedHonestly(inv, ServeHead(step, limits, c, budget))
  {
    var head, b := c.input[0], c.past.arrived[|c.past.closed|];
    var m := Machine(c.codec, c.pool, c.past.open);
    assert head.bytes[0..] == head.bytes;
    if head.sound {
      DriveKeeps(step, limits, start, Flatten(c.past.closed), c.past.handed, b.bytes, m, head.operation,
                 head.bytes, 0, budget);
      HonestDrive(step, inv, start, limits, m, head.operation, head.bytes, 0, budget);
      SettleHonest(inv, c, DriveCtx(step, limits, c, head.operation, head.bytes, budget));
    }
  }

  lemma {:induction false} ServeQueueHonest<S(!new)>(
      step: StepFn<S>, inv: (S, Mode) -> bool, limits: Limits, start: S, c: Ctx<S>, budget: WorkBudget)
    requires Honest(step, inv, start)
    requires Inv(step, limits, start, c) && !c.done && c.pending == None && HonestCtx(inv, c)
    requires budget.inputBytes <= PER_CALLBACK.inputBytes
    requires c.input != [] ==> Covered(c.past.open, c.input[0].operation, c.input[0].bytes, budget.inputBytes)
    ensures ServedHonestly(inv, ServeQueue(step, limits, c, budget))
    decreases |c.input|
  {
    if c.input != [] {
      ServeHeadHonest(step, inv, limits, start, c, budget);
      ServeHeadKeeps(step, limits, start, c, budget);
      var r := ServeHead(step, limits, c, budget);
      if r.Proceed? {
        ServeQueueHonest(step, inv, limits, start, r.ctx, r.budget);
      }
    }
  }

  lemma CompressHonest<S(!new)>(
      step: StepFn<S>, inv: (S, Mode) -> bool, limits: Limits, start: S, c: Ctx<S>, chain: seq<InBuf>)
    requires Honest(step, inv, start)
    requires Inv(step, limits, start, c) && !c.done && HonestCtx(inv, c)
    ensures ServedHonestly(inv, Compress(step, limits, c, chain))
  {
    AppendInputKeeps(step, limits, start, c, chain);
    AppendInputHonest(step, inv, limits, start, c, chain);
    var (c', failure) := AppendInput(c, chain);
    if failure == None {
      ResumeHonest(step, inv, limits, start, c', PER_CALLBACK);
      if c'.pending.Some? {
        ResumeKeeps(step, limits, start, c', PER_CALLBACK);
      }
      var r := Resume(step, limits, c', PER_CALLBACK);
      if r.Proceed? {
        ServeQueueHonest(step, inv, limits, start, r.ctx, r.budget);
      }
    }
  }

  ghost predicate HonestWorld<S(!new)>(step: StepFn<S>, inv: (S, Mode) -> bool, limits: Limits, start: S, w: World<S>) {
    WorldOk(step, limits, start, w) && (!w.failed ==> HonestCtx(inv, w.ctx))
  }

  lemma CallbackHonest<S(!new)>(
      step: StepFn<S>, inv: (S, Mode) -> bool, limits: Limits, start: S, w: World<S>, chain: seq<InBuf>,
      down: Downstream)
    requires Honest(step, inv, start)
    requires HonestWorld(step, inv, limits, start, w) && !w.failed
    ensures HonestWorld(step, inv, limits, start, Callback(step, limits, w, chain, down))
  {
    CallbackKeeps(step, limits, start, w, chain, down);
    hide Inv, Compress, UpdateChains, Honest;
    if !w.ctx.done {
      CompressHonest(step, inv, limits, start, w.ctx, chain);
    }
  }

  /** This call fails the request, for this reason. */
  ghost predicate FailsFor<S>(step: StepFn<S>, limits: Limits, w: World<S>, e: Event, error: CompressionFailure) {
    && !w.failed && !w.ctx.done && e.Call?
    && Compress(step, limits, w.ctx, e.chain).result == Failure(error)
  }

  /** Reasons that lie outside the codec: no memory, or an input buffer with its positions crossed. */
  predicate NotTheCodec(error: CompressionFailure) {
    error == OutputAllocation || error == InvalidFfiState
  }

  lemma FailingCall<S(!new)>(
      step: StepFn<S>, inv: (S, Mode) -> bool, limits: Limits, start: S, w: World<S>, e: Event)
    requires Honest(step, inv, start) && HonestWorld(step, inv, limits, start, w)
    requires !w.failed && Next(step, limits, w, e).failed
    ensures exists error :: FailsFor(step, limits, w, e, error) && NotTheCodec(error)
  {
    hide Inv, HonestCtx, Honest, Compress;
    CompressHonest(step, inv, limits, start, w.ctx, e.chain);
    var r := Compress(step, limits, w.ctx, e.chain);
    assert FailsFor(step, limits, w, e, r.result.error) && NotTheCodec(r.result.error);
  }

  /** A run that failed did so at one of its calls, and not for the codec's sake. */
  ghost predicate FailedOutside<S>(step: StepFn<S>, limits: Limits, start: World<S>, events: seq<Event>) {
    exists k, error :: 0 <= k < |events|
      && FailsFor(step, limits, Run(step, limits, start, events[..k]), events[k], error) && NotTheCodec(error)
  }

  /**
   * With an honest codec, whatever happens: every flush and finish done with was completed by the
   * codec, so downstream has its mark; and the codec itself never fails the request.
   */
  lemma {:induction false} HonestRuns<S(!new)>(
      step: StepFn<S>, inv: (S, Mode) -> bool, limits: Limits, codec: S, memory: nat, others: set<nat>,
      events: seq<Event>)
    requires Honest(step, inv, codec)
    ensures var start := Start(codec, memory, others);
            var w := Run(step, limits, start, events);
            && HonestWorld(step, inv, limits, codec, w)
            && (w.failed ==> FailedOutside(step, limits, start, events))
  {
    RunKeeps(step, limits, codec, memory, others, events);
    if events != [] {
      var start := Start(codec, memory, others);
      var earlier, e := events[..|events| - 1], events[|events| - 1];
      var before := Run(step, limits, start, earlier);
      HonestRuns(step, inv, limits, codec, memory, others, earlier);
      if !before.failed && e.Call? {
        CallbackHonest(step, inv, limits, codec, before, e.chain, e.down);
      }
      if Run(step, limits, start, events).failed {
        FailureHasReason(step, inv, limits, codec, start, events);
      }
    }
  }

  lemma FailureHasReason<S(!new)>(
      step: StepFn<S>, inv: (S, Mode) -> bool, limits: Limits, codec: S, start: World<S>, events: seq<Event>)
    requires Honest(step, inv, codec) && events != []
    requires var before := events[..|events| - 1];
             var w := Run(step, limits, start, before);
             && HonestWorld(step, inv, limits, codec, w)
             && (w.failed ==> FailedOutside(step, limits, start, before))
    requires Run(step, limits, start, events).failed
    ensures FailedOutside(step, limits, start, events)
  {
    var n := |events| - 1;
    var before := events[..n];
    var w := Run(step, limits, start, before);
    assert Run(step, limits, start, events) == Next(step, limits, w, events[n]);
    hide Run, Next, Honest, HonestWorld, NotTheCodec;
    if w.failed {
      hide FailsFor;
      var k, error :| 0 <= k < |before|
        && FailsFor(step, limits, Run(step, limits, start, before[..k]), before[k], error) && NotTheCodec(error);
      assert before[..k] == events[..k] && before[k] == events[k];
    } else {
      FailingCall(step, inv, limits, codec, w, events[n]);
      hide FailsFor;
    }
  }

  // ----- marks -----

  /** The mark a buffer's flags ask for: the end of the response, or else a flush, which the last buffer of a
      chain asks for as well. */
  function MarkAsked(b: InBuf): seq<Boundary> {
    if b.lastBuf then [FinishBoundary] else if b.flush || b.lastInChain then [FlushBoundary] else []
  }

  /** The marks the first n buffers ask for, in order. */
  function BoundariesAsked(arrived: seq<InBuf>, n: nat): seq<Boundary>
    requires n <= |arrived|
  {
    if n == 0 then [] else BoundariesAsked(arrived, n - 1) + MarkAsked(arrived[n - 1])
  }

  lemma {:induction false} CompletedMarks(past: Past, n: nat)
    requires AllCompleted(past) && n <= |past.closed|
    ensures MarksOfBuffers(past, n) == BoundariesAsked(past.arrived, n)
  {
    if n > 0 {
      CompletedMarks(past, n - 1);
    }
  }

  /**
   * With an honest codec the filter gives downstream, for each buffer done with, exactly the mark its flags ask
   * for, in the order the buffers arrived, and no other mark. Only the marks of late buffers come behind.
   */
  lemma {:induction false} HonestMarks<S(!new)>(
      step: StepFn<S>, inv: (S, Mode) -> bool, limits: Limits, codec: S, memory: nat, others: set<nat>,
      events: seq<Event>)
    requires Honest(step, inv, codec)
    ensures var w := Run(step, limits, Start(codec, memory, others), events);
            var past := w.ctx.past;
            var late := Late(step, limits, Start(codec, memory, others), events);
            !w.failed ==>
              && |past.closed| <= |past.arrived|
              && (forall k :: 0 <= k < |past.closed| ==> Completions(past.closed[k]) == MarkAsked(past.arrived[k]))
              && Marks(past.handed) == BoundariesAsked(past.arrived, |past.closed|)
              && Marks(Received(past)) == BoundariesAsked(past.arrived, |past.closed|) + Marks(RawPackets(late))
  {
    var w := Run(step, limits, Start(codec, memory, others), events);
    HonestRuns(step, inv, limits, codec, memory, others, events);
    MarksInOrder(step, limits, codec, memory, others, events);
    if !w.failed {
      var past := w.ctx.past;
      assert BuffersClosed(past, w.ctx.done) && AllCompleted(past);
      hide Run, HonestWorld;
      CompletedMarks(past, |past.closed|);
      forall k | 0 <= k < |past.closed| ensures Completions(past.closed[k]) == MarkAsked(past.arrived[k]) {
        hide Closed;
        ClosedMarks(past.closed[k], past.arrived[k].bytes, past.arrived[k].operation);
      }
    }
  }

  // ----- exactly when a mark is lost -----

  /** A buffer with a boundary leaves no mark if and only if the step that closed it answered NeedsInput. */
  lemma {:induction false} MarkLostIff(log: seq<StepRecord>, bytes: seq<byte>, operation: Operation)
    requires Closed(log, bytes, operation) && operation != Continue
    ensures log != []
    ensures MarkOfBuffer(log, operation) == [] <==> Last(log).state == NeedsInput
  {
    hide Presents, Consumed;
    assert Completes(log, operation) || Last(log).state == NeedsInput;
  }

  ghost predicate CompletedUpTo(past: Past, n: nat)
    requires n <= |past.closed| <= |past.arrived|
  {
    forall k :: 0 <= k < n && past.arrived[k].operation != Continue ==>
      Completes(past.closed[k], past.arrived[k].operation)
  }

  lemma {:induction false} MarksFallShort(past: Past, n: nat)
    requires n <= |past.closed| <= |past.arrived|
    ensures |MarksOfBuffers(past, n)| <= |BoundariesAsked(past.arrived, n)|
    ensures |MarksOfBuffers(past, n)| == |BoundariesAsked(past.arrived, n)| <==> CompletedUpTo(past, n)
  {
    if n > 0 {
      MarksFallShort(past, n - 1);
      var operation := past.arrived[n - 1].operation;
      assert operation == Continue ==> !Completes(past.closed[n - 1], operation);
      assert CompletedUpTo(past, n) <==>
               CompletedUpTo(past, n - 1) && (operation != Continue ==> Completes(past.closed[n - 1], operation));
      hide CompletedUpTo, Completes;
    }
  }

  /**
   * For any codec, over every run: downstream has every mark that was asked for if and only if every boundary
   * done with was completed; and a buffer that asks for a mark leaves it, or leaves none, and none if and only if
   * the step that closed the buffer answered NeedsInput.
   */
  lemma {:induction false} MarksLostIff<S>(
      step: StepFn<S>, limits: Limits, codec: S, memory: nat, others: set<nat>, events: seq<Event>)
    ensures var w := Run(step, limits, Start(codec, memory, others), events);
            var past := w.ctx.past;
            !w.failed ==>
              && |past.closed| <= |past.arrived|
              && (Marks(past.handed) == BoundariesAsked(past.arrived, |past.closed|) <==> AllCompleted(past))
              && forall k :: 0 <= k < |past.closed| && MarkAsked(past.arrived[k]) != [] ==>
                   && past.closed[k] != []
                   && Completions(past.closed[k])
                      == (if Last(past.closed[k]).state == NeedsInput then [] else MarkAsked(past.arrived[k]))
  {
    var w := Run(step, limits, Start(codec, memory, others), events);
    RunKeeps(step, limits, codec, memory, others, events);
    MarksInOrder(step, limits, codec, memory, others, events);
    if !w.failed {
      var past := w.ctx.past;
      var n := |past.closed|;
      assert BuffersClosed(past, w.ctx.done);
      hide Run, WorldOk, Inv, Standing, Completes, Marks;
      MarksFallShort(past, n);
      assert AllCompleted(past) <==> CompletedUpTo(past, n);
      if AllCompleted(past) {
        CompletedMarks(past, n);
      }
      hide CompletedUpTo, AllCompleted, BoundariesAsked, Completions, BuffersClosed;
      forall k | 0 <= k < n && MarkAsked(past.arrived[k]) != []
        ensures past.closed[k] != []
        ensures Completions(past.closed[k])
             == (if Last(past.closed[k]).state == NeedsInput then [] else MarkAsked(past.arrived[k]))
      {
        ClosedBufferMark(past, w.ctx.done, k);
      }
    }
  }

  lemma ClosedBufferMark(past: Past, done: bool, k: nat)
    requires BuffersClosed(past, done)
    requires k < |past.closed| && MarkAsked(past.arrived[k]) != []
    ensures past.closed[k] != []
    ensures Completions(past.closed[k])
         == (if Last(past.closed[k]).state == NeedsInput then [] else MarkAsked(past.arrived[k]))
  {
    hide Closed;
    ClosedMarks(past.closed[k], past.arrived[k].bytes, past.arrived[k].operation);
    MarkLostIff(past.closed[k], past.arrived[k].bytes, past.arrived[k].operation);
  }

  /** A codec that takes everything and always asks for more. It passes the progress contract. */
  function Greedy(): StepFn<()> {
    (s: (), operation: Operation, input: seq<byte>, capacity: nat) => Reply.Stepped((), |input|, [], NeedsInput)
  }

  /**
   * Without honesty the promise fails: this run's one flush buffer is done with, nothing is pending,
   * the request has not failed, and downstream has no mark. `MarksLostIff` says exactly when that happens.
   */
  lemma DishonestCodecLosesTheFlush(down: Downstream)
    ensures var flush := InBuf(1, [7], false, true, false, true);
            var w := Run(Greedy(), Limits(1, 1), Start((), 2, {}), [Call([flush], down)]);
            && !w.failed && !HasWork(w.ctx)
            && w.ctx.past.arrived == [flush] && |w.ctx.past.closed| == 1
            && Marks(w.ctx.past.handed) == []
  {
    var step := Greedy();
    var flush := InBuf(1, [7], false, true, false, true);
    var limits := Limits(1, 1);
    var w0 := Start((), 2, {});
    var c1 := Enqueue(w0.ctx, flush);
    assert AppendInput(w0.ctx, [flush]) == (c1, None) by {
      assert [flush][1..] == [];
    }
    var m1 := Machine((), c1.pool, []);
    var record := StepRecord(Flush, [7], 1, 1, [], NeedsInput);
    var m2 := Machine((), c1.pool.(free := 1, memory := 0, allocatedBuffers := 1), [record]);
    assert TryStep(step, limits, m1, Flush, [7]) == Attempt.Stepped(m2, record);
    var bytes: seq<byte> := [7];
    assert bytes[0..1] == [7];
    var d := Stopped(m2, WorkBudget(65535, 31), Outcome(1, InputTaken));
    assert Round(step, limits, m1, Flush, bytes, 0, PER_CALLBACK) == d;
    assert DriveCtx(step, limits, c1, Flush, bytes, PER_CALLBACK) == d;
    assert c1.input == [flush] && c1.input[1..] == [];
    var c2 := CloseBuffer(Absorb(c1, m2).(input := []));
    assert Settle(c1, d) == Proceed(c2, d.budget);
    assert ServeHead(step, limits, c1, PER_CALLBACK) == Proceed(c2, d.budget);
    assert ServeQueue(step, limits, c2, d.budget) == Return(c2, Success(false));
    assert ServeQueue(step, limits, c1, PER_CALLBACK) == Return(c2, Success(false));
    assert Compress(step, limits, w0.ctx, [flush]) == Return(c2, Success(false));
    var events := [Call([flush], down)];
    assert events[..0] == [];
    assert Run(step, limits, w0, []) == w0;
  }
}
