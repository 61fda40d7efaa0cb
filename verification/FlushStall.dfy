/**
 * Codecs that complete no flush in small buffers. The progress contract is kept and the codec is honest, and yet a
 * response with a flush in it never ends.
 */
module FlushStall {
  import opened Wrappers
  import opened Progress
  import opened Codec
  import opened OutputPool
  import opened Transcript
  import opened Filter
  import opened FilterInput
  import opened FilterInvariant
  import opened FilterRuns
  import opened Honesty
  import opened Protocol
  import opened Liveness

  /** In buffers of this size the codec completes no flush. */
  ghost predicate CompletesNoFlush<S(!new)>(step: StepFn<S>, inv: (S, Mode) -> bool, size: nat) {
    forall s, mode, input {:trigger inv(s, mode), CheckedStep(step, s, Flush, input, size)} ::
      inv(s, mode) && Legal(mode, Flush, |input|) ==>
        var r := CheckedStep(step, s, Flush, input, size);
        r.Accepted? ==> r.state != Complete
  }

  /** Every step of an honest log was a legal one, in a state the codec's invariant holds of. */
  lemma {:induction false} LegalStep<S(!new)>(
      step: StepFn<S>, inv: (S, Mode) -> bool, start: S, log: seq<StepRecord>, i: nat) returns (s: S, mode: Mode)
    requires Honest(step, inv, start) && Genuine(step, start, log) && LegalLog(log) && i < |log|
    ensures inv(s, mode) && Legal(mode, log[i].operation, |log[i].offered|)
    ensures var c := CheckedStep(step, s, log[i].operation, log[i].offered, log[i].capacity);
            c.Accepted? && c.state == log[i].state
  {
    var before := log[..|log| - 1];
    if i < |before| {
      assert before[i] == log[i];
      s, mode := LegalStep(step, inv, start, before, i);
    } else {
      HonestAlongLog(step, inv, start, before);
      s, mode := StateAfter(step, start, before), LogMode(before);
    }
  }

  lemma {:induction false} ClosingStepIsLogged(parts: seq<seq<StepRecord>>, k: nat) returns (i: nat)
    requires k < |parts| && parts[k] != []
    ensures i < |Flatten(parts)| && Flatten(parts)[i] == Last(parts[k])
  {
    var before, last := parts[..|parts| - 1], parts[|parts| - 1];
    if k < |before| {
      assert before[k] == parts[k];
      i := ClosingStepIsLogged(before, k);
    } else {
      i := |Flatten(before)| + |last| - 1;
    }
  }

  lemma NoFlushCompleted<S(!new)>(
      step: StepFn<S>, inv: (S, Mode) -> bool, limits: Limits, start: S, w: World<S>, k: nat)
    requires Honest(step, inv, start) && CompletesNoFlush(step, inv, limits.bufferSize)
    requires HonestWorld(step, inv, limits, start, w) && !w.failed
    requires k < |w.ctx.past.closed|
    ensures !Completes(w.ctx.past.closed[k], Flush)
  {
    var closed := w.ctx.past.closed;
    RunsLegally(step, inv, limits, start, w);
    EveryBufferWhole(step, limits, start, w.ctx);
    hide Honest, HonestWorld, Genuine, LegalLog;
    if closed[k] != [] {
      var i := ClosingStepIsLogged(closed, k);
      assert Log(w.ctx)[i] == Last(closed[k]);
      var s, mode := LegalStep(step, inv, start, Log(w.ctx), i);
    }
  }

  lemma EveryBufferWhole<S>(step: StepFn<S>, limits: Limits, start: S, c: Ctx<S>)
    requires Inv(step, limits, start, c)
    ensures FullBuffers(limits, Log(c))
  {
  }

  /** Over every run such a codec, though honest, is done with no buffer that carries a flush; so a response
      with a flush before its finish is not done, whatever calls and re-entries there were. */
  lemma {:induction false} FlushNeverCloses<S(!new)>(
      step: StepFn<S>, inv: (S, Mode) -> bool, limits: Limits, codec: S, memory: nat, others: set<nat>,
      events: seq<Event>)
    requires Honest(step, inv, codec) && CompletesNoFlush(step, inv, limits.bufferSize)
    ensures var w := Run(step, limits, Start(codec, memory, others), events);
            var past := w.ctx.past;
            !w.failed ==>
              && |past.closed| <= |past.arrived|
              && (forall k :: 0 <= k < |past.closed| ==> past.arrived[k].operation != Flush)
              && (FlushFirst(past.arrived) ==> !w.ctx.done)
  {
    var w := Run(step, limits, Start(codec, memory, others), events);
    HonestRuns(step, inv, limits, codec, memory, others, events);
    if !w.failed {
      var past := w.ctx.past;
      hide Run, Honest, Sound;
      forall k | 0 <= k < |past.closed| ensures past.arrived[k].operation != Flush {
        NoFlushCompleted(step, inv, limits, codec, w, k);
      }
      assert w.ctx.done ==> past.arrived[|past.closed| - 1].operation == Finish;
    }
  }

  // ----- exactly when a request ends -----

  /** The request is done after n re-entries. */
  predicate EndsAfter<S>(step: StepFn<S>, limits: Limits, w: World<S>, events: seq<Event>,
                         downstream: nat -> Downstream, n: nat) {
    Run(step, limits, w, events + Reentries(downstream, n)).ctx.done
  }

  /** A codec that drains from `least` on and completes no flush below it: with a prompt downstream, a supplied
      request that a finish has reached ends if and only if its buffers are at least that large or no flush comes
      before a finish. It never fails either way. */
  lemma {:induction false} EndsIff<S(!new)>(
      step: StepFn<S>, inv: (S, Mode) -> bool, weight: S -> Owed, least: nat, limits: Limits, codec: S, memory: nat,
      others: set<nat>, events: seq<Event>, downstream: nat -> Downstream)
    requires Honest(step, inv, codec) && Draining(step, inv, weight, least)
    requires limits.bufferSize < least ==> CompletesNoFlush(step, inv, limits.bufferSize)
    requires limits.bufferSize > 0 && limits.bufferCount > 0 && Prompt(downstream)
    requires var w := Run(step, limits, Start(codec, memory, others), events);
             !w.failed && FinishArrived(w.ctx) && Supplied(limits, w.ctx)
    ensures var start := Start(codec, memory, others);
            var w := Run(step, limits, start, events);
            && ((exists n: nat :: EndsAfter(step, limits, start, events, downstream, n)) <==>
                  limits.bufferSize >= least || !FlushFirst(w.ctx.past.arrived))
            && forall n: nat :: !Run(step, limits, start, events + Reentries(downstream, n)).failed
  {
    var start := Start(codec, memory, others);
    var w := Run(step, limits, start, events);
    forall n: nat
      ensures !Run(step, limits, start, events + Reentries(downstream, n)).failed
      ensures limits.bufferSize < least && FlushFirst(w.ctx.past.arrived) ==>
                !EndsAfter(step, limits, start, events, downstream, n)
    {
      NeverFails(step, inv, limits, codec, memory, others, events, downstream, n);
      if limits.bufferSize < least {
        FlushNeverCloses(step, inv, limits, codec, memory, others, events + Reentries(downstream, n));
        SameArrivals(step, limits, codec, memory, others, events, downstream, n);
      }
    }
    if limits.bufferSize >= least || !FlushFirst(w.ctx.past.arrived) {
      var n := PromptRunsToTheEnd(step, inv, weight, least, limits, codec, memory, others, events, downstream);
      assert EndsAfter(step, limits, start, events, downstream, n);
    }
  }

  lemma NeverFails<S(!new)>(
      step: StepFn<S>, inv: (S, Mode) -> bool, limits: Limits, codec: S, memory: nat, others: set<nat>,
      events: seq<Event>, downstream: nat -> Downstream, n: nat)
    requires Honest(step, inv, codec) && limits.bufferCount > 0 && Prompt(downstream)
    requires var w := Run(step, limits, Start(codec, memory, others), events);
             !w.failed && FinishArrived(w.ctx) && Supplied(limits, w.ctx)
    ensures !Run(step, limits, Start(codec, memory, others), events + Reentries(downstream, n)).failed
  {
    var w := Run(step, limits, Start(codec, memory, others), events);
    HonestRuns(step, inv, limits, codec, memory, others, events);
    PromptRoom(step, inv, limits, codec, w, downstream, n);
    ReenteredIsRun(step, limits, Start(codec, memory, others), events, downstream, n);
  }

  lemma SameArrivals<S>(
      step: StepFn<S>, limits: Limits, codec: S, memory: nat, others: set<nat>, events: seq<Event>,
      downstream: nat -> Downstream, n: nat)
    requires !Run(step, limits, Start(codec, memory, others), events).failed
    requires !Run(step, limits, Start(codec, memory, others), events + Reentries(downstream, n)).failed
    ensures Run(step, limits, Start(codec, memory, others), events + Reentries(downstream, n)).ctx.past.arrived
         == Run(step, limits, Start(codec, memory, others), events).ctx.past.arrived
  {
    ArrivedIsAdmitted(step, limits, codec, memory, others, events);
    ArrivedIsAdmitted(step, limits, codec, memory, others, events + Reentries(downstream, n));
    ReentriesAdmitNothing(step, limits, Start(codec, memory, others), events, downstream, n);
  }

  /** A request that never ends: a flush and a finish, memory enough, a prompt downstream, and small buffers. */
  lemma FlushForever<S(!new)>(
      step: StepFn<S>, inv: (S, Mode) -> bool, limits: Limits, codec: S, memory: nat, others: set<nat>,
      flush: InBuf, finish: InBuf, down: Downstream, downstream: nat -> Downstream, n: nat)
    requires Honest(step, inv, codec) && CompletesNoFlush(step, inv, limits.bufferSize)
    requires limits.bufferCount > 0 && limits.bufferCount + 2 <= memory && Prompt(downstream)
    requires flush.sound && finish.sound && flush.addr != finish.addr
    requires flush.operation == Flush && finish.operation == Finish
    ensures var w := Run(step, limits, Start(codec, memory, others),
                         [Call([flush, finish], down)] + Reentries(downstream, n));
            !w.failed && !w.ctx.done && w.ctx.past.arrived == [flush, finish] && w.ctx.past.closed == []
  {
    var chain, events := [flush, finish], [Call([flush, finish], down)];
    var w := Run(step, limits, Start(codec, memory, others), events);
    FirstCall(step, inv, limits, codec, memory, others, chain, down);
    assert w.ctx.past.arrived[1].operation == Finish;
    NeverFails(step, inv, limits, codec, memory, others, events, downstream, n);
    SameArrivals(step, limits, codec, memory, others, events, downstream, n);
    FlushNeverCloses(step, inv, limits, codec, memory, others, events + Reentries(downstream, n));
    hide Run, Honest, CompletesNoFlush;
    assert FlushAt(chain, 0) && chain[0].operation == Flush;
  }
}
