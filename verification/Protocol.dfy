/** The calls a run of the filter makes of an honest codec are legal, one after the other. */
module Protocol {
  import opened Wrappers
  import opened Progress
  import opened Codec
  import opened OutputPool
  import opened Transcript
  import opened Filter
  import opened FilterInvariant
  import opened FilterRuns
  import opened Honesty

  /** The mode a log leaves the codec in. */
  function LogMode(log: seq<StepRecord>): Mode {
    if log == [] then Ready
    else After(Last(log).operation, |Last(log).offered|, Min(Last(log).consumed, |Last(log).offered|), Last(log).state)
  }

  ghost predicate LegalLog(log: seq<StepRecord>) {
    log == [] ||
    (LegalLog(log[..|log| - 1]) && Legal(LogMode(log[..|log| - 1]), Last(log).operation, |Last(log).offered|))
  }

  lemma {:induction false} LegalAppend(a: seq<StepRecord>, b: seq<StepRecord>)
    requires LegalLog(a) && LegalLog(b)
    requires b == [] || LogMode(a) == Ready
    ensures LegalLog(a + b)
    ensures LogMode(a + b) == if b == [] then LogMode(a) else LogMode(b)
    decreases |b|
  {
    if b == [] {
      assert a + b == a;
    } else {
      var b' := b[..|b| - 1];
      LegalAppend(a, b');
      assert (a + b)[..|a + b| - 1] == a + b';
      assert Last(a + b) == Last(b);
    }
  }

  /** One buffer's steps are legal from Ready on. */
  lemma {:induction false} PresentsLegally(log: seq<StepRecord>, bytes: seq<byte>, operation: Operation)
    requires Presents(log, bytes, operation)
    ensures LegalLog(log)
    ensures |Consumed(log)| <= |bytes|
    ensures !Closes(log, bytes, operation) ==> LogMode(log) == ModeOf(log, operation, |bytes| - |Consumed(log)|)
    ensures Closes(log, bytes, operation) && (operation != Continue ==> Completes(log, operation)) ==>
              LogMode(log) == if operation == Finish then Ended else Ready
  {
    PresentsPrefix(log, bytes, operation);
    if log != [] {
      var before, r := log[..|log| - 1], Last(log);
      PresentsLegally(before, bytes, operation);
      assert |r.Taken()| == r.consumed;
      assert |Consumed(log)| == |Consumed(before)| + r.consumed;
    }
  }

  lemma {:induction false} ClosedLegally(past: Past, done: bool, n: nat)
    requires BuffersClosed(past, done) && AllCompleted(past) && n <= |past.closed|
    ensures LegalLog(Flatten(past.closed[..n]))
    ensures LogMode(Flatten(past.closed[..n])) ==
              if n == |past.closed| && done && n > 0 && past.arrived[n - 1].operation == Finish then Ended else Ready
  {
    if n > 0 {
      ClosedLegally(past, done, n - 1);
      var log, b := past.closed[n - 1], past.arrived[n - 1];
      PresentsLegally(log, b.bytes, b.operation);
      assert past.closed[..n] == past.closed[..n - 1] + [log];
      FlattenSnoc(past.closed[..n - 1], log);
      LegalAppend(Flatten(past.closed[..n - 1]), log);
    }
  }

  /** Over every run, every call of an honest codec was legal when it was made. */
  lemma RunsLegally<S(!new)>(step: StepFn<S>, inv: (S, Mode) -> bool, limits: Limits, start: S, w: World<S>)
    requires HonestWorld(step, inv, limits, start, w) && !w.failed
    ensures LegalLog(Log(w.ctx))
    ensures Genuine(step, start, Log(w.ctx))
    ensures w.ctx.codec == StateAfter(step, start, Log(w.ctx))
    ensures w.ctx.done ==> LogMode(Log(w.ctx)) == Ended
  {
    var past := w.ctx.past;
    ClosedLegally(past, w.ctx.done, |past.closed|);
    assert past.closed[..|past.closed|] == past.closed;
    OpenLegally(w.ctx);
    LegalAppend(Flatten(past.closed), past.open);
  }

  lemma OpenLegally<S>(c: Ctx<S>)
    requires Standing(c)
    ensures LegalLog(c.past.open)
    ensures c.done ==> c.past.open == []
  {
    if c.past.open != [] {
      var b := c.past.arrived[|c.past.closed|];
      PresentsLegally(c.past.open, b.bytes, b.operation);
    }
  }

  /** An honest codec stays honest along every legal log, and its state and mode are the log's. */
  lemma {:induction false} HonestAlongLog<S(!new)>(step: StepFn<S>, inv: (S, Mode) -> bool, start: S,
                                                   log: seq<StepRecord>)
    requires Honest(step, inv, start) && LegalLog(log) && Genuine(step, start, log)
    ensures inv(StateAfter(step, start, log), LogMode(log))
  {
    if log != [] {
      var before, r := log[..|log| - 1], Last(log);
      HonestAlongLog(step, inv, start, before);
      assert AnswersHonestly(step, inv, StateAfter(step, start, before), r.operation, r.offered, r.capacity);
    }
  }
}
