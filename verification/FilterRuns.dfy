/**
 * Whole runs of the body filter, for every codec: any chains, any budget or buffer stops,
 * any behaviour of downstream.
 */
module FilterRuns {
  import opened Wrappers
  import opened Progress
  import opened Codec
  import opened OutputPool
  import opened Transcript
  import opened Filter
  import opened FilterInvariant
  import opened FilterInput

  /** Every step the codec has answered, over all callbacks. */
  function Log<S>(c: Ctx<S>): seq<StepRecord> {
    Flatten(c.past.closed) + c.past.open
  }

  /** The bytes of some buffers, one after the other. */
  function Bytes(buffers: seq<InBuf>): seq<byte> {
    if buffers == [] then [] else Bytes(buffers[..|buffers| - 1]) + buffers[|buffers| - 1].bytes
  }

  lemma {:induction false} BytesAppend(a: seq<InBuf>, b: seq<InBuf>)
    ensures Bytes(a + b) == Bytes(a) + Bytes(b)
    decreases |b|
  {
    if b == [] {
      assert a + b == a;
    } else {
      BytesAppend(a, b[..|b| - 1]);
      AppendLast(a, b);
      Associate(Bytes(a), Bytes(b[..|b| - 1]), b[|b| - 1].bytes);
    }
  }

  /** What holds between callbacks unless the request has failed. */
  ghost predicate WorldOk<S>(step: StepFn<S>, limits: Limits, start: S, w: World<S>) {
    !w.failed ==>
      && Inv(step, limits, start, w.ctx)
      && w.ctx.pool.out == []
      && (OurFlag in w.buffered <==> HasWork(w.ctx))
  }

  lemma PassByKeeps<S>(step: StepFn<S>, limits: Limits, start: S, c: Ctx<S>, chain: seq<InBuf>)
    requires Inv(step, limits, start, c)
    ensures Inv(step, limits, start, PassBy(c, chain))
  {
    hide Genuine, Packets, StateAfter, Flatten, Underway, Completes, Closed;
    assert Standing(PassBy(c, chain));
  }

  lemma CallbackKeeps<S>(step: StepFn<S>, limits: Limits, start: S, w: World<S>, chain: seq<InBuf>, down: Downstream)
    requires WorldOk(step, limits, start, w) && !w.failed
    ensures WorldOk(step, limits, start, Callback(step, limits, w, chain, down))
  {
    if w.ctx.done {
      PassByKeeps(step, limits, start, w.ctx, chain);
      hide Inv, Compress;
    } else {
      ActiveCallbackKeeps(step, limits, start, w, chain, down);
    }
  }

  lemma ActiveCallbackKeeps<S>(
      step: StepFn<S>, limits: Limits, start: S, w: World<S>, chain: seq<InBuf>, down: Downstream)
    requires WorldOk(step, limits, start, w) && !w.failed && !w.ctx.done
    ensures WorldOk(step, limits, start, Callback(step, limits, w, chain, down))
  {
    hide Inv, Compress, UpdateChains;
    CompressKeeps(step, limits, start, w.ctx, chain);
    var r := Compress(step, limits, w.ctx, chain);
    if r.result.Success? {
      HandOverKeeps(step, limits, start, r.ctx, down.left);
    }
  }

  lemma {:induction false} RunKeeps<S>(step: StepFn<S>, limits: Limits, codec: S, memory: nat, others: set<nat>,
                                       events: seq<Event>)
    ensures WorldOk(step, limits, codec, Run(step, limits, Start(codec, memory, others), events))
  {
    if events == [] {
      assert Flatten<StepRecord>([]) + [] == [];
    } else {
      var before := Run(step, limits, Start(codec, memory, others), events[..|events| - 1]);
      RunKeeps(step, limits, codec, memory, others, events[..|events| - 1]);
      if !before.failed {
        match events[|events| - 1]
        case Call(chain, down) => CallbackKeeps(step, limits, codec, before, chain, down);
        case Sent(left) =>
          assert Standing(before.ctx.(pool := before.ctx.pool.(busy := Send(before.ctx.pool.busy, left))));
      }
    }
  }

  // ----- conservation -----

  lemma {:induction false} ClosedBytes(past: Past, done: bool, n: nat)
    requires BuffersClosed(past, done) && n <= |past.closed|
    ensures Consumed(Flatten(past.closed[..n])) == Bytes(past.arrived[..n])
  {
    if n == 0 {
      assert past.closed[..n] == [] && past.arrived[..n] == [];
    } else {
      hide Flatten, Consumed, Bytes, Closed;
      ClosedBytes(past, done, n - 1);
      var log, b := past.closed[n - 1], past.arrived[n - 1];
      assert Closed(log, b.bytes, b.operation);
      OneMoreBuffer(past, n, log, b);
    }
  }

  lemma OneMoreBuffer(past: Past, n: nat, log: seq<StepRecord>, b: InBuf)
    requires 0 < n <= |past.closed| && n <= |past.arrived|
    requires log == past.closed[n - 1] && b == past.arrived[n - 1] && Closed(log, b.bytes, b.operation)
    ensures Consumed(Flatten(past.closed[..n])) == Consumed(Flatten(past.closed[..n - 1])) + b.bytes
    ensures Bytes(past.arrived[..n]) == Bytes(past.arrived[..n - 1]) + b.bytes
  {
    hide Flatten, Consumed, Bytes;
    FlattenedBytes(past.closed[..n - 1], log);
    BytesSnoc(past.arrived[..n - 1], b);
    assert past.closed[..n] == past.closed[..n - 1] + [log];
    assert past.arrived[..n] == past.arrived[..n - 1] + [b];
  }

  lemma FlattenedBytes(parts: seq<seq<StepRecord>>, log: seq<StepRecord>)
    ensures Consumed(Flatten(parts + [log])) == Consumed(Flatten(parts)) + Consumed(log)
  {
    FlattenSnoc(parts, log);
    ConsumedAppend(Flatten(parts), log);
  }

  /**
   * Nothing lost, repeated or reordered. Over every run, the buffers that arrived are those its calls
   * brought, in order; the bytes the codec has taken followed by the bytes still queued are their bytes, in
   * order; and once the response is done, the codec has taken exactly the buffers up to the one whose finish
   * completed.
   */
  lemma Conservation<S>(step: StepFn<S>, limits: Limits, codec: S, memory: nat, others: set<nat>, events: seq<Event>)
    ensures var w := Run(step, limits, Start(codec, memory, others), events);
            var past := w.ctx.past;
            !w.failed ==>
              && past.arrived == Admitted(step, limits, Start(codec, memory, others), events)
              && if w.ctx.done then
                   && 0 < |past.closed| <= |past.arrived|
                   && past.arrived[|past.closed| - 1].operation == Finish
                   && Consumed(Log(w.ctx)) == Bytes(past.arrived[..|past.closed|])
                 else
                   Consumed(Log(w.ctx)) + Bytes(w.ctx.input) == Bytes(past.arrived)
  {
    var w := Run(step, limits, Start(codec, memory, others), events);
    RunKeeps(step, limits, codec, memory, others, events);
    ArrivedIsAdmitted(step, limits, codec, memory, others, events);
    if !w.failed {
      var past, n := w.ctx.past, |w.ctx.past.closed|;
      ClosedBytes(past, w.ctx.done, n);
      assert past.closed[..n] == past.closed;
      ConsumedAppend(Flatten(past.closed), past.open);
      if !w.ctx.done {
        StandingBytes(w.ctx);
      }
    }
  }

  lemma StandingBytes<S>(c: Ctx<S>)
    requires Standing(c) && !c.done && |c.past.closed| <= |c.past.arrived|
    ensures Bytes(c.past.arrived[..|c.past.closed|]) + Consumed(c.past.open) + Bytes(c.input) == Bytes(c.past.arrived)
  {
    var n := |c.past.closed|;
    if c.pending.Some? {
      SplitBytes(c.past.arrived, n, Consumed(c.past.open), [], c.input);
    } else if c.input != [] {
      SplitBytes(c.past.arrived, n, Consumed(c.past.open), c.input[0].bytes, c.input[1..]);
      HeadBytes(c.input);
    } else {
      assert c.past.arrived[..n] == c.past.arrived;
    }
  }

  /** The bytes before buffer n, what was taken of it, what is left of it, and the buffers after it. */
  lemma SplitBytes(buffers: seq<InBuf>, n: nat, taken: seq<byte>, rest: seq<byte>, after: seq<InBuf>)
    requires n < |buffers| && taken + rest == buffers[n].bytes && after == buffers[n + 1..]
    ensures Bytes(buffers) == Bytes(buffers[..n]) + taken + (rest + Bytes(after))
  {
    BytesAt(buffers, n);
    Regroup(Bytes(buffers[..n]), taken, rest, Bytes(after));
  }

  lemma HeadBytes(buffers: seq<InBuf>)
    requires buffers != []
    ensures Bytes(buffers) == buffers[0].bytes + Bytes(buffers[1..])
  {
    BytesAt(buffers, 0);
    assert buffers[..0] == [];
  }

  lemma Regroup<T>(a: seq<T>, b: seq<T>, c: seq<T>, d: seq<T>)
    ensures a + (b + c) + d == a + b + (c + d)
  {
  }

  lemma BytesAt(buffers: seq<InBuf>, n: nat)
    requires n < |buffers|
    ensures Bytes(buffers) == Bytes(buffers[..n]) + buffers[n].bytes + Bytes(buffers[n + 1..])
  {
    hide Bytes;
    SplitAt(buffers, n);
    BytesSnoc(buffers[..n], buffers[n]);
    BytesAppend(buffers[..n] + [buffers[n]], buffers[n + 1..]);
  }

  lemma BytesSnoc(buffers: seq<InBuf>, b: InBuf)
    ensures Bytes(buffers + [b]) == Bytes(buffers) + b.bytes
  {
    assert (buffers + [b])[..|buffers|] == buffers;
  }
}
