/**
 * What goes past the filter. Once a response is done the filter is given no context any more, and hands
 * every further chain downstream as it came (context.rs, runtime.rs). What downstream has received is
 * therefore the filter's own packets and then these buffers.
 */
module FilterGate {
  import opened Wrappers
  import opened Progress
  import opened Codec
  import opened OutputPool
  import opened Stream
  import opened Filter
  import opened FilterRuns

  /** A buffer as downstream sees it when the filter does not touch it. */
  function RawPacket(b: InBuf): Packet {
    Packet(b.bytes, b.flush, b.lastBuf)
  }

  function RawPackets(buffers: seq<InBuf>): (r: seq<Packet>)
    ensures |r| == |buffers|
  {
    if buffers == [] then []
    else RawPackets(buffers[..|buffers| - 1]) + [RawPacket(buffers[|buffers| - 1])]
  }

  /** All that downstream has received, in order. */
  function Received(past: Past): seq<Packet> {
    past.handed + RawPackets(past.passed)
  }

  /** The buffers of the calls made once the response was done. */
  function Late<S>(step: StepFn<S>, limits: Limits, w: World<S>, events: seq<Event>): seq<InBuf> {
    if events == [] then []
    else
      var e := events[|events| - 1];
      Late(step, limits, w, events[..|events| - 1])
      + (if IsLate(Run(step, limits, w, events[..|events| - 1]), e) then e.chain else [])
  }

  /** What a caller can see before the call: the response is done, and there is a chain to pass. */
  predicate IsLate<S>(w: World<S>, e: Event) {
    !w.failed && w.ctx.done && e.Call? && e.chain != []
  }

  // ----- the gate lets through exactly the late buffers -----

  lemma {:induction false} AppendPassesNothing<S>(c: Ctx<S>, chain: seq<InBuf>)
    ensures AppendInput(c, chain).0.past.passed == c.past.passed
    decreases |chain|
  {
    if chain != [] {
      if Queued(c.input, chain[0].addr) {
        AppendPassesNothing(c, chain[1..]);
      } else if c.pool.memory > 0 {
        AppendPassesNothing(Enqueue(c, chain[0]), chain[1..]);
      }
    }
  }

  lemma {:induction false} QueuePassesNothing<S>(step: StepFn<S>, limits: Limits, c: Ctx<S>, budget: WorkBudget)
    ensures ServeQueue(step, limits, c, budget).ctx.past.passed == c.past.passed
    decreases |c.input|
  {
    if c.input != [] {
      var r := ServeHead(step, limits, c, budget);
      hide DriveCtx;
      assert r.ctx.past.passed == c.past.passed;
      hide ServeHead;
      if r.Proceed? {
        QueuePassesNothing(step, limits, r.ctx, r.budget);
      }
    }
  }

  lemma CompressPassesNothing<S>(step: StepFn<S>, limits: Limits, c: Ctx<S>, chain: seq<InBuf>)
    ensures Compress(step, limits, c, chain).ctx.past.passed == c.past.passed
  {
    hide DriveCtx, AppendInput, ServeQueue;
    AppendPassesNothing(c, chain);
    var (c', failure) := AppendInput(c, chain);
    if failure == None {
      var r := Resume(step, limits, c', PER_CALLBACK);
      assert r.ctx.past.passed == c'.past.passed;
      if r.Proceed? {
        QueuePassesNothing(step, limits, r.ctx, r.budget);
      }
    }
  }

  lemma NextPasses<S>(step: StepFn<S>, limits: Limits, w: World<S>, e: Event)
    ensures Next(step, limits, w, e).ctx.past.passed == w.ctx.past.passed + (if IsLate(w, e) then e.chain else [])
    ensures w.ctx.done && !w.failed ==>
              Next(step, limits, w, e).ctx.done && !Next(step, limits, w, e).failed
              && Next(step, limits, w, e).ctx.past.handed == w.ctx.past.handed
  {
    hide Compress, UpdateChains;
    if e.Call? && !w.failed && !w.ctx.done {
      CompressPassesNothing(step, limits, w.ctx, e.chain);
    }
  }

  /** Over every run, what was passed is what was late; and something is late only once the response is done. */
  lemma {:induction false} PassedIsLate<S>(
      step: StepFn<S>, limits: Limits, codec: S, memory: nat, others: set<nat>, events: seq<Event>)
    ensures var start := Start(codec, memory, others);
            var w := Run(step, limits, start, events);
            && w.ctx.past.passed == Late(step, limits, start, events)
            && (w.ctx.past.passed != [] ==> w.ctx.done && !w.failed)
  {
    if events != [] {
      hide Next;
      var before := events[..|events| - 1];
      PassedIsLate(step, limits, codec, memory, others, before);
      NextPasses(step, limits, Run(step, limits, Start(codec, memory, others), before), events[|events| - 1]);
    }
  }

  lemma {:induction false} RawWire(buffers: seq<InBuf>)
    ensures Wire(RawPackets(buffers)) == Bytes(buffers)
  {
    if buffers != [] {
      RawWire(buffers[..|buffers| - 1]);
      var packets := RawPackets(buffers);
      assert packets[..|packets| - 1] == RawPackets(buffers[..|buffers| - 1]);
    }
  }

  lemma {:induction false} RawAppend(a: seq<InBuf>, b: seq<InBuf>)
    ensures RawPackets(a + b) == RawPackets(a) + RawPackets(b)
    decreases |b|
  {
    if b == [] {
      assert a + b == a;
    } else {
      RawAppend(a, b[..|b| - 1]);
      AppendLast(a, b);
    }
  }

  lemma ReceivedWire(past: Past)
    ensures Wire(Received(past)) == Wire(past.handed) + Bytes(past.passed)
  {
    WireAppend(past.handed, RawPackets(past.passed));
    RawWire(past.passed);
  }

  /** Event k comes late in this run. */
  predicate LateAt<S>(step: StepFn<S>, limits: Limits, w: World<S>, events: seq<Event>, k: nat)
    requires k < |events|
  {
    IsLate(Run(step, limits, w, events[..k]), events[k])
  }

  lemma LateAtPrefix<S>(step: StepFn<S>, limits: Limits, w: World<S>, events: seq<Event>, n: nat, k: nat)
    requires k < n <= |events|
    ensures LateAt(step, limits, w, events[..n], k) == LateAt(step, limits, w, events, k)
  {
    hide Run;
    assert events[..n][..k] == events[..k];
  }

  /** Nothing is late exactly when no call with a chain follows the end of the response. */
  lemma {:induction false} NoneLate<S>(step: StepFn<S>, limits: Limits, w: World<S>, events: seq<Event>)
    ensures Late(step, limits, w, events) == [] <==>
              forall k: nat :: k < |events| ==> !LateAt(step, limits, w, events, k)
  {
    if events != [] {
      hide Run, Late, LateAt;
      var n := |events| - 1;
      NoneLate(step, limits, w, events[..n]);
      LateSplits(step, limits, w, events);
      forall k: nat | k < n
        ensures LateAt(step, limits, w, events[..n], k) == LateAt(step, limits, w, events, k)
      {
        LateAtPrefix(step, limits, w, events, n, k);
      }
    }
  }

  lemma LateSplits<S>(step: StepFn<S>, limits: Limits, w: World<S>, events: seq<Event>)
    requires events != []
    ensures var n := |events| - 1;
            Late(step, limits, w, events) == [] <==>
              Late(step, limits, w, events[..n]) == [] && !LateAt(step, limits, w, events, n)
  {
    hide Run;
  }
}
