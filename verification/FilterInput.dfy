/**
 * What enters the queue: the arrived buffers of a run are those its calls brought, and no history of the
 * filter's own making.
 */
module FilterInput {
  import opened Wrappers
  import opened OutputPool
  import opened Codec
  import opened Stream
  import opened Filter

  /** The buffers of a chain that are not queued when their turn comes: neither in the queue, nor earlier in
      the chain. */
  function Newcomers(queue: seq<InBuf>, chain: seq<InBuf>): seq<InBuf> {
    if chain == [] then []
    else
      var before, b := chain[..|chain| - 1], chain[|chain| - 1];
      Newcomers(queue, before) + (if Queued(queue, b.addr) || Queued(before, b.addr) then [] else [b])
  }

  /** The buffers that the calls of a run bring before the response is done, in order. */
  function Admitted<S>(step: StepFn<S>, limits: Limits, w: World<S>, events: seq<Event>): seq<InBuf> {
    if events == [] then []
    else
      var before, e := events[..|events| - 1], events[|events| - 1];
      var was := Run(step, limits, w, before);
      Admitted(step, limits, w, before)
      + (if !was.failed && !was.ctx.done && e.Call? then Newcomers(was.ctx.input, e.chain) else [])
  }

  // ----- a chain -----

  lemma NewcomersSnoc(queue: seq<InBuf>, chain: seq<InBuf>, b: InBuf)
    ensures Newcomers(queue, chain + [b])
         == Newcomers(queue, chain) + (if Queued(queue, b.addr) || Queued(chain, b.addr) then [] else [b])
  {
    assert (chain + [b])[..|chain|] == chain;
  }

  lemma NoNewcomers(queue: seq<InBuf>)
    ensures Newcomers(queue, []) == []
  {
  }

  lemma {:induction false} NewcomersCons(queue: seq<InBuf>, b: InBuf, chain: seq<InBuf>)
    ensures Newcomers(queue, [b] + chain) ==
              if Queued(queue, b.addr) then Newcomers(queue, chain) else [b] + Newcomers(queue + [b], chain)
    decreases |chain|
  {
    hide Newcomers, Queued;
    NoNewcomers(queue);
    NoNewcomers(queue + [b]);
    if chain == [] {
      NewcomersSnoc(queue, [], b);
      assert [] + [b] == [b] + chain && !Queued([], b.addr) by { NoneQueued(b.addr); }
    } else {
      var before, last := chain[..|chain| - 1], chain[|chain| - 1];
      NewcomersCons(queue, b, before);
      NewcomersSnoc(queue, [b] + before, last);
      NewcomersSnoc(queue, before, last);
      NewcomersSnoc(queue + [b], before, last);
      assert chain == before + [last] && [b] + chain == ([b] + before) + [last];
      QueuedAppend([b], before, last.addr);
      QueuedAppend(queue, [b], last.addr);
      QueuedAlone(b, last.addr);
    }
  }

  lemma NoneQueued(addr: nat)
    ensures !Queued([], addr)
  {
  }

  lemma QueuedAlone(b: InBuf, addr: nat)
    ensures Queued([b], addr) <==> b.addr == addr
  {
    assert [b][0] == b;
  }

  lemma QueuedAppend(a: seq<InBuf>, b: seq<InBuf>, addr: nat)
    ensures Queued(a + b, addr) <==> Queued(a, addr) || Queued(b, addr)
  {
    if Queued(a, addr) {
      var i :| 0 <= i < |a| && a[i].addr == addr;
      assert (a + b)[i].addr == addr;
    }
    if Queued(b, addr) {
      var i :| 0 <= i < |b| && b[i].addr == addr;
      assert (a + b)[|a| + i].addr == addr;
    }
  }

  /** append_input queues exactly the newcomers, with their bytes and flags, in order, behind what was queued. */
  lemma {:induction false} AppendAdmits<S>(c: Ctx<S>, chain: seq<InBuf>)
    requires AppendInput(c, chain).1 == None
    ensures var c' := AppendInput(c, chain).0;
            && c'.input == c.input + Newcomers(c.input, chain)
            && c'.past.arrived == c.past.arrived + Newcomers(c.input, chain)
    decreases |chain|
  {
    if chain == [] {
      assert c.input + [] == c.input && c.past.arrived + [] == c.past.arrived;
    } else {
      var b, rest := chain[0], chain[1..];
      assert chain == [b] + rest;
      NewcomersCons(c.input, b, rest);
      if Queued(c.input, b.addr) {
        AppendAdmits(c, rest);
      } else {
        AppendAdmits(Enqueue(c, b), rest);
        Associate(c.input, [b], Newcomers(c.input + [b], rest));
        Associate(c.past.arrived, [b], Newcomers(c.input + [b], rest));
      }
    }
  }

  /** A chain of distinct buffers, none of them queued, is admitted whole. */
  lemma {:induction false} WholeChain(queue: seq<InBuf>, chain: seq<InBuf>)
    requires forall i, j :: 0 <= i < j < |chain| ==> chain[i].addr != chain[j].addr
    requires forall i :: 0 <= i < |chain| ==> !Queued(queue, chain[i].addr)
    ensures Newcomers(queue, chain) == chain
  {
    hide Newcomers;
    if chain == [] {
      NoNewcomers(queue);
    } else {
      var before, b := chain[..|chain| - 1], chain[|chain| - 1];
      WholeChain(queue, before);
      NewcomersSnoc(queue, before, b);
      assert chain == before + [b];
      assert !Queued(before, b.addr);
    }
  }

  // ----- a run -----

  lemma {:induction false} QueueAdmitsNothing<S>(step: StepFn<S>, limits: Limits, c: Ctx<S>, budget: WorkBudget)
    ensures ServeQueue(step, limits, c, budget).ctx.past.arrived == c.past.arrived
    decreases |c.input|
  {
    if c.input != [] {
      var r := ServeHead(step, limits, c, budget);
      hide DriveCtx;
      assert r.ctx.past.arrived == c.past.arrived;
      hide ServeHead;
      if r.Proceed? {
        QueueAdmitsNothing(step, limits, r.ctx, r.budget);
      }
    }
  }

  lemma CompressAdmits<S>(step: StepFn<S>, limits: Limits, c: Ctx<S>, chain: seq<InBuf>)
    requires Compress(step, limits, c, chain).result.Success?
    ensures Compress(step, limits, c, chain).ctx.past.arrived == c.past.arrived + Newcomers(c.input, chain)
  {
    var (c', failure) := AppendInput(c, chain);
    assert failure == None;
    AppendAdmits(c, chain);
    hide DriveCtx, AppendInput, ServeQueue;
    var r := Resume(step, limits, c', PER_CALLBACK);
    assert r.ctx.past.arrived == c'.past.arrived;
    if r.Proceed? {
      QueueAdmitsNothing(step, limits, r.ctx, r.budget);
    }
  }

  lemma NextAdmits<S>(step: StepFn<S>, limits: Limits, w: World<S>, e: Event)
    requires !Next(step, limits, w, e).failed
    ensures Next(step, limits, w, e).ctx.past.arrived == w.ctx.past.arrived
              + (if !w.failed && !w.ctx.done && e.Call? then Newcomers(w.ctx.input, e.chain) else [])
  {
    hide Compress, UpdateChains, Newcomers;
    if e.Call? && !w.failed && !w.ctx.done {
      CompressAdmits(step, limits, w.ctx, e.chain);
    } else {
      assert w.ctx.past.arrived + [] == w.ctx.past.arrived;
    }
  }

  /** Over every run, the buffers that arrived are exactly the ones its calls brought. */
  lemma {:induction false} ArrivedIsAdmitted<S>(
      step: StepFn<S>, limits: Limits, codec: S, memory: nat, others: set<nat>, events: seq<Event>)
    ensures var start := Start(codec, memory, others);
            var w := Run(step, limits, start, events);
            !w.failed ==> w.ctx.past.arrived == Admitted(step, limits, start, events)
  {
    if events != [] {
      hide Next;
      var before := events[..|events| - 1];
      var was := Run(step, limits, Start(codec, memory, others), before);
      var w := Run(step, limits, Start(codec, memory, others), events);
      ArrivedIsAdmitted(step, limits, codec, memory, others, before);
      if !w.failed {
        FailureStays(step, limits, was, events[|events| - 1]);
        NextAdmits(step, limits, was, events[|events| - 1]);
      }
    }
  }

  lemma FailureStays<S>(step: StepFn<S>, limits: Limits, w: World<S>, e: Event)
    ensures w.failed ==> Next(step, limits, w, e).failed
  {
  }
}
