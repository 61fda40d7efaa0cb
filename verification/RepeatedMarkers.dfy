/**
 * A stored-block stream that marks its flushes as zlib does: each call with a flush begins another marker, unless
 * what was left over fills the output by itself. The marker is five bytes long, so in an output of five bytes or
 * fewer a flush never leaves room, and never completes.
 */
module RepeatedMarkers {
  import opened Wrappers
  import opened Progress
  import opened Codec
  import opened OutputPool
  import opened Filter
  import opened Honesty
  import opened Liveness
  import opened Flate
  import opened Gzip
  import opened FlushStall
  import opened StoredBlocks

  const LEAST: nat := 6

  /** Takes all the input of a flush, and adds a marker if there is room left to begin it in. */
  function Mark(d: Stored, input: seq<byte>, capacity: nat): Stored {
    d.(fed := d.fed + input,
       stream := d.stream + Blocks(input) + (if Unsent(d) < capacity then Block(false, []) else []),
       flushing := true)
  }

  function Marked(d: Stored, operation: Operation, input: seq<byte>, capacity: nat): Stored {
    if operation == Flush then Mark(d, input, capacity) else Advance(d, operation, input)
  }

  function MarkerRun(): RunFn<Stored> {
    (d: Stored, operation: Operation, input: seq<byte>, capacity: nat) =>
      SendSome(Marked(d, operation, input, capacity), |input|, capacity)
  }

  ghost function MarkerDeflater(): Deflater<Stored> {
    DeflaterOf(MarkerRun(), LEAST)
  }

  lemma MarkKeeps(d: Stored, mode: Mode, input: seq<byte>, capacity: nat)
    requires StoredInv(d, mode) && Legal(mode, Flush, |input|)
    ensures Advanced(d, Mark(d, input, capacity), Flush, input)
    ensures input == [] ==>
              Unsent(Mark(d, input, capacity)) == Unsent(d) + (if Unsent(d) < capacity then 5 else 0)
  {
    var nothing: seq<byte> := [];
    BlocksEncode(input);
    BlockEncodes(nothing);
    EncodesAppend(d.stream, d.fed, Blocks(input), input);
    EncodesAppend(d.stream + Blocks(input), d.fed + input, Block(false, nothing), nothing);
    hide Encodes, Block;
    assert d.fed + input + nothing == d.fed + input;
    assert d.stream + Blocks(input) + [] == d.stream + Blocks(input);
  }

  /** zlib's promises hold at every capacity; what is owed goes out, but a flush needs room for a marker and a byte. */
  lemma MarkersAreZlib()
    ensures Zlib(MarkerDeflater()) && Drains(MarkerDeflater())
  {
    var core := MarkerDeflater();
    NewIsReady(MarkerRun(), LEAST);
    forall d, mode, operation, input: seq<byte>, capacity: nat | core.inv(d, mode) && Legal(mode, operation, |input|)
      ensures RunsWell(core, d, mode, operation, input, capacity)
      ensures Ample(capacity, LEAST, operation) ==> RunDrains(core, d, mode, operation, input, capacity)
    {
      MarkerCall(d, mode, operation, input, capacity);
    }
  }

  lemma MarkerCall(d: Stored, mode: Mode, operation: Operation, input: seq<byte>, capacity: nat)
    requires StoredInv(d, mode) && Legal(mode, operation, |input|)
    ensures RunsWell(MarkerDeflater(), d, mode, operation, input, capacity)
    ensures Ample(capacity, LEAST, operation) ==> RunDrains(MarkerDeflater(), d, mode, operation, input, capacity)
  {
    var d1 := Marked(d, operation, input, capacity);
    if operation == Flush {
      MarkKeeps(d, mode, input, capacity);
    } else {
      AdvanceKeeps(d, mode, operation, input);
    }
    hide StoredInv, Inflate, Encodes, Advance, Legal, Mark, Block, Blocks;
    SendRunsWell(MarkerRun(), LEAST, d, d1, mode, operation, input, capacity);
    SendSends(d, d1, operation, input, capacity);
    hide Advanced, SendSome, RunsWell, Unsent;
  }

  /** In five bytes or fewer no flush completes, in any state, over either adapter. */
  lemma SmallOutputsCompleteNoFlush(size: nat)
    requires size < LEAST
    ensures CompletesNoFlush(DeflateStep(MarkerDeflater()), MarkerDeflater().inv, size)
    ensures CompletesNoFlush(GzipStep(MarkerDeflater()), GzipInvariant(MarkerDeflater()), size)
  {
    var core := MarkerDeflater();
    forall d, mode, input | core.inv(d, mode) && Legal(mode, Flush, |input|)
      ensures var r := CheckedStep(DeflateStep(core), d, Flush, input, size);
              r.Accepted? ==> r.state != Complete
    {
      FlushFills(d, input, size);
      assert DeflateStep(core)(d, Flush, input, size) == DeflateCall(core, d, Flush, input, size);
    }
    forall g, mode, input | GzipInvariant(core)(g, mode) && Legal(mode, Flush, |input|)
      ensures var r := CheckedStep(GzipStep(core), g, Flush, input, size);
              r.Accepted? ==> r.state != Complete
    {
      GzipFlushFills(g, mode, input, size);
      assert GzipStep(core)(g, Flush, input, size) == GzipCall(core, g, Flush, input, size);
    }
  }

  lemma FlushFills(d: Stored, input: seq<byte>, capacity: nat)
    requires capacity < LEAST && d.sent <= |d.stream|
    ensures var r := MarkerRun()(d, Flush, input, capacity);
            r.Ran? && |r.bytes| == capacity && (r.ended ==> d.finishing)
  {
    var d1 := Mark(d, input, capacity);
    assert |d1.stream| >= |d.stream| + (if Unsent(d) < capacity then 5 else 0);
  }

  lemma GzipFlushFills(g: GzipState<Stored>, mode: Mode, input: seq<byte>, capacity: nat)
    requires capacity < LEAST
    requires GzipInv(MarkerDeflater(), g, mode) && Legal(mode, Flush, |input|)
    ensures var r := GzipCall(MarkerDeflater(), g, Flush, input, capacity);
            r.Stepped? ==> r.state != Complete
  {
    var head := Cut(GZIP_HEADER, g.headerPos, capacity);
    assert !g.bodyDone;
    FlushFills(g.core, input, capacity - |head|);
    hide MarkerRun, GzipInv;
  }

  // ----- whole runs -----

  /** Over this stream, with a prompt downstream, a supplied request that a finish has reached ends if and only if its
      buffers hold six bytes or no flush comes before a finish; and it never fails. So for either coding. */
  lemma {:induction false} MarkersEndIff(
      limits: Limits, memory: nat, others: set<nat>, events: seq<Event>, downstream: nat -> Downstream)
    requires limits.bufferSize > 0 && limits.bufferCount > 0 && Prompt(downstream)
    ensures var step, start := DeflateStep(MarkerDeflater()), Start(MarkerDeflater().initial, memory, others);
            var w := Run(step, limits, start, events);
            !w.failed && FinishArrived(w.ctx) && Supplied(limits, w.ctx) ==>
              ((exists n: nat :: EndsAfter(step, limits, start, events, downstream, n)) <==>
                 limits.bufferSize >= 6 || !FlushFirst(w.ctx.past.arrived))
    ensures var step, start := GzipStep(MarkerDeflater()), Start(NewGzip(MarkerDeflater()), memory, others);
            var w := Run(step, limits, start, events);
            !w.failed && FinishArrived(w.ctx) && Supplied(limits, w.ctx) ==>
              ((exists n: nat :: EndsAfter(step, limits, start, events, downstream, n)) <==>
                 limits.bufferSize >= 6 || !FlushFirst(w.ctx.past.arrived))
  {
    var core := MarkerDeflater();
    MarkersAreZlib();
    DeflateIsHonest(core);
    DeflateDrains(core);
    GzipIsHonest(core);
    GzipDrains(core);
    if limits.bufferSize < LEAST {
      SmallOutputsCompleteNoFlush(limits.bufferSize);
    }
    hide MarkerDeflater, Zlib, Drains, Honest, Draining, CompletesNoFlush, Run, FlushFirst;
    hide GzipStep, DeflateStep, NewGzip;
    var deflated := Run(DeflateStep(core), limits, Start(core.initial, memory, others), events);
    if !deflated.failed && FinishArrived(deflated.ctx) && Supplied(limits, deflated.ctx) {
      EndsIff(DeflateStep(core), core.inv, OwedByCore(core), LEAST, limits, core.initial, memory, others, events,
              downstream);
    }
    var gzipped := Run(GzipStep(core), limits, Start(NewGzip(core), memory, others), events);
    if !gzipped.failed && FinishArrived(gzipped.ctx) && Supplied(limits, gzipped.ctx) {
      EndsIff(GzipStep(core), GzipInvariant(core), OwedByGzip(core), LEAST, limits, NewGzip(core), memory, others,
              events, downstream);
    }
  }

  /** One flush buffer, one finish buffer, output buffers of five bytes, memory enough and a downstream that sends all
      it gets: markers for ever. The flush is never done with, however often the filter is re-entered. */
  lemma MarkersForEver(count: nat, memory: nat, others: set<nat>, down: Downstream, downstream: nat -> Downstream,
                       n: nat)
    requires count > 0 && count + 2 <= memory && Prompt(downstream)
    ensures var flush, finish := InBuf(1, [], false, true, false, true), InBuf(2, [], true, false, false, true);
            var events := [Call([flush, finish], down)] + Reentries(downstream, n);
            var start := Start(NewGzip(MarkerDeflater()), memory, others);
            var w := Run(GzipStep(MarkerDeflater()), Limits(count, 5), start, events);
            !w.failed && !w.ctx.done && w.ctx.past.arrived == [flush, finish] && w.ctx.past.closed == []
  {
    var core := MarkerDeflater();
    MarkersAreZlib();
    GzipIsHonest(core);
    SmallOutputsCompleteNoFlush(5);
    hide MarkerDeflater, Zlib, Drains, Honest, CompletesNoFlush, Run, GzipStep, NewGzip;
    var flush, finish := InBuf(1, [], false, true, false, true), InBuf(2, [], true, false, false, true);
    FlushForever(GzipStep(core), GzipInvariant(core), Limits(count, 5), NewGzip(core), memory, others, flush, finish,
                 down, downstream, n);
  }
}
