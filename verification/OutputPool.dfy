/**
 * The hard-limited pool of output buffers, as values.
 *
 * `free` counts the buffers ready for use, `out` holds the ones filled in this callback
 * and `busy` the ones downstream still owns. `memory` is the number of request-pool
 * allocations that will still succeed: the environment may make any one fail.
 */
module OutputPool {
  import opened Wrappers
  import opened Progress
  import opened Codec

  datatype Boundary = NoBoundary | FlushBoundary | FinishBoundary

  /** One emitted buffer, with the marks downstream sees. */
  datatype Packet = Packet(bytes: seq<byte>, flush: bool, lastBuf: bool)

  /** A packet downstream owns, with the number of its bytes not yet sent. */
  datatype Sending = Sending(packet: Packet, left: nat)

  datatype Limits = Limits(bufferCount: nat, bufferSize: nat)

  datatype OutputFailure = Allocation | Exhausted

  datatype Pool = Pool(free: nat, out: seq<Packet>, busy: seq<Sending>, allocatedBuffers: nat, memory: nat)

  /** Every allocated buffer is in exactly one of the three lists, and the hard limit holds. */
  ghost predicate PoolOk(limits: Limits, p: Pool) {
    && p.free + |p.out| + |p.busy| == p.allocatedBuffers
    && p.allocatedBuffers <= limits.bufferCount
  }

  /** A buffer can be had without waiting for downstream. */
  predicate HasRoom(limits: Limits, p: Pool) {
    p.free > 0 || p.allocatedBuffers < limits.bufferCount
  }

  /** free_buf: reuse a free buffer, else allocate below the limit. */
  function TakeBuffer(limits: Limits, p: Pool): Result<Pool, OutputFailure> {
    if p.free == 0 && p.allocatedBuffers >= limits.bufferCount then Failure(Exhausted)
    else if p.free > 0 then Success(p.(free := p.free - 1))
    else if p.memory == 0 then Failure(Allocation)
    else Success(p.(allocatedBuffers := p.allocatedBuffers + 1, memory := p.memory - 1))
  }

  function BoundaryOf(operation: Operation, state: StepState): Boundary {
    if operation == Finish && state == Complete then FinishBoundary
    else if operation == Flush && state == Complete then FlushBoundary
    else NoBoundary
  }

  /** What a step emits: nothing when it produced no byte and completed no boundary. */
  function Emission(operation: Operation, bytes: seq<byte>, state: StepState): seq<Packet> {
    var boundary := BoundaryOf(operation, state);
    if |bytes| > 0 || boundary != NoBoundary then
      [Packet(bytes, boundary == FlushBoundary, boundary == FinishBoundary)]
    else
      []
  }

  /** Puts a taken buffer on `out` when the step emits, back on `free` when it does not. */
  function Submit(p: Pool, emission: seq<Packet>): Pool {
    if emission == [] then p.(free := p.free + 1) else p.(out := p.out + emission)
  }

  /** The packets a log of accepted steps emits, in order. */
  function Packets(log: seq<StepRecord>): seq<Packet> {
    if log == [] then []
    else
      var r := log[|log| - 1];
      Packets(log[..|log| - 1]) + Emission(r.operation, r.produced, r.state)
  }

  lemma PacketsSnoc(log: seq<StepRecord>, r: StepRecord)
    ensures Packets(log + [r]) == Packets(log) + Emission(r.operation, r.produced, r.state)
  {
    assert (log + [r])[..|log|] == log;
  }

  /** The bytes on the wire. */
  function Wire(packets: seq<Packet>): seq<byte> {
    if packets == [] then [] else Wire(packets[..|packets| - 1]) + packets[|packets| - 1].bytes
  }

  lemma {:induction false} WireAppend(a: seq<Packet>, b: seq<Packet>)
    ensures Wire(a + b) == Wire(a) + Wire(b)
    decreases |b|
  {
    if b == [] {
      assert a + b == a;
    } else {
      WireAppend(a, b[..|b| - 1]);
      AppendLast(a, b);
      Associate(Wire(a), Wire(b[..|b| - 1]), b[|b| - 1].bytes);
    }
  }

  /** Cutting the codec's output into packets loses and adds no byte. */
  lemma {:induction false} WireIsProduced(log: seq<StepRecord>)
    ensures Wire(Packets(log)) == Produced(log)
  {
    if log != [] {
      var r := log[|log| - 1];
      var emitted := Emission(r.operation, r.produced, r.state);
      WireIsProduced(log[..|log| - 1]);
      WireAppend(Packets(log[..|log| - 1]), emitted);
      if emitted == [] {
        assert r.produced == [];
      } else {
        assert emitted[..0] == [];
        assert Wire(emitted) == r.produced;
      }
    }
  }

  // ----- what downstream and ngx_chain_update_chains do -----

  function AllSending(out: seq<Packet>): (r: seq<Sending>)
    ensures |r| == |out|
  {
    seq(|out|, i requires 0 <= i < |out| => Sending(out[i], |out[i].bytes|))
  }

  /** Downstream sends some more bytes: at most `left(i)` of packet i remain unsent. */
  function Send(busy: seq<Sending>, left: nat -> nat): (r: seq<Sending>)
    ensures |r| == |busy|
  {
    seq(|busy|, i requires 0 <= i < |busy| => busy[i].(left := Min(busy[i].left, left(i))))
  }

  /** The number of leading packets with nothing left to send. */
  function Spent(busy: seq<Sending>): (n: nat)
    ensures n <= |busy|
    ensures forall i :: 0 <= i < n ==> busy[i].left == 0
    ensures n < |busy| ==> busy[n].left != 0
  {
    if busy == [] || busy[0].left != 0 then 0 else 1 + Spent(busy[1..])
  }

  /** ngx_chain_update_chains: `out` joins `busy`, then the spent prefix becomes free. */
  function UpdateChains(p: Pool, left: nat -> nat): Pool {
    var busy := Send(p.busy + AllSending(p.out), left);
    var n := Spent(busy);
    p.(free := p.free + n, out := [], busy := busy[n..])
  }

  /** Downstream's sending frees exactly the buffers at the front that it is done with: `kept` are the others. */
  lemma OnlySentIsFreed(p: Pool, left: nat -> nat)
    ensures var kept, all := UpdateChains(p, left).busy, p.busy + AllSending(p.out);
            var n := |all| - |kept|;
            && 0 <= n && UpdateChains(p, left).free == p.free + n && UpdateChains(p, left).out == []
            && (forall i :: 0 <= i < |kept| ==> kept[i].packet == all[n + i].packet)
            && (forall i :: 0 <= i < |kept| ==> kept[i].left <= all[n + i].left && kept[i].left <= left(n + i))
            && (forall i :: 0 <= i < n ==> all[i].left == 0 || left(i) == 0)
            && (kept != [] ==> kept[0].left > 0)
  {
    var all := p.busy + AllSending(p.out);
    var sent := Send(all, left);
    forall i | 0 <= i < |all| ensures sent[i] == all[i].(left := Min(all[i].left, left(i))) {
    }
    var kept, n := UpdateChains(p, left).busy, Spent(sent);
    assert kept == sent[n..] && UpdateChains(p, left).free == p.free + n && |all| - |kept| == n;
    hide Send, AllSending, Spent, UpdateChains;
    assert forall i :: 0 <= i < |kept| ==> kept[i] == sent[n + i];
  }

  lemma PoolSteps(limits: Limits, p: Pool, emission: seq<Packet>, left: nat -> nat)
    requires PoolOk(limits, p)
    requires |emission| <= 1
    ensures TakeBuffer(limits, p).Success? ==> PoolOk(limits, Submit(TakeBuffer(limits, p).value, emission))
    ensures PoolOk(limits, UpdateChains(p, left))
    ensures TakeBuffer(limits, p) == Failure(Exhausted) <==> !HasRoom(limits, p)
    ensures TakeBuffer(limits, p) == Failure(Allocation) <==> HasRoom(limits, p) && p.free == 0 && p.memory == 0
    ensures TakeBuffer(limits, p).Success? ==>
              var taken := TakeBuffer(limits, p).value;
              p.memory - taken.memory == taken.allocatedBuffers - p.allocatedBuffers == if p.free > 0 then 0 else 1
    ensures !HasRoom(limits, p) && limits.bufferCount > 0 ==> p.out != [] || p.busy != []
  {
  }
}
