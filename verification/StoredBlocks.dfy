/**
 * A deflate stream that never compresses: stored blocks only (section 3.2.4 of RFC 1951).
 * It meets the contract the adapters rely on, so nothing proved over that contract is vacuous.
 */
module StoredBlocks {
  import opened Wrappers
  import opened Progress
  import opened Honesty
  import opened Flate

  const LARGEST: nat := 65535

  /** A stored block: its final bit, its length, the length's complement, its bytes. */
  function Block(last: bool, data: seq<byte>): (s: seq<byte>)
    requires |data| <= LARGEST
    ensures |s| == 5 + |data|
  {
    var n := |data|;
    [if last then 1 else 0, n % 256, n / 256, (LARGEST - n) % 256, (LARGEST - n) / 256] + data
  }

  /** Reads blocks up to the final one. */
  function Inflate(s: seq<byte>): Option<seq<byte>>
    decreases |s|
  {
    if |s| < 5 || s[0] > 1 then None
    else
      var n := (s[1] as int) + 256 * (s[2] as int);
      if n + (s[3] as int) + 256 * (s[4] as int) != LARGEST || |s| < 5 + n then None
      else if s[0] == 1 then (if |s| == 5 + n then Some(s[5..]) else None)
      else
        match Inflate(s[5 + n..])
        case None => None
        case Some(rest) => Some(s[5..5 + n] + rest)
  }

  /** A stream that reads to its end does not read with anything behind it. */
  lemma {:induction false} InflateIsExact(s: seq<byte>, more: seq<byte>)
    requires Inflate(s).Some? && more != []
    ensures Inflate(s + more) == None
    decreases |s|
  {
    var n := (s[1] as int) + 256 * (s[2] as int);
    if s[0] == 0 {
      InflateIsExact(s[5 + n..], more);
      assert (s + more)[5 + n..] == s[5 + n..] + more;
    }
  }

  /** `stream` encodes `data`, up to whatever follows. */
  ghost predicate Encodes(stream: seq<byte>, data: seq<byte>) {
    forall t, rest {:trigger Inflate(stream + t), data + rest} :: Inflate(t) == Some(rest) ==>
      Inflate(stream + t) == Some(data + rest)
  }

  lemma BlockEncodes(data: seq<byte>)
    requires |data| <= LARGEST
    ensures Encodes(Block(false, data), data)
    ensures Inflate(Block(true, data)) == Some(data)
  {
    assert Block(true, data)[5..] == data;
    forall t, rest | Inflate(t) == Some(rest)
      ensures Inflate(Block(false, data) + t) == Some(data + rest)
    {
      var s := Block(false, data) + t;
      assert s[5..5 + |data|] == data && s[5 + |data|..] == t;
    }
  }

  lemma EncodesAppend(a: seq<byte>, x: seq<byte>, b: seq<byte>, y: seq<byte>)
    requires Encodes(a, x) && Encodes(b, y)
    ensures Encodes(a + b, x + y)
  {
    forall t, rest | Inflate(t) == Some(rest)
      ensures Inflate(a + b + t) == Some(x + y + rest)
    {
      assert Inflate(b + t) == Some(y + rest);
      assert Inflate(a + (b + t)) == Some(x + (y + rest));
      assert a + (b + t) == a + b + t && x + (y + rest) == x + y + rest;
    }
  }

  function Blocks(data: seq<byte>): seq<byte>
    decreases |data|
  {
    if data == [] then []
    else
      var n := Min(|data|, LARGEST);
      Block(false, data[..n]) + Blocks(data[n..])
  }

  lemma {:induction false} BlocksEncode(data: seq<byte>)
    ensures Encodes(Blocks(data), data)
    decreases |data|
  {
    if data == [] {
      forall t, rest | Inflate(t) == Some(rest) ensures Inflate([] + t) == Some([] + rest) {
        assert [] + t == t && [] + rest == rest;
      }
    } else {
      var n := Min(|data|, LARGEST);
      BlockEncodes(data[..n]);
      BlocksEncode(data[n..]);
      EncodesAppend(Block(false, data[..n]), data[..n], Blocks(data[n..]), data[n..]);
      assert data[..n] + data[n..] == data;
    }
  }

  /** All fed and all encoded so far, how much of it is out, and which boundary is under way. */
  datatype Stored = Stored(fed: seq<byte>, stream: seq<byte>, sent: nat, flushing: bool, finishing: bool)

  /** Takes all the input, adds the boundary's block the first time it is shown, and sends what fits. */
  function Advance(d: Stored, operation: Operation, input: seq<byte>): Stored {
    var fed := d.fed + input;
    var stream := d.stream + Blocks(input);
    if operation == Finish && !d.finishing then
      d.(fed := fed, stream := stream + Block(true, []), finishing := true)
    else if operation == Flush && !d.flushing then
      d.(fed := fed, stream := stream + Block(false, []), flushing := true)
    else
      d.(fed := fed, stream := stream)
  }

  /** Sends what fits; a flush is over once it leaves room. */
  function SendSome(d: Stored, offered: nat, capacity: nat): Ran<Stored> {
    var from := Min(d.sent, |d.stream|);
    var n := Min(|d.stream| - from, capacity);
    var next := d.(sent := from + n, flushing := d.flushing && n == capacity);
    Ran(next, offered, d.stream[from..from + n], next.finishing && next.sent == |next.stream|)
  }

  function StoredRun(): RunFn<Stored> {
    (d: Stored, operation: Operation, input: seq<byte>, capacity: nat) =>
      SendSome(Advance(d, operation, input), |input|, capacity)
  }

  ghost predicate StoredInv(d: Stored, mode: Mode) {
    && d.sent <= |d.stream|
    && (d.finishing ==> Inflate(d.stream) == Some(d.fed))
    && (!d.finishing ==> Encodes(d.stream, d.fed))
    && match mode
       case Ready => !d.finishing && !d.flushing
       case AtBoundary(Flush, left) => left == 0 && !d.finishing && d.flushing
       case AtBoundary(Finish, left) => left == 0 && d.finishing && !d.flushing
       case AtBoundary(Continue, _) => false
       case Ended => true
  }

  /** What is encoded and not yet sent. */
  function Unsent(d: Stored): nat {
    |d.stream| - Min(d.sent, |d.stream|)
  }

  /** A stream of stored blocks: its call, and the capacity from which it completes a flush. */
  ghost function DeflaterOf(run: RunFn<Stored>, least: nat): Deflater<Stored> {
    Deflater(
      run,
      Stored([], [], 0, false, false),
      (d: Stored, mode: Mode) => StoredInv(d, mode),
      (d: Stored) => d.fed,
      (d: Stored) => d.stream[..Min(d.sent, |d.stream|)],
      (d: Stored) => Unsent(d),
      least,
      (s: seq<byte>) => Inflate(s))
  }

  ghost function StoredDeflater(): Deflater<Stored> {
    DeflaterOf(StoredRun(), 0)
  }

  /** `d1` is `d` with the input taken and the boundary, if any, encoded. */
  ghost predicate Advanced(d: Stored, d1: Stored, operation: Operation, input: seq<byte>) {
    && d.sent <= |d.stream| && d.stream <= d1.stream && d1.sent == d.sent
    && d1.fed == d.fed + input
    && (d1.finishing ==> Inflate(d1.stream) == Some(d1.fed))
    && (!d1.finishing ==> Encodes(d1.stream, d1.fed))
    && (operation == Continue ==> !d1.finishing && !d1.flushing)
    && (operation == Flush ==> !d1.finishing && d1.flushing)
    && (operation == Finish ==> d1.finishing && !d1.flushing)
  }

  lemma AdvanceKeeps(d: Stored, mode: Mode, operation: Operation, input: seq<byte>)
    requires StoredInv(d, mode) && Legal(mode, operation, |input|)
    ensures Advanced(d, Advance(d, operation, input), operation, input)
    ensures input == [] && (mode == Ready ==> operation == Continue) ==> Advance(d, operation, input) == d
  {
    if mode == Ready {
      BlocksEncode(input);
      EncodesAppend(d.stream, d.fed, Blocks(input), input);
      var nothing: seq<byte> := [];
      BlockEncodes(nothing);
      EncodesAppend(d.stream + Blocks(input), d.fed + input, Block(false, nothing), nothing);
      assert d.fed + input + nothing == d.fed + input;
      assert Inflate(d.stream + Blocks(input) + Block(true, nothing)) == Some(d.fed + input + nothing);
      assert input == [] ==> d.stream + Blocks(input) == d.stream && d.fed + input == d.fed;
    } else {
      assert input == [] && Blocks(input) == [];
      assert d.stream + [] == d.stream && d.fed + [] == d.fed;
    }
  }

  lemma SendKeeps(d: Stored, d1: Stored, operation: Operation, input: seq<byte>, capacity: nat)
    requires Advanced(d, d1, operation, input)
    ensures var r := SendSome(d1, |input|, capacity);
            && r.Ran? && r.consumed == |input|
            && StoredInv(r.next, RanMode(operation, |input|, capacity, |input|, |r.bytes|, r.ended))
            && (r.ended ==> Inflate(r.next.stream) == Some(r.next.fed))
  {
    hide Inflate, Encodes;
  }

  /** What goes out is the next part of what is encoded. */
  lemma SendSends(d: Stored, d1: Stored, operation: Operation, input: seq<byte>, capacity: nat)
    requires Advanced(d, d1, operation, input)
    ensures var r := SendSome(d1, |input|, capacity);
            && r.Ran? && |r.bytes| <= capacity
            && d.sent <= |d.stream| && r.next.sent <= |r.next.stream|
            && r.next.fed == d.fed + input
            && r.next.stream[..r.next.sent] == d.stream[..d.sent] + r.bytes
            && (operation == Finish && !r.ended ==> |r.bytes| == capacity)
            && (r.ended ==> operation == Finish && r.next.stream[..r.next.sent] == r.next.stream)
            && Unsent(r.next) + |r.bytes| == Unsent(d1)
  {
    hide Inflate, Encodes;
    assert d.stream[..d.sent] == d1.stream[..d.sent];
  }

  /** Whatever is encoded at a call, sending what fits of it is what zlib promises. */
  lemma SendRunsWell(run: RunFn<Stored>, least: nat, d: Stored, d1: Stored, mode: Mode, operation: Operation,
                     input: seq<byte>, capacity: nat)
    requires Advanced(d, d1, operation, input)
    requires run(d, operation, input, capacity) == SendSome(d1, |input|, capacity)
    ensures RunsWell(DeflaterOf(run, least), d, mode, operation, input, capacity)
  {
    SendKeeps(d, d1, operation, input, capacity);
    SendSends(d, d1, operation, input, capacity);
    hide Advanced, StoredInv, SendSome, Inflate, RanMode;
    assert input[..|input|] == input;
  }

  lemma NewIsReady(run: RunFn<Stored>, least: nat)
    ensures var core := DeflaterOf(run, least);
            core.inv(core.initial, Ready) && core.fed(core.initial) == [] && core.emitted(core.initial) == []
  {
    BlocksEncode([]);
  }

  /** The contract can be met, and what is owed goes out at any capacity. */
  lemma StoredIsZlib()
    ensures Zlib(StoredDeflater()) && Drains(StoredDeflater())
  {
    var core := StoredDeflater();
    NewIsReady(StoredRun(), 0);
    forall d, mode, operation, input: seq<byte>, capacity: nat | core.inv(d, mode) && Legal(mode, operation, |input|)
      ensures RunsWell(core, d, mode, operation, input, capacity)
      ensures capacity > 0 ==> RunDrains(core, d, mode, operation, input, capacity)
    {
      StoredCall(d, mode, operation, input, capacity);
    }
  }

  lemma StoredCall(d: Stored, mode: Mode, operation: Operation, input: seq<byte>, capacity: nat)
    requires StoredInv(d, mode) && Legal(mode, operation, |input|)
    ensures RunsWell(StoredDeflater(), d, mode, operation, input, capacity)
    ensures capacity > 0 ==> RunDrains(StoredDeflater(), d, mode, operation, input, capacity)
  {
    AdvanceKeeps(d, mode, operation, input);
    var d1 := Advance(d, operation, input);
    hide StoredInv, Inflate, Encodes, Advance, Legal;
    SendRunsWell(StoredRun(), 0, d, d1, mode, operation, input, capacity);
    SendSends(d, d1, operation, input, capacity);
    hide Advanced, SendSome, RunsWell, Unsent;
  }
}
