/** The gzip adapter as an object (codecs/src/flate/gzip.rs): the fields it updates, step by step. */
module GzipCodec {
  import opened Wrappers
  import opened Progress
  import opened Flate
  import opened Gzip
  import C = Crc

  /** Copies what fits of source[from..] to output[at..]. */
  method CopyInto(source: seq<byte>, from: nat, output: array<byte>, at: nat) returns (n: nat)
    requires from <= |source| && at <= output.Length
    modifies output
    ensures at + n <= output.Length
    ensures output[..at] == old(output[..at])
    ensures output[at..at + n] == Cut(source, from, output.Length - at)
    ensures output[at + n..] == old(output[..])[at + n..]
  {
    n := Min(|source| - from, output.Length - at);
    for i := 0 to n
      invariant output[..at] == old(output[..at])
      invariant output[at..at + i] == source[from..from + i]
      invariant output[at + i..] == old(output[..])[at + i..]
    {
      output[at + i] := source[from + i];
    }
  }

  /** The library stays within the slices it is lent. */
  ghost predicate StaysInBounds<D(!new)>(run: RunFn<D>) {
    forall d, operation, input, capacity ::
      var r := run(d, operation, input, capacity);
      r.Ran? ==> r.consumed <= |input| && |r.bytes| <= capacity
  }

  class GzipEncoder<D(!new)> {
    const deflater: Deflater<D>
    var core: D
    var crc: C.Running
    var headerPos: nat
    var bodyDone: bool
    var trailer: seq<byte>
    var trailerPos: nat

    ghost function View(): GzipState<D>
      reads this
    {
      GzipState(core, crc, headerPos, bodyDone, trailer, trailerPos)
    }

    ghost predicate Valid()
      reads this
    {
      && StaysInBounds(deflater.run)
      && headerPos <= |GZIP_HEADER|
      && |trailer| == 8
      && trailerPos <= 8
    }

    constructor (deflater: Deflater<D>)
      requires StaysInBounds(deflater.run)
      ensures Valid()
      ensures this.deflater == deflater && View() == NewGzip(deflater)
    {
      this.deflater := deflater;
      core := deflater.initial;
      crc := C.EMPTY;
      headerPos := 0;
      bodyDone := false;
      trailer := seq(8, _ => 0);
      trailerPos := 0;
    }

    /** Advances the deflate stream, writing after the first `at` bytes of `output`. */
    method RunCore(operation: Operation, input: seq<byte>, output: array<byte>, at: nat) returns (ran: Ran<D>)
      requires Valid() && at <= output.Length
      modifies this`core, output
      ensures ran == deflater.run(old(core), operation, input, output.Length - at)
      ensures core == ran.next
      ensures output[..at] == old(output[..at])
      ensures ran.Ran? ==> at + |ran.bytes| <= output.Length && output[at..at + |ran.bytes|] == ran.bytes
    {
      ran := deflater.run(core, operation, input, output.Length - at);
      core := ran.next;
      if ran.Ran? {
        var n := CopyInto(ran.bytes, 0, output, at);
      }
    }

    /** Writes more of the trailer after the first `at` bytes of `output`. */
    method PutTrailer(consumed: nat, output: array<byte>, at: nat) returns (result: StepResult)
      requires Valid() && at <= output.Length
      modifies this`trailerPos, output
      ensures Valid()
      ensures var r := Gzip.PutTrailer(old(View()), consumed, old(output[..at]), output.Length);
              && r.Stepped? && |r.bytes| <= output.Length
              && View() == r.next
              && result == StepResult(r.consumed, |r.bytes|, r.state)
              && output[..result.produced] == r.bytes
    {
      var written := CopyInto(trailer, trailerPos, output, at);
      trailerPos := trailerPos + written;
      result := StepResult(consumed, at + written, TrailerState(trailerPos));
      assert output[..at + written] == output[..at] + output[at..at + written];
    }

    /** The deflate body, after the first `at` bytes of `output`, and the start of the trailer when it ends. */
    method StepBody(operation: Operation, input: seq<byte>, output: array<byte>, at: nat)
      returns (result: Option<StepResult>)
      requires Valid() && !bodyDone && at <= output.Length
      modifies this, output
      ensures Valid()
      ensures var ran := deflater.run(old(core), operation, input, output.Length - at);
              var r := Body(old(View()), ran, operation, input, old(output[..at]), output.Length);
              && View() == r.next
              && (result == None <==> r.Backend?)
              && (r.Stepped? ==>
                    && result == Some(StepResult(r.consumed, |r.bytes|, r.state))
                    && |r.bytes| <= output.Length
                    && output[..|r.bytes|] == r.bytes)
    {
      ghost var head := output[..at];
      var ran := RunCore(operation, input, output, at);
      if ran.RunFailed? {
        return None;
      }
      crc := C.Update(crc, input[..ran.consumed]);
      var produced := at + |ran.bytes|;
      assert output[..produced] == head + ran.bytes;
      if operation == Finish && ran.ended {
        bodyDone := true;
        trailer := ComputeTrailer(crc);
        var r := PutTrailer(ran.consumed, output, produced);
        return Some(r);
      }
      result := Some(StepResult(ran.consumed, produced,
                                DeriveState(operation, ran.consumed == |input|, produced == output.Length, false)));
    }

    /** One step, in place. It is the step function of the gzip coding: state, report and bytes. */
    method Step(operation: Operation, input: seq<byte>, output: array<byte>) returns (result: Option<StepResult>)
      requires Valid()
      modifies this, output
      ensures Valid()
      ensures var r := GzipCall(deflater, old(View()), operation, input, output.Length);
              && View() == r.next
              && (result == None <==> r.Backend?)
              && (r.Stepped? ==>
                    && result == Some(StepResult(r.consumed, |r.bytes|, r.state))
                    && |r.bytes| <= output.Length
                    && output[..|r.bytes|] == r.bytes)
    {
      hide Body, Gzip.PutTrailer, StaysInBounds;
      var produced := CopyInto(GZIP_HEADER, headerPos, output, 0);
      assert output[..produced] == output[0..produced];
      headerPos := headerPos + produced;
      if headerPos < |GZIP_HEADER| {
        result := Some(StepResult(0, produced, NeedsOutput));
      } else if bodyDone {
        var r := PutTrailer(0, output, produced);
        result := Some(r);
      } else {
        result := StepBody(operation, input, output, produced);
      }
    }

    /** Back to the state of a new codec, so that a reused codec behaves like a new one in every way. */
    method Reset()
      requires Valid()
      modifies this
      ensures Valid()
      ensures View() == NewGzip(deflater)
    {
      core := deflater.initial;
      crc := C.EMPTY;
      headerPos := 0;
      bodyDone := false;
      trailer := seq(8, _ => 0);
      trailerPos := 0;
    }
  }
}
