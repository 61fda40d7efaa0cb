/** The gzip coding over a concrete stream: no hypothesis about a library left. */
module StoredGzip {
  import opened Wrappers
  import opened OutputPool
  import opened Filter
  import opened FilterRuns
  import opened FilterGate
  import opened Gzip
  import C = Crc
  import StoredBlocks

  function Reader(): seq<byte> -> Option<seq<byte>> {
    (s: seq<byte>) => StoredBlocks.Inflate(s)
  }

  /** Gzip over stored blocks, through the filter, over every finished run: what the filter put on the wire reads
      back as the arrived bytes, and so does all that is on the wire if and only if late buffers add no byte. */
  lemma {:induction false} StoredGzipRoundTrip(limits: Limits, memory: nat, others: set<nat>, events: seq<Event>)
    ensures var core := StoredBlocks.StoredDeflater();
            var start := Start(NewGzip(core), memory, others);
            var w := Run(GzipStep(core), limits, start, events);
            var past := w.ctx.past;
            !w.failed && w.ctx.done ==>
              && 0 < |past.closed| <= |past.arrived|
              && var data := Bytes(past.arrived[..|past.closed|]);
              && Gunzip(Reader(), Wire(past.handed)) == Some(data)
              && (Gunzip(Reader(), Wire(Received(past))) == Some(data) <==>
                    Bytes(Late(GzipStep(core), limits, start, events)) == [])
  {
    var core := StoredBlocks.StoredDeflater();
    StoredBlocks.StoredIsZlib();
    GzipOverTheWire(core, limits, memory, others, events);
    var start := Start(NewGzip(core), memory, others);
    var w := Run(GzipStep(core), limits, start, events);
    if !w.failed && w.ctx.done {
      var data := Bytes(w.ctx.past.arrived[..|w.ctx.past.closed|]);
      var body := core.emitted(w.ctx.codec.core);
      assert core.inflate(body) == StoredBlocks.Inflate(body);
      hide Run, Late, Frame, Gunzip, GzipStep, StoredBlocks.StoredDeflater, StoredBlocks.Inflate, Bytes;
      FrameReadsAlone(body, data, Bytes(Late(GzipStep(core), limits, start, events)));
    }
  }

  /** The reader accepts the frame, and nothing longer. */
  lemma FrameReadsAlone(body: seq<byte>, data: seq<byte>, more: seq<byte>)
    requires StoredBlocks.Inflate(body) == Some(data)
    ensures Gunzip(Reader(), Frame(body, data)) == Some(data)
    ensures Gunzip(Reader(), Frame(body, data) + more) == Some(data) <==> more == []
  {
    GunzipFrame(Reader(), body, data);
    var frame := Frame(body, data);
    if more == [] {
      assert frame + more == frame;
    } else {
      var excess := BodyOfLonger(body, data, more);
      hide Frame;
      StoredBlocks.InflateIsExact(body, excess);
      hide C.Crc32, C.FromLe32, StoredBlocks.Inflate;
      assert Reader()(body + excess) == None;
    }
  }

  /** Where the reader looks for the body of a frame with more behind it. */
  lemma BodyOfLonger(body: seq<byte>, data: seq<byte>, more: seq<byte>) returns (excess: seq<byte>)
    ensures var s := Frame(body, data) + more;
            |s| >= 18 && s[10..|s| - 8] == body + excess && |excess| == |more|
  {
    var trailer := C.Le32(C.Crc32(data)) + C.Le32(|data| % C.WORD);
    assert Frame(body, data) == GZIP_HEADER + body + trailer;
    hide Frame, C.Le32, C.Crc32;
    excess := (trailer + more)[..|more|];
    var s := GZIP_HEADER + body + trailer + more;
    assert s[10..|s| - 8] == body + excess;
  }
}
