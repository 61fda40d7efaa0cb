/**
 * The output half of a request as an object (NgxOutput and the chains it borrows, in
 * module/src/filter/buffer.rs): free, out and busy, relinked in place, and the count that the hard limit
 * is checked against. `View()` is the pool that OutputPool speaks of.
 */
module NgxOutputProvider {
  import opened Wrappers
  import opened OutputPool
  import opened Chains

  /** Which links and buffers a request's output owns, and whose each buffer and each storage is. */
  datatype Estate = Estate(bufs: map<Buf, Link>, arrays: map<array<byte>, Link>, objects: set<object>)

  /** `l` shares its buffer and its storage with no other link of the estate. */
  ghost predicate Own(estate: Estate, l: Link, size: nat) {
    && l.buf in estate.bufs && estate.bufs[l.buf] == l
    && l.buf.data in estate.arrays && estate.arrays[l.buf.data] == l
    && l.buf.data.Length == size
    && l in estate.objects && l.buf in estate.objects && l.buf.data in estate.objects
  }

  ghost predicate OwnAll(estate: Estate, links: seq<Link>, size: nat) {
    forall l {:trigger l in links} :: l in links ==> Own(estate, l, size)
  }

  ghost predicate Closed(estate: Estate) {
    && (forall b {:trigger b in estate.bufs} :: b in estate.bufs ==> b in estate.objects)
    && (forall a {:trigger a in estate.arrays} :: a in estate.arrays ==> a in estate.objects)
  }

  /** The estate with one more link. */
  ghost function Adopt(estate: Estate, l: Link): Estate {
    Estate(estate.bufs[l.buf := l], estate.arrays[l.buf.data := l], estate.objects + {l, l.buf, l.buf.data})
  }

  lemma AdoptKeeps(estate: Estate, l: Link, links: seq<Link>, size: nat)
    requires Closed(estate) && OwnAll(estate, links, size)
    requires l !in estate.objects && l.buf !in estate.objects && l.buf.data !in estate.objects
    requires l.buf.data.Length == size
    ensures Closed(Adopt(estate, l)) && OwnAll(Adopt(estate, l), links, size) && Own(Adopt(estate, l), l, size)
    ensures l !in links
  {
  }

  /** The chain from `head` is `links`, and its buffers hold `packets`. */
  ghost predicate Holding(head: Link?, links: seq<Link>, packets: seq<Packet>, objects: set<object>)
    reads objects
  {
    && (forall l {:trigger l in links} :: l in links ==> l in objects && l.buf in objects && l.buf.data in objects)
    && Chained(head, links)
    && |links| == |packets|
    && forall i {:trigger links[i]} {:trigger packets[i]} :: 0 <= i < |links| ==>
         links[i] in links && HoldsPacket(links[i].buf, packets[i])
  }

  /** The chain from `head` is `links`, and its buffers are being sent as `sending` says. */
  ghost predicate SendingChain(head: Link?, links: seq<Link>, sending: seq<Sending>, objects: set<object>)
    reads objects
  {
    && (forall l {:trigger l in links} :: l in links ==> l in objects && l.buf in objects && l.buf.data in objects)
    && Chained(head, links)
    && |links| == |sending|
    && forall i {:trigger links[i]} {:trigger sending[i]} :: 0 <= i < |links| ==>
         links[i] in links && HoldsSending(links[i].buf, sending[i])
  }

  ghost predicate Linked(head: Link?, links: seq<Link>, objects: set<object>)
    reads set l | l in links
  {
    && (forall l {:trigger l in links} :: l in links ==> l in objects)
    && Chained(head, links)
  }

  /** A larger footprint changes nothing for a chain that lies within the smaller one. */
  lemma HoldingWithin(head: Link?, links: seq<Link>, packets: seq<Packet>, objects: set<object>, more: set<object>)
    requires Holding(head, links, packets, objects)
    ensures Holding(head, links, packets, objects + more)
  {
  }

  lemma SendingWithin(head: Link?, links: seq<Link>, sending: seq<Sending>, objects: set<object>, more: set<object>)
    requires SendingChain(head, links, sending, objects)
    ensures SendingChain(head, links, sending, objects + more)
  {
  }

  lemma OwnMore(estate: Estate, links: seq<Link>, l: Link, size: nat)
    requires OwnAll(estate, links, size) && Own(estate, l, size)
    ensures OwnAll(estate, links + [l], size) && OwnAll(estate, [l] + links, size)
  {
  }

  /** No other link has this one's buffer or storage. */
  lemma OwnApart(estate: Estate, links: seq<Link>, l: Link, size: nat)
    requires OwnAll(estate, links, size) && Own(estate, l, size)
    ensures forall m {:trigger m in links} :: m in links && m != l ==> m.buf != l.buf && m.buf.data != l.buf.data
  {
  }

  lemma DisjointMore(a: seq<Link>, b: seq<Link>, l: Link)
    requires Disjoint(a, b) && l !in b
    ensures Disjoint(a + [l], b) && Disjoint([l] + a, b)
    ensures Disjoint(b, a + [l]) && Disjoint(b, [l] + a)
  {
  }

  lemma HoldingSnoc(head: Link?, links: seq<Link>, packets: seq<Packet>, objects: set<object>, l: Link, packet: Packet)
    requires forall k {:trigger k in links} :: k in links ==> k in objects && k.buf in objects && k.buf.data in objects
    requires l in objects && l.buf in objects && l.buf.data in objects
    requires Chained(head, links + [l])
    requires |links| == |packets|
    requires forall i {:trigger links[i]} :: 0 <= i < |links| ==> HoldsPacket(links[i].buf, packets[i])
    requires HoldsPacket(l.buf, packet)
    ensures Holding(head, links + [l], packets + [packet], objects)
  {
    var links' := links + [l];
    forall i | 0 <= i < |links'|
      ensures links'[i] in links' && HoldsPacket(links'[i].buf, (packets + [packet])[i])
    {
      if i < |links| { assert links'[i] == links[i]; }
    }
  }

  lemma LinkedWithin(head: Link?, links: seq<Link>, objects: set<object>, more: set<object>)
    requires Linked(head, links, objects)
    ensures Linked(head, links, objects + more)
  {
  }

  class NgxOutput {
    const bufferSize: nat
    const bufferCount: nat
    var out: Link?
    var busy: Link?
    var free: Link?
    var allocatedBuffers: nat
    var memory: nat  // what the request pool can still allocate

    ghost var outLinks: seq<Link>
    ghost var busyLinks: seq<Link>
    ghost var freeLinks: seq<Link>
    ghost var packets: seq<Packet>   // what `out` holds
    ghost var sending: seq<Sending>  // what `busy` holds
    ghost var estate: Estate

    ghost function Lim(): Limits {
      Limits(bufferCount, bufferSize)
    }

    ghost predicate Valid()
      reads this, estate.objects
    {
      && this !in estate.objects
      && Closed(estate)
      && OwnAll(estate, outLinks, bufferSize) && OwnAll(estate, busyLinks, bufferSize)
      && OwnAll(estate, freeLinks, bufferSize)
      && Disjoint(outLinks, freeLinks) && Disjoint(outLinks, busyLinks) && Disjoint(busyLinks, freeLinks)
      && Holding(out, outLinks, packets, estate.objects)
      && SendingChain(busy, busyLinks, sending, estate.objects)
      && Linked(free, freeLinks, estate.objects)
    }

    /** The pool as OutputPool speaks of it. */
    ghost function View(): Pool
      reads this
    {
      Pool(|freeLinks|, packets, sending, allocatedBuffers, memory)
    }

    constructor (bufferSize: nat, bufferCount: nat, memory: nat)
      ensures Valid() && estate.objects == {}
      ensures View() == Pool(0, [], [], 0, memory)
      ensures this.bufferSize == bufferSize && this.bufferCount == bufferCount
    {
      this.bufferSize, this.bufferCount, this.memory := bufferSize, bufferCount, memory;
      out, busy, free := null, null, null;
      allocatedBuffers := 0;
      outLinks, busyLinks, freeLinks, packets, sending := [], [], [], [], [];
      estate := Estate(map[], map[], {});
    }

    /** ngx_palloc of something small: one allocation less is left, if any was. */
    method Palloc() returns (ok: bool)
      requires Valid()
      modifies this`memory
      ensures Valid()
      ensures ok == (old(memory) > 0)
      ensures View() == if ok then old(View()).(memory := old(memory) - 1) else old(View())
    {
      hide Holding, SendingChain, Linked, OwnAll, Closed, Disjoint;
      ok := memory > 0;
      if ok {
        memory := memory - 1;
      }
    }

    /** An output link that is in no chain. */
    ghost predicate Loose(l: Link)
      reads this
    {
      Own(estate, l, bufferSize) && l !in outLinks && l !in busyLinks && l !in freeLinks
    }

    /** ngx_chain_get_free_buf, when the free chain has a link. */
    method PopFree() returns (link: Link)
      requires Valid() && free != null
      modifies this`free, this`freeLinks
      ensures Valid()
      ensures old(freeLinks) == [link] + freeLinks
      ensures Loose(link)
    {
      LinkedHead(free, freeLinks, estate.objects);
      hide Holding, SendingChain, Linked;
      link := free;
      LinkedTail(free, freeLinks, estate.objects);
      assert link in freeLinks;
      free := link.next;
      freeLinks := freeLinks[1..];
    }

    static lemma LinkedEmpty(head: Link?, links: seq<Link>, objects: set<object>)
      requires Linked(head, links, objects)
      ensures head == null <==> links == []
    {
    }

    static lemma LinkedHead(head: Link?, links: seq<Link>, objects: set<object>)
      requires Linked(head, links, objects) && head != null
      ensures links != [] && head == links[0]
    {
    }

    static lemma LinkedTail(head: Link?, links: seq<Link>, objects: set<object>)
      requires Linked(head, links, objects) && links != []
      ensures Linked(links[0].next, links[1..], objects)
      ensures links[0] !in links[1..]
      ensures forall l :: l in links[1..] ==> l in links
    {
      ChainedTail(head, links);
      assert forall l :: l in links[1..] ==> l in links;
    }

    /** Takes a new link and its buffer into the estate. */
    ghost method Register(link: Link)
      requires Valid()
      requires link !in estate.objects && link.buf !in estate.objects && link.buf.data !in estate.objects
      requires link.buf.data.Length == bufferSize
      modifies this`estate
      ensures Valid()
      ensures Loose(link)
      ensures estate == Adopt(old(estate), link)
    {
      hide Holding, SendingChain, Linked, OwnAll, Closed, Disjoint;
      AdoptKeeps(estate, link, outLinks, bufferSize);
      AdoptKeeps(estate, link, busyLinks, bufferSize);
      AdoptKeeps(estate, link, freeLinks, bufferSize);
      HoldingWithin(out, outLinks, packets, estate.objects, {link, link.buf, link.buf.data});
      SendingWithin(busy, busyLinks, sending, estate.objects, {link, link.buf, link.buf.data});
      LinkedWithin(free, freeLinks, estate.objects, {link, link.buf, link.buf.data});
      estate := Adopt(estate, link);
      assert Holding(out, outLinks, packets, estate.objects);
      assert SendingChain(busy, busyLinks, sending, estate.objects);
      assert Linked(free, freeLinks, estate.objects);
    }

    /** A new buffer from the request pool. */
    method Allocate() returns (link: Link)
      requires Valid() && memory > 0
      modifies this`memory, this`allocatedBuffers, this`estate
      ensures Valid()
      ensures allocatedBuffers == old(allocatedBuffers) + 1 && memory == old(memory) - 1
      ensures Loose(link)
      ensures fresh(link) && fresh(link.buf) && fresh(link.buf.data)
      ensures estate == Adopt(old(estate), link)
    {
      hide Holding, SendingChain, Linked, OwnAll, Closed, Disjoint;
      memory := memory - 1;
      allocatedBuffers := allocatedBuffers + 1;
      link := NewLink(bufferSize);
      Register(link);
    }

    static method NewLink(size: nat) returns (link: Link)
      ensures fresh(link) && fresh(link.buf) && fresh(link.buf.data)
      ensures link.buf.data.Length == size
    {
      var buf := new Buf(0, size);
      link := new Link(buf);
    }

    /** prepare_output on a loose buffer disturbs no chain. */
    method Prepare(link: Link)
      requires Valid() && Loose(link)
      modifies link.buf
      ensures Valid()
      ensures link.buf.pos == 0 && link.buf.last == 0 && !link.buf.flush && !link.buf.lastBuf
    {
      link.buf.PrepareOutput();
    }

    /** Rewinding a loose buffer disturbs no chain. */
    method RewindLink(link: Link)
      requires Valid() && Loose(link)
      modifies link.buf
      ensures Valid()
    {
      link.buf.Rewind();
    }

    /** A link from the free chain, or a new one. */
    method GetFreeBuf() returns (link: Link)
      requires Valid() && (free != null || memory > 0)
      modifies this`free, this`freeLinks, this`memory, this`allocatedBuffers, this`estate
      ensures Valid() && old(estate.objects) <= estate.objects && fresh(estate.objects - old(estate.objects))
      ensures View() == if old(free) != null then old(View()).(free := old(View()).free - 1)
                        else old(View()).(allocatedBuffers := old(allocatedBuffers) + 1, memory := old(memory) - 1)
      ensures Loose(link)
    {
      hide Holding, SendingChain, Linked, OwnAll, Closed, Disjoint, Own;
      if free != null {
        link := PopFree();
      } else {
        link := Allocate();
      }
    }

    /** free_buf: reuses a free buffer, or allocates one while the limit allows. */
    method FreeBuf() returns (link: Result<Link, OutputFailure>)
      requires Valid()
      modifies this, estate.objects
      ensures Valid() && old(estate.objects) <= estate.objects && fresh(estate.objects - old(estate.objects))
      ensures match TakeBuffer(Lim(), old(View()))
              case Failure(failure) => link == Failure(failure) && View() == old(View())
              case Success(taken) =>
                && link.Success?
                && View() == taken
                && Loose(link.value)
                && link.value.buf.pos == 0 && link.value.buf.last == 0
                && !link.value.buf.flush && !link.value.buf.lastBuf
    {
      LinkedEmpty(free, freeLinks, estate.objects);
      hide Holding, SendingChain, Linked, OwnAll, Closed, Disjoint;
      if free == null && allocatedBuffers >= bufferCount {
        return Failure(Exhausted);
      }
      if free == null && memory == 0 {
        return Failure(Allocation);
      }
      var taken := GetFreeBuf();
      Prepare(taken);
      link := Success(taken);
    }

    /** Links a loose link before the free chain; the other chains are not touched. */
    method LinkBeforeFree(link: Link) returns (head: Link)
      requires Valid() && Loose(link)
      modifies link
      ensures Linked(head, [link] + freeLinks, estate.objects)
      ensures Holding(out, outLinks, packets, estate.objects)
      ensures SendingChain(busy, busyLinks, sending, estate.objects)
    {
      head := Recycle(free, link, freeLinks);
      assert Chained(out, outLinks);
      assert Chained(busy, busyLinks);
    }

    /** recycle: an unused buffer goes back to the front of the free chain. */
    method RecycleLink(link: Link)
      requires Valid() && Loose(link)
      modifies this`free, this`freeLinks, link
      ensures Valid()
      ensures View() == Submit(old(View()), [])
    {
      OwnMore(estate, freeLinks, link, bufferSize);
      DisjointMore(freeLinks, outLinks, link);
      DisjointMore(freeLinks, busyLinks, link);
      hide Holding, SendingChain, Linked, OwnAll, Own, Closed, Disjoint;
      free := LinkBeforeFree(link);
      freeLinks := [link] + freeLinks;
    }

    /** Links a loose link behind the out chain; the other chains, and what buffers hold, are not touched. */
    method LinkBehindOut(link: Link, ghost packet: Packet) returns (head: Link)
      requires Valid() && Loose(link) && HoldsPacket(link.buf, packet)
      modifies estate.objects
      ensures Holding(head, outLinks + [link], packets + [packet], estate.objects)
      ensures SendingChain(busy, busyLinks, sending, estate.objects)
      ensures Linked(free, freeLinks, estate.objects)
    {
      head := Append(out, link, outLinks);
      assert Chained(busy, busyLinks);
      assert Chained(free, freeLinks);
      HoldingSnoc(head, outLinks, packets, estate.objects, link, packet);
    }

    /** append: a filled buffer goes to the end of the out chain. */
    method AppendLink(link: Link, ghost packet: Packet)
      requires Valid() && Loose(link) && HoldsPacket(link.buf, packet)
      modifies this`out, this`outLinks, this`packets, estate.objects
      ensures Valid()
      ensures View() == Submit(old(View()), [packet])
    {
      hide SendingChain, Linked, OwnAll, Closed, Disjoint, HoldsPacket;
      var head := LinkBehindOut(link, packet);
      hide Holding;
      OutSnoc(link);
      out, outLinks, packets := head, outLinks + [link], packets + [packet];
      assert Holding(out, outLinks, packets, estate.objects);
      assert SendingChain(busy, busyLinks, sending, estate.objects);
      assert Linked(free, freeLinks, estate.objects);
    }

    lemma OutSnoc(link: Link)
      requires OwnAll(estate, outLinks, bufferSize) && Loose(link)
      requires Disjoint(outLinks, freeLinks) && Disjoint(outLinks, busyLinks)
      ensures OwnAll(estate, outLinks + [link], bufferSize)
      ensures Disjoint(outLinks + [link], freeLinks) && Disjoint(outLinks + [link], busyLinks)
    {
    }

    /** One byte into a loose buffer's storage disturbs no chain. */
    method WriteByte(link: Link, at: nat, b: byte)
      requires Valid() && Loose(link) && at < bufferSize
      modifies link.buf.data
      ensures Valid()
      ensures link.buf.data[..] == old(link.buf.data[..])[at := b]
    {
      OwnApart(estate, outLinks, link, bufferSize);
      OwnApart(estate, busyLinks, link, bufferSize);
      link.buf.data[at] := b;
      assert Holding(out, outLinks, packets, estate.objects);
      assert SendingChain(busy, busyLinks, sending, estate.objects);
    }

    /** The writable region of a loose buffer takes the bytes a step produced. */
    method Write(link: Link, bytes: seq<byte>)
      requires Valid() && Loose(link) && |bytes| <= bufferSize
      modifies link.buf.data
      ensures Valid()
      ensures link.buf.data[..|bytes|] == bytes
    {
      hide Holding, SendingChain, Linked, OwnAll, Closed, Disjoint;
      for i := 0 to |bytes|
        invariant Valid()
        invariant link.buf.data[..i] == bytes[..i]
      {
        WriteByte(link, i, bytes[i]);
        assert link.buf.data[..i + 1] == link.buf.data[..][..i + 1];
      }
    }

    /** OutputBuffer::commit on a loose, prepared buffer. */
    method CommitLink(link: Link, produced: nat, boundary: Boundary)
      requires Valid() && Loose(link) && produced <= bufferSize
      requires link.buf.pos == 0 && link.buf.last == 0 && !link.buf.flush && !link.buf.lastBuf
      modifies link.buf
      ensures Valid()
      ensures HoldsPacket(link.buf, Packet(link.buf.data[..produced], boundary == FlushBoundary,
                                           boundary == FinishBoundary))
    {
      var ok := link.buf.Commit(produced, boundary);
      assert ok;
      assert Holding(out, outLinks, packets, estate.objects);
      assert SendingChain(busy, busyLinks, sending, estate.objects);
      assert Linked(free, freeLinks, estate.objects);
    }

    // ----- downstream -----

    /** `out` joins `busy`: downstream owns all of it now. */
    method JoinBusy()
      requires Valid()
      modifies this`out, this`busy, this`outLinks, this`busyLinks, this`packets, this`sending, estate.objects
      ensures Valid()
      ensures View() == old(View()).(out := [], busy := old(View()).busy + AllSending(old(View()).out))
    {
      hide Holding, SendingChain, Linked, OwnAll, Disjoint, Closed;
      var head := JoinChains();
      busy, out := head, null;
      RecordJoin();
    }

    /** The ghost half of joining. */
    ghost method RecordJoin()
      requires this !in estate.objects && Closed(estate) && out == null
      requires OwnAll(estate, outLinks, bufferSize) && OwnAll(estate, busyLinks, bufferSize)
      requires OwnAll(estate, freeLinks, bufferSize)
      requires Disjoint(outLinks, freeLinks) && Disjoint(outLinks, busyLinks) && Disjoint(busyLinks, freeLinks)
      requires SendingChain(busy, busyLinks + outLinks, sending + AllSending(packets), estate.objects)
      requires Linked(free, freeLinks, estate.objects)
      modifies this`outLinks, this`busyLinks, this`packets, this`sending
      ensures Valid()
      ensures View() == old(View()).(out := [], busy := old(View()).busy + AllSending(old(View()).out))
    {
      hide Holding, SendingChain, Linked, OwnAll, Disjoint, Closed, AllSending;
      JoinLaid(estate, outLinks, busyLinks, freeLinks, bufferSize);
      busyLinks, outLinks := busyLinks + outLinks, [];
      sending, packets := sending + AllSending(packets), [];
      HoldingNothing(estate.objects);
    }

    static lemma HoldingNothing(objects: set<object>)
      ensures Holding(null, [], [], objects)
    {
    }

    static lemma JoinLaid(estate: Estate, outLinks: seq<Link>, busyLinks: seq<Link>, freeLinks: seq<Link>, size: nat)
      requires OwnAll(estate, outLinks, size) && OwnAll(estate, busyLinks, size)
      requires Disjoint(outLinks, freeLinks) && Disjoint(outLinks, busyLinks) && Disjoint(busyLinks, freeLinks)
      ensures OwnAll(estate, busyLinks + outLinks, size) && OwnAll(estate, [], size)
      ensures Disjoint([], freeLinks) && Disjoint([], busyLinks + outLinks) && Disjoint(busyLinks + outLinks, freeLinks)
    {
    }

    method JoinChains() returns (head: Link?)
      requires Valid()
      modifies estate.objects
      ensures SendingChain(head, busyLinks + outLinks, sending + AllSending(packets), estate.objects)
      ensures Linked(free, freeLinks, estate.objects)
    {
      assert Disjoint(busyLinks, outLinks);
      head := Join(busy, out, busyLinks, outLinks);
      assert Chained(free, freeLinks);
      assert forall i {:trigger busyLinks[i]} :: 0 <= i < |busyLinks| ==> HoldsSending(busyLinks[i].buf, sending[i]);
      assert forall i {:trigger outLinks[i]} :: 0 <= i < |outLinks| ==> HoldsPacket(outLinks[i].buf, packets[i]);
      SendingJoined(head, busyLinks, outLinks, sending, packets, estate.objects);
    }

    static lemma SendingJoined(head: Link?, busyLinks: seq<Link>, outLinks: seq<Link>, sending: seq<Sending>,
                               packets: seq<Packet>, objects: set<object>)
      requires Chained(head, busyLinks + outLinks)
      requires |busyLinks| == |sending| && |outLinks| == |packets|
      requires forall l {:trigger l in busyLinks} :: l in busyLinks ==>
                 l in objects && l.buf in objects && l.buf.data in objects
      requires forall l {:trigger l in outLinks} :: l in outLinks ==>
                 l in objects && l.buf in objects && l.buf.data in objects
      requires forall i {:trigger busyLinks[i]} :: 0 <= i < |busyLinks| ==> HoldsSending(busyLinks[i].buf, sending[i])
      requires forall i {:trigger outLinks[i]} :: 0 <= i < |outLinks| ==> HoldsPacket(outLinks[i].buf, packets[i])
      ensures SendingChain(head, busyLinks + outLinks, sending + AllSending(packets), objects)
    {
      var links, all := busyLinks + outLinks, sending + AllSending(packets);
      forall i | 0 <= i < |links| ensures links[i] in links && HoldsSending(links[i].buf, all[i]) {
        if i < |busyLinks| {
          assert links[i] == busyLinks[i];
        } else {
          assert links[i] == outLinks[i - |busyLinks|];
        }
      }
    }

    /** Moves busy buffer i on to where `keep` bytes are left; nothing else is touched. */
    method MovePos(link: Link, ghost i: nat, keep: nat)
      requires Valid() && i < |busyLinks| && link == busyLinks[i] && keep <= sending[i].left
      modifies link.buf
      ensures Holding(out, outLinks, packets, estate.objects)
      ensures Linked(free, freeLinks, estate.objects)
      ensures SendingChain(busy, busyLinks, sending[i := sending[i].(left := keep)], estate.objects)
    {
      assert link in busyLinks && HoldsSending(link.buf, sending[i]);
      OwnApart(estate, outLinks, link, bufferSize);
      OwnApart(estate, busyLinks, link, bufferSize);
      hide OwnAll, Own, Closed;
      link.buf.pos := link.buf.last - keep;
      assert forall j {:trigger busyLinks[j]} :: 0 <= j < |busyLinks| && j != i ==> busyLinks[j] != link;
    }

    /** Downstream sends some of busy buffer i, down to `keep` bytes. */
    method TransmitOne(link: Link, ghost i: nat, keep: nat)
      requires Valid() && i < |busyLinks| == |sending| && link == busyLinks[i] && keep <= sending[i].left
      requires link.buf in estate.objects
      modifies link.buf, this`sending
      ensures Valid()
      ensures sending == old(sending)[i := old(sending)[i].(left := keep)]
    {
      hide Holding, SendingChain, Linked, OwnAll, Own, Closed, Disjoint;
      MovePos(link, i, keep);
      sending := sending[i := sending[i].(left := keep)];
    }

    static lemma SendingAt(head: Link?, links: seq<Link>, sending: seq<Sending>, objects: set<object>, i: nat)
      requires SendingChain(head, links, sending, objects) && i < |links|
      ensures |links| == |sending| && links[i] in links && links[i] in objects && links[i].buf in objects
      ensures links[i].buf.pos <= links[i].buf.last && links[i].buf.last - links[i].buf.pos == sending[i].left
      ensures links[i].next == if i + 1 < |links| then links[i + 1] else null
    {
      assert HoldsSending(links[i].buf, sending[i]);
      assert links[i].next == links[i].next;
    }

    static lemma SendingHead(head: Link?, links: seq<Link>, sending: seq<Sending>, objects: set<object>)
      requires SendingChain(head, links, sending, objects)
      ensures |links| == |sending| && head == if links == [] then null else links[0]
      ensures head != null ==> head in objects && head.buf in objects
                               && head.buf.pos <= head.buf.last && head.buf.last - head.buf.pos == sending[0].left
    {
      if links != [] {
        SendingAt(head, links, sending, objects, 0);
      }
    }

    static lemma SendOne(busy: seq<Sending>, left: nat -> nat, i: nat)
      requires i < |busy|
      ensures var before, after := Send(busy, left)[..i] + busy[i..], Send(busy, left)[..i + 1] + busy[i + 1..];
              && |before| == |busy| && before[i] == busy[i]
              && after == before[i := busy[i].(left := Min(busy[i].left, left(i)))]
    {
    }

    /** Downstream sends what it likes of what it holds. */
    method Transmit(left: nat -> nat)
      requires Valid()
      modifies this`sending, estate.objects
      ensures Valid()
      ensures View() == old(View()).(busy := Send(old(View()).busy, left))
    {
      hide Holding, SendingChain, Linked, OwnAll, Closed, Disjoint, Send;
      SendingHead(busy, busyLinks, sending, estate.objects);
      var link := busy;
      var i := 0;
      ghost var s0 := sending;
      while link != null
        invariant Valid()
        invariant 0 <= i <= |busyLinks| == |sending| && link == if i < |busyLinks| then busyLinks[i] else null
        invariant sending == Send(s0, left)[..i] + s0[i..]
        decreases |busyLinks| - i
      {
        SendingAt(busy, busyLinks, sending, estate.objects, i);
        TransmitOne(link, i, Min(link.buf.last - link.buf.pos, left(i)));
        SendingAt(busy, busyLinks, sending, estate.objects, i);
        SendOne(s0, left, i);
        link := link.next;
        i := i + 1;
      }
      assert Send(s0, left)[..i] + s0[i..] == Send(s0, left);
    }

    /** A spent buffer leaves the front of busy for the front of free, with the marks it had:
        it is free_buf that clears them. */
    method ReclaimOne()
      requires Valid() && busy != null
      modifies this`busy, this`busyLinks, this`sending, this`free, this`freeLinks, estate.objects
      ensures Valid()
      ensures |old(View()).busy| > 0
      ensures View() == old(View()).(free := old(View()).free + 1, busy := old(View()).busy[1..])
    {
      hide Holding, SendingChain, Linked, OwnAll, Closed, Disjoint;
      SendingHead(busy, busyLinks, sending, estate.objects);
      var link := PopBusy();
      RewindLink(link);
      RecycleLink(link);
    }

    /** The second half of ngx_chain_update_chains: the spent prefix of busy becomes free. */
    method Reclaim()
      requires Valid()
      modifies this`busy, this`busyLinks, this`sending, this`free, this`freeLinks, estate.objects
      ensures Valid()
      ensures var p, n := old(View()), Spent(old(View()).busy);
              View() == p.(free := p.free + n, busy := p.busy[n..])
    {
      hide Holding, SendingChain, Linked, OwnAll, Closed, Disjoint;
      SendingHead(busy, busyLinks, sending, estate.objects);
      ghost var p, i := View(), 0;
      while busy != null && busy.buf.last == busy.buf.pos
        invariant Valid()
        invariant 0 <= i <= |p.busy| && View() == p.(free := p.free + i, busy := p.busy[i..])
        invariant i + Spent(p.busy[i..]) == Spent(p.busy)
        invariant busy == null <==> p.busy[i..] == []
        invariant busy != null ==> busy.buf.last - busy.buf.pos == p.busy[i].left
        decreases |p.busy| - i
      {
        ReclaimOne();
        SendingHead(busy, busyLinks, sending, estate.objects);
        assert p.busy[i..][1..] == p.busy[i + 1..];
        i := i + 1;
      }
    }

    /** Downstream takes `out`, sends what it likes of all it holds, and ngx_chain_update_chains reclaims. */
    method Deliver(left: nat -> nat)
      requires Valid()
      modifies this, estate.objects
      ensures Valid() && estate == old(estate)
      ensures View() == UpdateChains(old(View()), left)
    {
      assert this !in estate.objects;
      hide Valid, Send, Spent, AllSending, UpdateChains;
      ghost var p := View();
      JoinBusy();
      Transmit(left);
      Reclaim();
      Delivered(p, View(), left);
    }

    static lemma Delivered(p: Pool, p': Pool, left: nat -> nat)
      requires var busy := Send(p.busy + AllSending(p.out), left);
               p' == p.(free := p.free + Spent(busy), out := [], busy := busy[Spent(busy)..])
      ensures p' == UpdateChains(p, left)
    {
    }

    method PopBusy() returns (link: Link)
      requires Valid() && busy != null
      modifies this`busy, this`busyLinks, this`sending
      ensures Valid() && Loose(link)
      ensures |old(busyLinks)| > 0 && link == old(busyLinks)[0]
      ensures busyLinks == old(busyLinks)[1..] && sending == old(sending)[1..]
    {
      link := busy;
      SendingTail(busy, busyLinks, sending, estate.objects);
      hide Holding, SendingChain, Linked;
      busy := link.next;
      busyLinks := busyLinks[1..];
      sending := sending[1..];
    }

    static lemma SendingTail(head: Link?, links: seq<Link>, sending: seq<Sending>, objects: set<object>)
      requires SendingChain(head, links, sending, objects) && head != null
      ensures links != [] && head == links[0] && |sending| == |links|
      ensures head.buf.last - head.buf.pos == sending[0].left
      ensures SendingChain(links[0].next, links[1..], sending[1..], objects)
      ensures links[0] in links && links[0] !in links[1..]
      ensures forall l :: l in links[1..] ==> l in links
    {
      ChainedTail(head, links);
      assert HoldsSending(links[0].buf, sending[0]);
      forall i | 0 <= i < |links| - 1 ensures HoldsSending(links[1..][i].buf, sending[1..][i]) {
        assert HoldsSending(links[i + 1].buf, sending[i + 1]);
      }
    }
  }
}
