/** NGINX buffers and chain links as objects, and the chain surgery of module/src/filter/buffer.rs. */
module Chains {
  import opened Wrappers
  import opened OutputPool
  import opened Filter

  /** ngx_buf_t: a window `pos..last` into its storage, and its marks. `addr` is the buffer's address. */
  class Buf {
    const addr: nat
    const data: array<byte>
    var pos: nat
    var last: nat
    var temporary: bool
    var flush: bool
    var sync: bool
    var lastBuf: bool
    var lastInChain: bool

    constructor (addr: nat, size: nat)
      ensures fresh(data) && data.Length == size && this.addr == addr
    {
      this.addr := addr;
      data := new byte[size];
      pos, last := 0, 0;
      temporary, flush, sync, lastBuf, lastInChain := false, false, false, false, false;
    }

    /** prepare_output: nothing of an earlier use is left on a reused buffer. */
    method PrepareOutput()
      modifies this
      ensures pos == 0 && last == 0 && temporary
      ensures !flush && !sync && !lastBuf && !lastInChain
    {
      pos, last := 0, 0;
      temporary, flush, sync, lastBuf, lastInChain := true, false, false, false, false;
    }

    /** ngx_chain_update_chains on a spent buffer: its positions go back to its start, its marks stay. */
    method Rewind()
      modifies this`pos, this`last
      ensures pos == 0 && last == 0
    {
      pos, last := 0, 0;
    }

    /** OutputBuffer::commit: the bytes a step wrote, and the mark of the boundary it completed, only that one.
        A count past the writable region is refused, and changes nothing. */
    method Commit(produced: nat, boundary: Boundary) returns (ok: bool)
      modifies this`last, this`flush, this`lastBuf
      ensures ok <==> old(last) + produced <= data.Length
      ensures last == if ok then old(last) + produced else old(last)
      ensures flush == (old(flush) || (ok && boundary == FlushBoundary))
      ensures lastBuf == (old(lastBuf) || (ok && boundary == FinishBoundary))
    {
      ok := last + produced <= data.Length;
      if !ok {
        return;
      }
      last := last + produced;
      match boundary
      case NoBoundary =>
      case FlushBoundary => flush := true;
      case FinishBoundary => lastBuf := true;
    }
  }

  /** ngx_chain_t. */
  class Link {
    const buf: Buf
    var next: Link?

    constructor (buf: Buf)
      ensures this.buf == buf && next == null
    {
      this.buf := buf;
      next := null;
    }
  }

  /** `links` are the links from `head` to the end, each one once. */
  ghost predicate Chained(head: Link?, links: seq<Link>)
    reads set l | l in links
  {
    && (head == if links == [] then null else links[0])
    && (forall i {:trigger links[i].next} :: 0 <= i < |links| ==>
          links[i].next == if i + 1 < |links| then links[i + 1] else null)
    && Distinct(links)
  }

  ghost predicate Distinct(links: seq<Link>) {
    forall i, j :: 0 <= i < j < |links| ==> links[i] != links[j]
  }

  ghost predicate Disjoint(a: seq<Link>, b: seq<Link>) {
    forall l :: l in a ==> l !in b
  }

  lemma ChainedTail(head: Link?, links: seq<Link>)
    requires Chained(head, links) && links != []
    ensures Chained(links[0].next, links[1..])
  {
    forall i | 0 <= i < |links| - 1
      ensures links[1..][i].next == if i + 1 < |links| - 1 then links[1..][i + 1] else null
    {
      assert links[1..][i] == links[i + 1];
    }
  }

  /** append: walks to the tail and links there. */
  method Append(head: Link?, link: Link, ghost links: seq<Link>) returns (newHead: Link)
    requires Chained(head, links) && link !in links
    modifies links, link
    ensures Chained(newHead, links + [link])
  {
    link.next := null;
    if head == null {
      newHead := link;
    } else {
      var tail: Link := head;
      ghost var i := 0;
      while tail.next != null
        invariant 0 <= i < |links| && tail == links[i]
        invariant Chained(head, links) && link.next == null
        decreases |links| - i
      {
        tail := tail.next;
        i := i + 1;
      }
      assert i == |links| - 1;
      tail.next := link;
      newHead := head;
    }
  }

  /** The first half of ngx_chain_update_chains: one chain behind another. */
  method Join(head: Link?, tailHead: Link?, ghost links: seq<Link>, ghost tailLinks: seq<Link>) returns (newHead: Link?)
    requires Chained(head, links) && Chained(tailHead, tailLinks) && Disjoint(links, tailLinks)
    modifies links
    ensures Chained(newHead, links + tailLinks)
  {
    if head == null {
      newHead := tailHead;
      assert links + tailLinks == tailLinks;
    } else {
      var tail: Link := head;
      ghost var i := 0;
      while tail.next != null
        invariant 0 <= i < |links| && tail == links[i]
        invariant Chained(head, links)
        decreases |links| - i
      {
        tail := tail.next;
        i := i + 1;
      }
      assert i == |links| - 1;
      tail.next := tailHead;
      newHead := head;
      JoinedDistinct(links, tailLinks);
      assert forall j {:trigger tailLinks[j].next} :: 0 <= j < |tailLinks| ==> tailLinks[j] in tailLinks;
      ghost var all := links + tailLinks;
      forall j | 0 <= j < |all|
        ensures all[j].next == if j + 1 < |all| then all[j + 1] else null
      {
        if j >= |links| { assert all[j] == tailLinks[j - |links|]; }
      }
    }
  }

  lemma JoinedDistinct(a: seq<Link>, b: seq<Link>)
    requires Distinct(a) && Distinct(b) && Disjoint(a, b)
    ensures Distinct(a + b)
  {
    var all := a + b;
    forall i, j | 0 <= i < j < |all| ensures all[i] != all[j] {
      if i < |a| <= j {
        assert all[i] in a && all[j] in b;
      }
    }
  }

  /** recycle: back to the front of the free chain. */
  method Recycle(head: Link?, link: Link, ghost links: seq<Link>) returns (newHead: Link)
    requires Chained(head, links) && link !in links
    modifies link
    ensures Chained(newHead, [link] + links)
  {
    link.next := head;
    newHead := link;
  }

  // ----- what buffers hold -----

  /** What downstream sees of an output buffer. */
  ghost function PacketOf(b: Buf): Packet
    requires b.last <= b.data.Length
    reads b, b.data
  {
    Packet(b.data[..b.last], b.flush, b.lastBuf)
  }

  /** The buffers are within their storage, with no position crossed. */
  ghost predicate InBounds(b: Buf)
    reads b
  {
    b.pos <= b.last <= b.data.Length
  }

  /** An output buffer filled in this callback. */
  ghost predicate HoldsPacket(b: Buf, packet: Packet)
    reads b, b.data
  {
    InBounds(b) && b.pos == 0 && PacketOf(b) == packet
  }

  /** An output buffer downstream is sending. */
  ghost predicate HoldsSending(b: Buf, sending: Sending)
    reads b, b.data
  {
    InBounds(b) && PacketOf(b) == sending.packet && b.last - b.pos == sending.left
  }

  /** An input buffer as the filter reads it; crossed positions make it unsound. */
  ghost function InBufOf(b: Buf): InBuf
    requires b.last <= b.data.Length
    reads b, b.data
  {
    InBuf(b.addr,
          if b.pos <= b.last then b.data[b.pos..b.last] else [],
          b.lastBuf, b.flush, b.lastInChain,
          b.pos <= b.last)
  }

  ghost predicate HoldsInput(b: Buf, input: InBuf)
    reads b, b.data
  {
    b.last <= b.data.Length && InBufOf(b) == input
  }
}
