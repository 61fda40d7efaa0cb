/**
 * The request context as an object (RequestCtx in module/src/filter/buffer.rs and runtime.rs). Every method
 * is proved to do to `View()` what Filter's function of the same name does to a context value.
 */
module RequestContext {
  import opened Wrappers
  import opened Progress
  import opened Codec
  import opened OutputPool
  import opened Stream
  import opened Filter
  import opened Chains
  import opened NgxOutputProvider
  import L = Liveness

  /** The input chain from `head` is `links`, the filter's own nodes, over distinct lent buffers that hold `queue`. */
  ghost predicate Queue(head: Link?, links: seq<Link>, queue: seq<InBuf>, nodes: set<object>, objects: set<object>)
    reads nodes, objects
  {
    && (forall l {:trigger l in links} :: l in links ==> l in nodes && l.buf in objects && l.buf.data in objects)
    && Chained(head, links)
    && (forall i, j :: 0 <= i < j < |links| ==> links[i].buf != links[j].buf)
    && |links| == |queue|
    && forall i {:trigger links[i]} {:trigger queue[i]} :: 0 <= i < |links| ==>
         links[i] in links && HoldsInput(links[i].buf, queue[i])
  }

  class RequestCtx<S(!new)> {
    const step: StepFn<S>
    const output: NgxOutput
    var codec: S
    var input: Link?
    var pendingOperation: Option<Operation>
    var done: bool

    ghost var inputLinks: seq<Link>
    ghost var queue: seq<InBuf>
    ghost var inputNodes: set<object>    // links of the input chain, past and present
    ghost var inputObjects: set<object>  // buffers and storage lent by upstream
    ghost var past: Past

    ghost function View(): Ctx<S>
      reads this, output
    {
      Ctx(codec, queue, pendingOperation, done, output.View(), past)
    }

    ghost function Lim(): Limits {
      output.Lim()
    }

    /** The input side, the output side and the context share nothing. */
    ghost predicate Apart()
      reads this, output
    {
      && this !in output.estate.objects && this !in inputNodes && this !in inputObjects
      && output !in inputNodes && output !in inputObjects
      && output.estate.objects !! inputNodes && output.estate.objects !! inputObjects && inputNodes !! inputObjects
    }

    ghost predicate Valid()
      reads this, output, output.estate.objects, inputNodes, inputObjects
    {
      && Apart()
      && output.Valid()
      && Queue(input, inputLinks, queue, inputNodes, inputObjects)
    }

    /** RequestCtx::install. */
    constructor (step: StepFn<S>, codec: S, bufferSize: nat, bufferCount: nat, memory: nat)
      ensures Valid() && fresh(output)
      ensures View() == Install(codec, memory)
      ensures this.step == step && Lim() == Limits(bufferCount, bufferSize)
    {
      this.step, this.codec := step, codec;
      output := new NgxOutput(bufferSize, bufferCount, memory);
      input, pendingOperation, done := null, None, false;
      inputLinks, queue, inputNodes, inputObjects, past := [], [], {}, {}, Past([], [], [], [], []);
    }

    /** What the driver works on. */
    ghost function Machine(): Machine<S>
      reads this, output
    {
      Stream.Machine(codec, output.View(), past.open)
    }

    /** with_output around checked_step: takes a buffer, steps the codec into it, and emits or recycles it. */
    method TryStep(operation: Operation, offered: seq<byte>) returns (r: Result<StepRecord, DriveError>)
      requires Valid()
      modifies this`codec, this`past, output, output.estate.objects
      ensures Valid() && output.estate.objects >= old(output.estate.objects)
      ensures fresh(output.estate.objects - old(output.estate.objects))
      ensures past == old(past).(open := past.open)
      ensures match Stream.TryStep(step, Lim(), old(Machine()), operation, offered)
              case NoBuffer(failure) => r == Failure(OutputFailed(failure)) && Machine() == old(Machine())
              case Refused(m, error) => r == Failure(StepFailed(error)) && Machine() == m
              case Stepped(m, record) => r == Success(record) && Machine() == m
    {
      assert Apart();
      hide Valid, Apart, CheckedStep, Emission, TakeBuffer, Submit;
      var free := TakeFree();
      if free.Failure? {
        return Failure(OutputFailed(free.error));
      }
      r := StepInto(free.value, operation, offered);
    }

    /** checked_step into a prepared buffer, and what becomes of the buffer. */
    method StepInto(link: Link, operation: Operation, offered: seq<byte>) returns (r: Result<StepRecord, DriveError>)
      requires Valid() && Prepared(link)
      modifies this`codec, this`past, output, output.estate.objects
      ensures Valid() && output.estate == old(output.estate)
      ensures past == old(past).(open := past.open)
      ensures var m := old(Machine());
              match CheckedStep(step, m.codec, operation, offered, Lim().bufferSize)
              case Rejected(after, error) =>
                r == Failure(StepFailed(error)) && Machine() == Stream.Machine(after, Submit(m.pool, []), m.steps)
              case Accepted(next, consumed, bytes, state) =>
                var record := StepRecord(operation, offered, Lim().bufferSize, consumed, bytes, state);
                && r == Success(record)
                && Machine() == Stream.Machine(next, Submit(m.pool, Emission(operation, bytes, state)),
                                               m.steps + [record])
    {
      assert Apart();
      hide Valid, Apart, ValidateProgress, Emission, Submit;
      match CheckedStep(step, codec, operation, offered, output.bufferSize)
      case Rejected(after, error) =>
        Refuse(link, after);
        return Failure(StepFailed(error));
      case Accepted(next, consumed, bytes, state) =>
        var record := StepRecord(operation, offered, output.bufferSize, consumed, bytes, state);
        Accept(link, next, record);
        return Success(record);
    }

    /** free_buf: the rest of the context is not touched. */
    method TakeFree() returns (link: Result<Link, OutputFailure>)
      requires Valid()
      modifies output, output.estate.objects
      ensures Valid() && output.estate.objects >= old(output.estate.objects)
      ensures fresh(output.estate.objects - old(output.estate.objects))
      ensures match TakeBuffer(Lim(), old(output.View()))
              case Failure(failure) => link == Failure(failure) && output.View() == old(output.View())
              case Success(taken) => link.Success? && output.View() == taken && Prepared(link.value)
    {
      hide NgxOutput.Valid, Queue, TakeBuffer;
      link := output.FreeBuf();
    }

    /** In no chain, empty, and without a mark. */
    ghost predicate Prepared(link: Link)
      reads output, link.buf
    {
      && output.Loose(link)
      && link.buf.pos == 0 && link.buf.last == 0 && !link.buf.flush && !link.buf.lastBuf
    }

    /** A step the contract refuses leaves its buffer unused. */
    method Refuse(link: Link, after: S)
      requires Valid() && Prepared(link)
      modifies this`codec, output, output.estate.objects
      ensures Valid() && output.estate == old(output.estate)
      ensures codec == after && output.View() == Submit(old(output.View()), [])
    {
      hide NgxOutput.Valid, Queue, Submit;
      codec := after;
      output.RecycleLink(link);
    }

    /** An accepted step: its buffer is emitted or unused, and its record kept. */
    method Accept(link: Link, next: S, record: StepRecord)
      requires Valid() && Prepared(link) && |record.produced| <= output.bufferSize
      modifies this`codec, this`past, output, output.estate.objects
      ensures Valid() && output.estate == old(output.estate)
      ensures codec == next && past == old(past).(open := old(past).open + [record])
      ensures output.View() == Submit(old(output.View()), Emission(record.operation, record.produced, record.state))
    {
      hide NgxOutput.Valid, Queue, Submit, Emission;
      Emit(link, record.operation, record.produced, record.state);
      Keep(next, record);
    }

    method Keep(next: S, record: StepRecord)
      requires Valid()
      modifies this`codec, this`past
      ensures Valid() && codec == next && past == old(past).(open := old(past).open + [record])
    {
      hide NgxOutput.Valid, Queue;
      codec := next;
      past := past.(open := past.open + [record]);
    }

    /** What the driver's action does with the buffer: commit and append it, or recycle it. */
    method Emit(link: Link, operation: Operation, bytes: seq<byte>, state: StepState)
      requires Valid() && Prepared(link) && |bytes| <= output.bufferSize
      modifies output, output.estate.objects
      ensures Valid() && output.estate == old(output.estate)
      ensures output.View() == Submit(old(output.View()), Emission(operation, bytes, state))
    {
      hide NgxOutput.Valid, Queue;
      var boundary := BoundaryOf(operation, state);
      if |bytes| > 0 || boundary != NoBoundary {
        output.Write(link, bytes);
        output.CommitLink(link, |bytes|, boundary);
        output.AppendLink(link, Packet(bytes, boundary == FlushBoundary, boundary == FinishBoundary));
      } else {
        output.RecycleLink(link);
      }
    }

    /** drive_input over one buffer's bytes. */
    method DriveInput(operation: Operation, bytes: seq<byte>, budget: WorkBudget)
      returns (result: DriveResult, left: WorkBudget)
      requires Valid()
      modifies this`codec, this`past, output, output.estate.objects
      ensures Valid() && output.estate.objects >= old(output.estate.objects)
      ensures fresh(output.estate.objects - old(output.estate.objects))
      ensures past == old(past).(open := past.open)
      ensures var d := DriveFrom(step, Lim(), old(Machine()), operation, bytes, 0, budget);
              result == d.result && left == d.budget && Machine() == d.machine
    {
      hide Apart, NgxOutput.Valid, Queue, Stream.TryStep;
      var offset: nat := 0;
      left := budget;
      while true
        invariant Valid() && output.estate.objects >= old(output.estate.objects)
        invariant fresh(output.estate.objects - old(output.estate.objects))
        invariant past == old(past).(open := past.open)
        invariant offset <= |bytes|
        invariant DriveFrom(step, Lim(), Machine(), operation, bytes, offset, left)
               == DriveFrom(step, Lim(), old(Machine()), operation, bytes, 0, budget)
        decreases left.codecSteps
      {
        if !left.CanStep(offset < |bytes|) {
          return Outcome(offset, BudgetExhausted), left;
        }
        var end := offset + left.InputLimit(|bytes| - offset);
        var shown := ShownOperation(operation, bytes, end);
        var stepped := TryStep(shown, bytes[offset..end]);
        if stepped.Failure? {
          return DriveFailure(offset, stepped.error), left;
        }
        var record := stepped.value;
        offset := offset + record.consumed;
        left := left.RecordStep(record.consumed);
        match BoundaryOf(shown, record.state)
        case FinishBoundary => return Outcome(offset, Finished), left;
        case FlushBoundary => return Outcome(offset, Flushed), left;
        case NoBoundary =>
          if record.state == NeedsInput && offset == |bytes| {
            return Outcome(offset, InputTaken), left;
          }
      }
    }

    // ----- the input queue -----

    /** Whether the buffer at `addr` is already queued. */
    method IsQueued(addr: nat) returns (found: bool)
      requires Valid()
      ensures found == Queued(queue, addr)
    {
      var link := input;
      ghost var i := 0;
      while link != null
        invariant 0 <= i <= |inputLinks| == |queue| && link == if i < |inputLinks| then inputLinks[i] else null
        invariant forall j :: 0 <= j < i ==> queue[j].addr != addr
        decreases |inputLinks| - i
      {
        assert HoldsInput(inputLinks[i].buf, queue[i]);
        if link.buf.addr == addr {
          assert queue[i].addr == addr;
          return true;
        }
        assert link.next == if i + 1 < |inputLinks| then inputLinks[i + 1] else null;
        link := link.next;
        i := i + 1;
      }
      return false;
    }

    /** The upstream buffer as the queue will hold it, within the objects upstream lends. */
    static ghost predicate Lent(b: Buf, upstream: InBuf, objects: set<object>)
      reads objects
    {
      b in objects && b.data in objects && HoldsInput(b, upstream)
    }

    /** What upstream lends with a buffer lies apart from everything of the filter's own. */
    ghost predicate Clear(objects: set<object>)
      reads this, output
    {
      && objects !! output.estate.objects && objects !! inputNodes
      && this !in objects && output !in objects
    }

    /** Copies one chain link behind the queue; the buffer's storage is not copied. */
    method PushInput(buf: Buf, ghost b: InBuf, ghost objects: set<object>)
      requires Valid() && Lent(buf, b, objects) && !Queued(queue, b.addr) && Clear(objects)
      modifies this`input, this`inputLinks, this`queue, this`inputNodes, this`inputObjects, this`past, inputNodes
      ensures Valid() && Clear(objects)
      ensures queue == old(queue) + [b] && past == old(past).(arrived := old(past).arrived + [b])
      ensures inputObjects == old(inputObjects) + objects
      ensures inputNodes >= old(inputNodes) && fresh(inputNodes - old(inputNodes))
    {
      hide NgxOutput.Valid, Queue, Lent, Queued;
      var link := new Link(buf);
      var head := LinkBehindInput(link, b, objects);
      input := head;
      inputLinks := inputLinks + [link];
      queue := queue + [b];
      inputNodes := inputNodes + {link};
      inputObjects := inputObjects + objects;
      past := past.(arrived := past.arrived + [b]);
    }

    method LinkBehindInput(link: Link, ghost b: InBuf, ghost objects: set<object>) returns (head: Link)
      requires Valid() && Lent(link.buf, b, objects) && !Queued(queue, b.addr) && Clear(objects)
      requires link !in inputNodes && link !in inputObjects && link !in objects
      modifies link, inputNodes
      ensures Queue(head, inputLinks + [link], queue + [b], inputNodes + {link}, inputObjects + objects)
    {
      assert forall i {:trigger inputLinks[i]} :: 0 <= i < |inputLinks| ==>
          && HoldsInput(inputLinks[i].buf, queue[i])
          && inputLinks[i].buf.addr == queue[i].addr && inputLinks[i].buf != link.buf;
      head := Append(input, link, inputLinks);
      assert forall i {:trigger inputLinks[i]} :: 0 <= i < |inputLinks| ==> HoldsInput(inputLinks[i].buf, queue[i]);
      QueueSnoc(head, inputLinks, queue, link, b, inputNodes + {link}, inputObjects + objects);
    }

    static lemma QueueSnoc(head: Link?, links: seq<Link>, queue: seq<InBuf>, l: Link, b: InBuf, nodes: set<object>,
                           objects: set<object>)
      requires forall k {:trigger k in links} :: k in links ==> k in nodes && k.buf in objects && k.buf.data in objects
      requires l in nodes && l.buf in objects && l.buf.data in objects
      requires Chained(head, links + [l]) && |links| == |queue|
      requires forall i, j :: 0 <= i < j < |links| ==> links[i].buf != links[j].buf
      requires forall i {:trigger links[i]} :: 0 <= i < |links| ==>
                 HoldsInput(links[i].buf, queue[i]) && links[i].buf != l.buf
      requires HoldsInput(l.buf, b)
      ensures Queue(head, links + [l], queue + [b], nodes, objects)
    {
      var links' := links + [l];
      forall i | 0 <= i < |links'| ensures links'[i] in links' && HoldsInput(links'[i].buf, (queue + [b])[i]) {
        if i < |links| { assert links'[i] == links[i]; }
      }
      forall i, j | 0 <= i < j < |links'| ensures links'[i].buf != links'[j].buf {
        if j < |links| { assert links'[i] == links[i] && links'[j] == links[j]; }
      }
    }

    /** Queues one lent buffer, unless it is queued already or no link can be allocated. */
    method QueueOne(buf: Buf, ghost b: InBuf, ghost objects: set<object>) returns (failure: Option<CompressionFailure>)
      requires Valid() && Lent(buf, b, objects) && Clear(objects)
      modifies this`input, this`inputLinks, this`queue, this`inputNodes, this`inputObjects, this`past,
               output`memory, inputNodes
      ensures Valid() && Clear(objects)
      ensures old(inputObjects) <= inputObjects <= old(inputObjects) + objects
      ensures inputNodes >= old(inputNodes) && fresh(inputNodes - old(inputNodes))
      ensures if Queued(old(queue), b.addr) then View() == old(View()) && failure == None
              else if old(View()).pool.memory == 0 then View() == old(View()) && failure == Some(OutputAllocation)
              else View() == Enqueue(old(View()), b) && failure == None
    {
      assert buf.addr == b.addr;
      hide Valid, Queue, Queued, Lent, Apart;
      failure := None;
      var duplicate := IsQueued(buf.addr);
      if !duplicate {
        var ok := Palloc();
        if ok {
          PushInput(buf, b, objects);
        } else {
          failure := Some(OutputAllocation);
        }
      }
    }

    method Palloc() returns (ok: bool)
      requires Valid()
      modifies output`memory
      ensures Valid() && ok == (old(output.memory) > 0)
      ensures output.View() == if ok then old(output.View()).(memory := old(output.memory) - 1) else old(output.View())
    {
      hide NgxOutput.Valid, Queue;
      ok := output.Palloc();
    }

    /** What upstream lends with a chain. */
    ghost predicate Lends(chain: Link?, chainLinks: seq<Link>, upstream: seq<InBuf>, objects: set<object>)
      reads this, output, objects, chainLinks
    {
      && Chained(chain, chainLinks)
      && |chainLinks| == |upstream|
      && (forall i {:trigger chainLinks[i]} {:trigger upstream[i]} :: 0 <= i < |chainLinks| ==>
            Lent(chainLinks[i].buf, upstream[i], objects))
      && (forall l {:trigger l in chainLinks} :: l in chainLinks ==> l !in inputNodes)
      && Clear(objects)
    }

    /** append_input: queues every buffer of the chain that is not queued yet, while links can be allocated. */
    method AppendInput(chain: Link?, ghost chainLinks: seq<Link>, ghost upstream: seq<InBuf>,
                       ghost objects: set<object>)
      returns (failure: Option<CompressionFailure>)
      requires Valid() && Lends(chain, chainLinks, upstream, objects)
      modifies this`input, this`inputLinks, this`queue, this`inputNodes, this`inputObjects, this`past,
               output`memory, inputNodes
      ensures Valid()
      ensures old(inputObjects) <= inputObjects <= old(inputObjects) + objects
      ensures inputNodes >= old(inputNodes) && fresh(inputNodes - old(inputNodes))
      ensures (View(), failure) == Filter.AppendInput(old(View()), upstream)
    {
      hide Valid, Queue, Queued, Lent;
      var link := chain;
      ghost var i := 0;
      while link != null
        invariant Valid()
        invariant old(inputObjects) <= inputObjects <= old(inputObjects) + objects
        invariant inputNodes >= old(inputNodes) && fresh(inputNodes - old(inputNodes))
        invariant 0 <= i <= |chainLinks| && link == if i < |chainLinks| then chainLinks[i] else null
        invariant Lends(chain, chainLinks, upstream, objects)
        invariant Filter.AppendInput(View(), upstream[i..]) == Filter.AppendInput(old(View()), upstream)
        decreases |chainLinks| - i
      {
        assert Lent(chainLinks[i].buf, upstream[i], objects);
        assert upstream[i..][0] == upstream[i] && upstream[i..][1..] == upstream[i + 1..];
        failure := QueueOne(link.buf, upstream[i], objects);
        if failure.Some? {
          return;
        }
        assert link in chainLinks;
        assert link.next == if i + 1 < |chainLinks| then chainLinks[i + 1] else null;
        link := link.next;
        i := i + 1;
      }
      assert upstream[i..] == [];
      return None;
    }

    /** What the queue's head holds. */
    static lemma QueueHead(head: Link?, links: seq<Link>, queue: seq<InBuf>, nodes: set<object>, objects: set<object>)
      requires Queue(head, links, queue, nodes, objects)
      ensures head == null <==> queue == []
      ensures head != null ==>
                && links != [] && head == links[0] && head in nodes && head.buf in objects && head.buf.data in objects
                && HoldsInput(head.buf, queue[0])
    {
      if links != [] {
        assert links[0] in links && HoldsInput(links[0].buf, queue[0]);
      }
    }

    static lemma QueueTail(head: Link?, links: seq<Link>, queue: seq<InBuf>, nodes: set<object>, objects: set<object>)
      requires Queue(head, links, queue, nodes, objects) && head != null
      ensures links != [] && queue != [] && Queue(links[0].next, links[1..], queue[1..], nodes, objects)
    {
      ChainedTail(head, links);
      assert forall l :: l in links[1..] ==> l in links;
      forall i | 0 <= i < |links| - 1 ensures HoldsInput(links[1..][i].buf, queue[1..][i]) {
        assert HoldsInput(links[i + 1].buf, queue[i + 1]);
      }
    }

    /** InputBuffer::consume on the head, and dropping it once it is fully consumed. A count past what is
        there is refused, and changes nothing. */
    method ConsumeHead(consumed: nat) returns (fully: Result<bool, ()>)
      requires Valid() && queue != [] && queue[0].sound
      modifies this`input, this`inputLinks, this`queue, inputObjects
      ensures Valid()
      ensures fully ==
                if consumed <= |old(queue)[0].bytes| then Success(consumed == |old(queue)[0].bytes|) else Failure(())
      ensures queue == if fully.Success? then Filter.ConsumeHead(old(queue), consumed) else old(queue)
    {
      QueueHead(input, inputLinks, queue, inputNodes, inputObjects);
      if consumed > input.buf.last - input.buf.pos {
        return Failure(());
      }
      fully := Success(consumed == input.buf.last - input.buf.pos);
      AdvanceHead(consumed);
      if fully.value {
        PopInput();
      }
    }

    method AdvanceHead(consumed: nat)
      requires Valid() && queue != [] && queue[0].sound && consumed <= |queue[0].bytes|
      modifies this`queue, inputObjects
      ensures Valid()
      ensures queue == old(queue)[0 := old(queue)[0].(bytes := old(queue)[0].bytes[consumed..])]
    {
      QueueHead(input, inputLinks, queue, inputNodes, inputObjects);
      hide NgxOutput.Valid;
      MoveHead(consumed);
      hide Queue;
      queue := queue[0 := queue[0].(bytes := queue[0].bytes[consumed..])];
    }

    method MoveHead(consumed: nat)
      requires Valid() && queue != [] && queue[0].sound && consumed <= |queue[0].bytes| && input != null
      modifies inputObjects
      ensures Queue(input, inputLinks, queue[0 := queue[0].(bytes := queue[0].bytes[consumed..])],
                    inputNodes, inputObjects)
      ensures output.Valid()
    {
      hide NgxOutput.Valid;
      assert inputLinks[0] in inputLinks && HoldsInput(inputLinks[0].buf, queue[0]);
      var buf := input.buf;
      buf.pos := buf.pos + consumed;
      assert buf.data[buf.pos..buf.last] == queue[0].bytes[consumed..];
      assert forall i {:trigger inputLinks[i]} :: 0 < i < |inputLinks| ==> HoldsInput(inputLinks[i].buf, queue[i]);
    }

    method PopInput()
      requires Valid() && queue != []
      modifies this`input, this`inputLinks, this`queue
      ensures Valid()
      ensures queue == old(queue)[1..]
    {
      QueueHead(input, inputLinks, queue, inputNodes, inputObjects);
      QueueTail(input, inputLinks, queue, inputNodes, inputObjects);
      hide NgxOutput.Valid, Queue;
      input := input.next;
      inputLinks := inputLinks[1..];
      queue := queue[1..];
    }

    /** The response is done: what is still queued is dropped. */
    method DropInput()
      requires Valid()
      modifies this`input, this`inputLinks, this`queue
      ensures Valid() && queue == []
    {
      hide NgxOutput.Valid, Queue;
      input := null;
      inputLinks := [];
      queue := [];
      EmptyQueue(inputNodes, inputObjects);
    }

    static lemma EmptyQueue(nodes: set<object>, objects: set<object>)
      ensures Queue(null, [], [], nodes, objects)
    {
    }

    // ----- one callback -----

    /** The context is where `served` says, with the same verdict. */
    ghost predicate Matches(verdict: Option<Pending>, left: WorkBudget, served: Served<S>)
      reads this, output
    {
      match served
      case Proceed(c, budget) => verdict == None && View() == c && left == budget
      case Return(c, result) => verdict == Some(result) && View() == c
    }

    /** drive_input on this context. */
    method Drive(operation: Operation, bytes: seq<byte>, budget: WorkBudget)
      returns (result: DriveResult, left: WorkBudget)
      requires Valid()
      modifies this`codec, this`past, output, output.estate.objects
      ensures Valid() && output.estate.objects >= old(output.estate.objects)
      ensures fresh(output.estate.objects - old(output.estate.objects))
      ensures var d := DriveCtx(step, Lim(), old(View()), operation, bytes, budget);
              result == d.result && left == d.budget && View() == Absorb(old(View()), d.machine)
    {
      assert Apart();
      hide Valid;
      result, left := DriveInput(operation, bytes, budget);
    }

    /** The buffer under way is done with. */
    ghost method CloseBuffer()
      requires Valid()
      modifies this`past
      ensures Valid()
      ensures View() == Filter.CloseBuffer(old(View()))
    {
      hide NgxOutput.Valid, Queue;
      past := past.(closed := past.closed + [past.open], open := []);
    }

    method SetDone(value: bool)
      requires Valid()
      modifies this`done
      ensures Valid() && View() == old(View()).(done := value)
    {
      hide NgxOutput.Valid, Queue;
      done := value;
    }

    method SetPending(value: Option<Operation>)
      requires Valid()
      modifies this`pendingOperation
      ensures Valid() && View() == old(View()).(pending := value)
    {
      hide NgxOutput.Valid, Queue;
      pendingOperation := value;
    }

    /** The buffer under way has ended; a finish also ends the response. */
    method EndBuffer(finished: bool) returns (verdict: Option<Pending>)
      requires Valid()
      modifies this`past, this`done, this`input, this`inputLinks, this`queue
      ensures Valid()
      ensures verdict == if finished then Some(Success(false)) else None
      ensures var c := Filter.CloseBuffer(old(View()).(done := finished));
              View() == if finished then c.(input := []) else c
    {
      hide Valid;
      SetDone(finished);
      CloseBuffer();
      verdict := None;
      if finished {
        DropInput();
        verdict := Some(Success(false));
      }
    }

    /** resume_operation. */
    method ResumeOperation(budget: WorkBudget) returns (verdict: Option<Pending>, left: WorkBudget)
      requires Valid()
      modifies this`codec, this`past, this`done, this`pendingOperation, this`input, this`inputLinks, this`queue,
               output, output.estate.objects
      ensures Valid() && output.estate.objects >= old(output.estate.objects)
      ensures fresh(output.estate.objects - old(output.estate.objects))
      ensures Matches(verdict, left, Resume(step, Lim(), old(View()), budget))
    {
      assert Apart();
      hide Valid, DriveCtx, MapFailure;
      verdict, left := None, budget;
      if pendingOperation.Some? {
        var result;
        result, left := Drive(pendingOperation.value, [], budget);
        if result.DriveFailure? {
          verdict := Some(MapFailure(result.error));
        } else if result.state == BudgetExhausted {
          SetDone(false);
          verdict := Some(Success(true));
        } else {
          SetPending(None);
          verdict := EndBuffer(result.state == Finished);
        }
      }
    }

    /** One turn of the loop in compress. */
    method ServeHead(budget: WorkBudget) returns (verdict: Option<Pending>, left: WorkBudget)
      requires Valid() && queue != []
      modifies this`codec, this`past, this`done, this`pendingOperation, this`input, this`inputLinks, this`queue,
               output, output.estate.objects, inputObjects
      ensures Valid() && output.estate.objects >= old(output.estate.objects)
      ensures fresh(output.estate.objects - old(output.estate.objects))
      ensures Matches(verdict, left, Filter.ServeHead(step, Lim(), old(View()), budget))
    {
      QueueHead(input, inputLinks, queue, inputNodes, inputObjects);
      ghost var head := queue[0];
      assert Apart();
      hide Valid, DriveCtx, MapFailure, Settle;
      left := budget;
      var current := input.buf;
      if current.last < current.pos {
        return Some(Failure(InvalidFfiState)), left;
      }
      var operation := OperationFor(current.lastBuf, current.flush, current.lastInChain);
      var bytes := current.data[current.pos..current.last];
      assert head.bytes == bytes && head.operation == operation && head.sound;
      var result;
      result, left := Drive(operation, bytes, budget);
      if result.consumed > |bytes| {
        return Some(Failure(InvalidFfiState)), left;
      }
      verdict := SettleHead(operation, |bytes|, result, left, old(View()),
                            DriveCtx(step, Lim(), old(View()), operation, bytes, budget));
    }

    /** What compress does with the outcome of driving the head. */
    method SettleHead(operation: Operation, length: nat, result: DriveResult, left: WorkBudget, ghost c: Ctx<S>,
                      ghost d: Drive<S>)
      returns (verdict: Option<Pending>)
      requires Valid() && queue != [] && queue[0].sound
      requires operation == queue[0].operation && length == |queue[0].bytes| && result.consumed <= length
      requires d.Stopped? && d.result == result && d.budget == left
      requires c.input == queue && View() == Absorb(c, d.machine)
      modifies this`past, this`done, this`pendingOperation, this`input, this`inputLinks, this`queue, inputObjects
      ensures Valid()
      ensures Matches(verdict, left, Settle(c, d))
    {
      assert Apart();
      hide Valid, MapFailure;
      var consumed := ConsumeHead(result.consumed);
      var fully := consumed.value;
      match result
      case DriveFailure(_, error) =>
        if fully && error == OutputFailed(Exhausted) {
          SetPending(Some(operation));
        }
        verdict := Some(MapFailure(error));
      case Outcome(_, state) =>
        verdict := SettleOutcome(operation, fully, state);
    }

    /** What compress does with a drive that did not fail. */
    method SettleOutcome(operation: Operation, fully: bool, state: DriveState) returns (verdict: Option<Pending>)
      requires Valid()
      modifies this`past, this`done, this`pendingOperation, this`input, this`inputLinks, this`queue
      ensures Valid()
      ensures var was := old(View());
              var pending := if fully && state == BudgetExhausted then Some(operation) else was.pending;
              var c := was.(pending := pending, done := state == Finished);
              if state == BudgetExhausted then View() == c && verdict == Some(Success(true))
              else if !fully then View() == c && verdict == Some(Failure(InvalidCodecProgress))
              else
                && View() == Filter.CloseBuffer(c).(input := if c.done then [] else c.input)
                && verdict == if c.done then Some(Success(false)) else None
    {
      hide Valid;
      if state == BudgetExhausted {
        if fully {
          SetPending(Some(operation));
        }
        SetDone(false);
        verdict := Some(Success(true));
      } else if !fully {
        SetDone(state == Finished);
        verdict := Some(Failure(InvalidCodecProgress));
      } else {
        verdict := EndBuffer(state == Finished);
      }
    }

    /** The loop in compress. */
    method ServeQueue(budget: WorkBudget) returns (result: Pending)
      requires Valid()
      modifies this`codec, this`past, this`done, this`pendingOperation, this`input, this`inputLinks, this`queue,
               output, output.estate.objects, inputObjects
      ensures Valid() && output.estate.objects >= old(output.estate.objects)
      ensures fresh(output.estate.objects - old(output.estate.objects))
      ensures var r := Filter.ServeQueue(step, Lim(), old(View()), budget);
              View() == r.ctx && result == r.result
    {
      hide Valid, Apart, Filter.ServeHead, Queue;
      LookAtHead();
      var left := budget;
      while input != null
        invariant Valid() && output.estate.objects >= old(output.estate.objects)
        invariant fresh(output.estate.objects - old(output.estate.objects))
        invariant input == null <==> queue == []
        invariant Filter.ServeQueue(step, Lim(), View(), left) == Filter.ServeQueue(step, Lim(), old(View()), budget)
        decreases |queue|
      {
        var verdict;
        verdict, left := ServeHead(left);
        if verdict.Some? {
          return verdict.value;
        }
        LookAtHead();
      }
      result := Success(false);
    }

    lemma LookAtHead()
      requires Valid()
      ensures Apart() && (input == null <==> queue == [])
    {
      QueueHead(input, inputLinks, queue, inputNodes, inputObjects);
    }

    /** compress: queues what arrived, resumes what was pending, then serves the queue, all within one budget. */
    method Compress(chain: Link?, ghost chainLinks: seq<Link>, ghost upstream: seq<InBuf>, ghost objects: set<object>)
      returns (result: Pending)
      requires Valid() && Lends(chain, chainLinks, upstream, objects)
      modifies this, output, output.estate.objects, inputNodes, inputObjects, objects
      ensures Valid()
      ensures fresh(output.estate.objects - old(output.estate.objects)) && fresh(inputNodes - old(inputNodes))
      ensures inputObjects <= old(inputObjects) + objects
      ensures var r := Filter.Compress(step, Lim(), old(View()), upstream);
              View() == r.ctx && result == r.result
    {
      LookAtHead();
      hide Valid, Apart, Lends, Filter.ServeQueue, Resume, Filter.AppendInput;
      var failure := AppendInput(chain, chainLinks, upstream, objects);
      if failure.Some? {
        result := Failure(failure.value);
      } else {
        result := ServeAll();
      }
    }

    /** Everything but the arrivals: first what is pending, then the queue. */
    method ServeAll() returns (result: Pending)
      requires Valid()
      modifies this`codec, this`past, this`done, this`pendingOperation, this`input, this`inputLinks, this`queue,
               output, output.estate.objects, inputObjects
      ensures Valid() && output.estate.objects >= old(output.estate.objects)
      ensures fresh(output.estate.objects - old(output.estate.objects))
      ensures var r := Resume(step, Lim(), old(View()), PER_CALLBACK);
              var s := if r.Proceed? then Filter.ServeQueue(step, Lim(), r.ctx, r.budget) else r;
              View() == s.ctx && result == s.result
    {
      LookAtHead();
      hide Valid, Filter.ServeQueue, Resume;
      var verdict, left := ResumeOperation(PER_CALLBACK);
      if verdict.Some? {
        result := verdict.value;
      } else {
        result := ServeQueue(left);
      }
    }

    // ----- body_filter_with_ctx -----

    /** Hands `out` downstream, which does as it likes with what it holds, and takes back what is spent. */
    method HandOver(left: nat -> nat)
      requires Valid()
      modifies this`past, output, output.estate.objects
      ensures Valid() && output.estate == old(output.estate)
      ensures View() == Filter.HandOver(old(View()), left)
    {
      hide Valid, UpdateChains;
      RecordHandOver();
      DeliverOutput(left);
    }

    method DeliverOutput(left: nat -> nat)
      requires Valid()
      modifies output, output.estate.objects
      ensures Valid()
      ensures output.View() == UpdateChains(old(output.View()), left)
      ensures output.estate == old(output.estate)
      ensures unchanged(this)
    {
      hide NgxOutput.Valid, Queue, UpdateChains;
      output.Deliver(left);
    }

    /** Downstream sends some of what it holds. */
    method Sent(left: nat -> nat)
      requires Valid()
      modifies output, output.estate.objects
      ensures Valid()
      ensures forall w: World<S> :: w.ctx == old(View()) && !w.failed ==>
                Next(step, Lim(), w, Event.Sent(left)).ctx == View()
    {
      hide Send;
      LookAtOut();
      hide NgxOutput.Valid, Queue;
      output.Transmit(left);
    }

    /** The chain that downstream is given unencoded. */
    ghost method RecordPassed(upstream: seq<InBuf>)
      requires Valid()
      modifies this`past
      ensures Valid()
      ensures past == old(past).(passed := old(past).passed + upstream)
    {
      hide NgxOutput.Valid, Queue;
      past := past.(passed := past.passed + upstream);
    }

    ghost method RecordHandOver()
      requires Valid()
      modifies this`past
      ensures Valid()
      ensures past == old(past).(handed := old(past).handed + output.View().out)
    {
      hide NgxOutput.Valid, Queue;
      past := past.(handed := past.handed + output.packets);
    }

    /** body_filter_inner: one callback, from the done gate to the wakeup. */
    method BodyFilter(connection: Connection, chain: Link?, ghost chainLinks: seq<Link>, ghost upstream: seq<InBuf>,
                      ghost objects: set<object>, down: Downstream)
      returns (status: Status, failed: bool)
      requires Valid() && Lends(chain, chainLinks, upstream, objects)
      requires connection !in objects && connection !in inputNodes && connection !in inputObjects
      requires connection !in output.estate.objects
      modifies this, output, output.estate.objects, inputNodes, inputObjects, objects, connection
      ensures Valid()
      ensures fresh(output.estate.objects - old(output.estate.objects)) && fresh(inputNodes - old(inputNodes))
      ensures inputObjects <= old(inputObjects) + objects
      ensures var before := World(old(View()), old(connection.buffered), old(connection.posted), false, Ok);
              World(View(), connection.buffered, connection.posted, failed, status)
              == Next(step, Lim(), before, Call(upstream, down))
    {
      hide Valid, Filter.Compress, Filter.HandOver;
      connection.posted := false;
      failed := false;
      if done {
        RecordPassed(upstream);
        connection.DownstreamReturns(down);
        status := down.status;
      } else {
        var result := Compress(chain, chainLinks, upstream, objects);
        if result.Failure? {
          status, failed := Error, true;
        } else {
          status := Pass(connection, result.value, down);
        }
      }
    }

    /** Callback upon callback with nothing new to filter: the run that Liveness speaks of, on the objects. */
    method ReEnter(connection: Connection, downstream: nat -> Downstream, n: nat)
      returns (status: Status, failed: bool)
      requires Valid()
      requires connection !in inputNodes && connection !in inputObjects && connection !in output.estate.objects
      modifies this, output, output.estate.objects, inputNodes, inputObjects, connection
      ensures Valid()
      ensures fresh(output.estate.objects - old(output.estate.objects)) && fresh(inputNodes - old(inputNodes))
      ensures inputObjects <= old(inputObjects)
      ensures World(View(), connection.buffered, connection.posted, failed, status)
           == L.Reentered(step, Lim(), old(World(View(), connection.buffered, connection.posted, false, Ok)),
                          downstream, n)
    {
      hide Valid, Apart, Next, Lends;
      status, failed := Ok, false;
      if n > 0 {
        status, failed := ReEnter(connection, downstream, n - 1);
        if failed {
          FailedStays(step, Lim(), World(View(), connection.buffered, connection.posted, failed, status),
                      Call([], downstream(n - 1)));
        } else {
          status, failed := ReEnterOnce(connection, downstream(n - 1), status);
        }
      }
    }

    static lemma FailedStays(step: StepFn<S>, limits: Limits, w: World<S>, e: Event)
      requires w.failed
      ensures Next(step, limits, w, e) == w
    {
    }

    method ReEnterOnce(connection: Connection, down: Downstream, ghost last: Status)
      returns (status: Status, failed: bool)
      requires Valid()
      requires connection !in inputNodes && connection !in inputObjects && connection !in output.estate.objects
      modifies this, output, output.estate.objects, inputNodes, inputObjects, connection
      ensures Valid()
      ensures fresh(output.estate.objects - old(output.estate.objects)) && fresh(inputNodes - old(inputNodes))
      ensures inputObjects <= old(inputObjects)
      ensures World(View(), connection.buffered, connection.posted, failed, status)
           == Next(step, Lim(), old(World(View(), connection.buffered, connection.posted, false, last)), Call([], down))
    {
      NothingLent();
      StatusDoesNotMatter(step, Lim(), World(View(), connection.buffered, connection.posted, false, last),
                          Call([], down));
      hide Valid, Apart, Next, Lends;
      status, failed := BodyFilter(connection, null, [], [], {}, down);
    }

    static lemma StatusDoesNotMatter(step: StepFn<S>, limits: Limits, w: World<S>, e: Event)
      requires e.Call? && !w.failed
      ensures Next(step, limits, w, e) == Next(step, limits, w.(status := Ok), e)
    {
      hide Filter.Compress, Filter.HandOver;
    }

    lemma NothingLent()
      requires Valid()
      ensures Lends(null, [], [], {})
    {
    }

    /** The bit, the call downstream and the wakeup, after a compress that succeeded. */
    method Pass(connection: Connection, pending: bool, down: Downstream) returns (status: Status)
      requires Valid() && !connection.posted
      requires connection !in inputNodes && connection !in inputObjects && connection !in output.estate.objects
      modifies this`past, output, output.estate.objects, connection
      ensures Valid() && output.estate == old(output.estate)
      ensures inputNodes == old(inputNodes) && inputObjects == old(inputObjects)
      ensures var buffered := Filter.SetBuffered(old(connection.buffered), pending);
              if old(output.View()).out == [] && old(output.View()).busy == [] then
                && View() == old(View()) && connection.buffered == buffered && status == Ok
                && connection.posted == Schedules(pending, Ok, buffered)
              else
                && View() == Filter.HandOver(old(View()), down.left) && status == down.status
                && connection.buffered == OtherFlags(down.others) + (buffered * {OurFlag})
                && connection.posted == Schedules(pending, down.status, connection.buffered)
    {
      hide Valid, Filter.HandOver, Filter.SetBuffered, Schedules, OtherFlags;
      SetBuffered(connection, pending);
      status := PassOut(connection, pending, down);
    }

    /** The call downstream, if there is anything to give it or to wait for, and the wakeup. */
    method PassOut(connection: Connection, pending: bool, down: Downstream) returns (status: Status)
      requires Valid() && !connection.posted
      requires connection !in inputNodes && connection !in inputObjects && connection !in output.estate.objects
      modifies this`past, output, output.estate.objects, connection
      ensures Valid() && output.estate == old(output.estate)
      ensures inputNodes == old(inputNodes) && inputObjects == old(inputObjects)
      ensures if old(output.View()).out == [] && old(output.View()).busy == [] then
                && View() == old(View()) && connection.buffered == old(connection.buffered) && status == Ok
                && connection.posted == Schedules(pending, Ok, connection.buffered)
              else
                && View() == Filter.HandOver(old(View()), down.left) && status == down.status
                && connection.buffered == OtherFlags(down.others) + (old(connection.buffered) * {OurFlag})
                && connection.posted == Schedules(pending, down.status, connection.buffered)
    {
      LookAtOut();
      hide Valid, Apart, Filter.HandOver, Schedules, OtherFlags;
      if output.out == null && output.busy == null {
        Schedule(connection, pending, Ok);
        status := Ok;
      } else {
        PassDown(connection, pending, down);
        status := down.status;
      }
    }

    method PassDown(connection: Connection, pending: bool, down: Downstream)
      requires Valid() && !connection.posted
      requires connection !in inputNodes && connection !in inputObjects && connection !in output.estate.objects
      modifies this`past, output, output.estate.objects, connection
      ensures Valid() && output.estate == old(output.estate)
      ensures inputNodes == old(inputNodes) && inputObjects == old(inputObjects)
      ensures View() == Filter.HandOver(old(View()), down.left)
      ensures connection.buffered == OtherFlags(down.others) + (old(connection.buffered) * {OurFlag})
      ensures connection.posted == Schedules(pending, down.status, connection.buffered)
    {
      LookAtOut();
      hide Valid, Filter.HandOver, Schedules, OtherFlags;
      HandOver(down.left);
      Wake(connection, pending, down);
    }

    /** The connection's side of a call downstream: the other filters' bits, and the wakeup. */
    method Wake(connection: Connection, pending: bool, down: Downstream)
      requires Valid() && !connection.posted
      requires connection !in inputNodes && connection !in inputObjects && connection !in output.estate.objects
      modifies connection
      ensures Valid()
      ensures connection.buffered == OtherFlags(down.others) + (old(connection.buffered) * {OurFlag})
      ensures connection.posted == Schedules(pending, down.status, connection.buffered)
    {
      hide NgxOutput.Valid, Queue, OtherFlags;
      connection.DownstreamReturns(down);
      connection.ScheduleContinuation(pending, down.status);
    }

    method Schedule(connection: Connection, pending: bool, status: Status)
      requires Valid() && !connection.posted
      requires connection !in inputNodes && connection !in inputObjects && connection !in output.estate.objects
      modifies connection`posted
      ensures Valid()
      ensures connection.posted == Schedules(pending, status, connection.buffered)
    {
      hide Valid;
      connection.ScheduleContinuation(pending, status);
    }

    /** mark_buffered: the connection is no part of the context. */
    method SetBuffered(connection: Connection, pending: bool)
      requires Valid()
      requires connection !in inputNodes && connection !in inputObjects && connection !in output.estate.objects
      modifies connection`buffered
      ensures Valid()
      ensures connection.buffered == Filter.SetBuffered(old(connection.buffered), pending)
    {
      hide NgxOutput.Valid, Queue;
      connection.SetBuffered(pending);
    }

    lemma LookAtOut()
      requires Valid()
      ensures Apart()
      ensures output.out == null <==> output.View().out == []
      ensures output.busy == null <==> output.View().busy == []
    {
    }
  }

  /** The connection: its buffered bits and its write event. */
  class Connection {
    var buffered: set<Flag>
    var posted: bool

    constructor (others: set<nat>)
      ensures buffered == OtherFlags(others) && !posted
    {
      buffered := OtherFlags(others);
      posted := false;
    }

    /** ngx_compress_set_buffered: this module's bit, and no other. */
    method SetBuffered(pending: bool)
      modifies this`buffered
      ensures buffered == Filter.SetBuffered(old(buffered), pending)
    {
      if pending {
        buffered := buffered + {OurFlag};
      } else {
        buffered := buffered - {OurFlag};
      }
    }

    /** schedule_continuation, and ngx_compress_post_write_if_ready behind it. */
    method ScheduleContinuation(pending: bool, status: Status)
      modifies this`posted
      ensures posted == (old(posted) || Schedules(pending, status, buffered))
    {
      if pending && status == Ok {
        if buffered == {OurFlag} {
          posted := true;
        }
      }
    }

    /** The other filters' bits as a downstream call leaves them. */
    method DownstreamReturns(down: Downstream)
      modifies this`buffered
      ensures buffered == OtherFlags(down.others) + (old(buffered) * {OurFlag})
    {
      buffered := OtherFlags(down.others) + (buffered * {OurFlag});
    }
  }
}