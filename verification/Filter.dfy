/**
 * The body filter on values (module/src/filter/buffer.rs and runtime.rs): one request's
 * context, what a callback does to it, and whole runs of callbacks.
 *
 * `past` is history, kept for the theorems: no operation decides anything by it.
 */
module Filter {
  import opened Wrappers
  import opened Progress
  import opened Codec
  import opened OutputPool
  import opened Stream

  /** An input buffer: its address, its unread bytes and its flags. `sound` is false for a buffer whose positions
      are crossed or missing. */
  datatype InBuf = InBuf(addr: nat, bytes: seq<byte>, lastBuf: bool, flush: bool, lastInChain: bool, sound: bool) {
    /** The operation its flags ask for. */
    const operation: Operation := OperationFor(lastBuf, flush, lastInChain)
  }

  function OperationFor(lastBuf: bool, flush: bool, lastInChain: bool): Operation {
    if lastBuf then Finish else if flush || lastInChain then Flush else Continue
  }

  /** `arrived`: every buffer accepted into the queue. `closed`: one step log for each buffer done with.
      `open`: the steps spent so far on the next one. `handed`: the packets of `out` given to downstream.
      `passed`: the buffers given to downstream as they came, once the response was done. */
  datatype Past = Past(
    arrived: seq<InBuf>,
    closed: seq<seq<StepRecord>>,
    open: seq<StepRecord>,
    handed: seq<Packet>,
    passed: seq<InBuf>)

  datatype Ctx<+S> = Ctx(
    codec: S,
    input: seq<InBuf>,
    pending: Option<Operation>,
    done: bool,
    pool: Pool,
    past: Past)

  datatype CompressionFailure = OutputAllocation | InvalidFfiState | InvalidCodecProgress | CodecFailed

  /** Whether work remains, or why the request fails. */
  type Pending = Result<bool, CompressionFailure>

  datatype Served<+S> =
    | Proceed(ctx: Ctx<S>, budget: WorkBudget)
    | Return(ctx: Ctx<S>, result: Pending)

  predicate Queued(input: seq<InBuf>, addr: nat) {
    exists i :: 0 <= i < |input| && input[i].addr == addr
  }

  /** append_input: a buffer already queued is not queued again; each new link takes one allocation. */
  function AppendInput<S>(c: Ctx<S>, chain: seq<InBuf>): (r: (Ctx<S>, Option<CompressionFailure>))
    decreases |chain|
  {
    if chain == [] then
      (c, None)
    else if Queued(c.input, chain[0].addr) then
      AppendInput(c, chain[1..])
    else if c.pool.memory == 0 then
      (c, Some(OutputAllocation))
    else
      AppendInput(Enqueue(c, chain[0]), chain[1..])
  }

  /** A new link at the tail of the queue. */
  function Enqueue<S>(c: Ctx<S>, b: InBuf): Ctx<S>
    requires c.pool.memory > 0
  {
    c.(input := c.input + [b],
       pool := c.pool.(memory := c.pool.memory - 1),
       past := c.past.(arrived := c.past.arrived + [b]))
  }

  function MapFailure(error: DriveError): Pending {
    match error
    case OutputFailed(Exhausted) => Success(true)
    case OutputFailed(Allocation) => Failure(OutputAllocation)
    case StepFailed(CodecBackend) => Failure(CodecFailed)
    case StepFailed(InvalidProgress(_)) => Failure(InvalidCodecProgress)
  }

  /** drive_input on the context's codec and pool. */
  function DriveCtx<S>(step: StepFn<S>, limits: Limits, c: Ctx<S>, operation: Operation, bytes: seq<byte>,
                       budget: WorkBudget): (d: Drive<S>)
    ensures d.Stopped?
  {
    DriveFrom(step, limits, Machine(c.codec, c.pool, c.past.open), operation, bytes, 0, budget)
  }

  function Absorb<S>(c: Ctx<S>, m: Machine<S>): Ctx<S> {
    c.(codec := m.codec, pool := m.pool, past := c.past.(open := m.steps))
  }

  /** The current buffer is done with. */
  function CloseBuffer<S>(c: Ctx<S>): Ctx<S> {
    c.(past := c.past.(closed := c.past.closed + [c.past.open], open := []))
  }

  /** InputBuffer::consume on the queue's head, and dropping it once it is fully consumed. */
  function ConsumeHead(input: seq<InBuf>, consumed: nat): seq<InBuf>
    requires input != [] && consumed <= |input[0].bytes|
  {
    if consumed == |input[0].bytes| then input[1..]
    else [input[0].(bytes := input[0].bytes[consumed..])] + input[1..]
  }

  /** resume_operation: an operation left pending is shown again, with no input, before anything else. */
  function Resume<S>(step: StepFn<S>, limits: Limits, c: Ctx<S>, budget: WorkBudget): Served<S> {
    match c.pending
    case None => Proceed(c, budget)
    case Some(operation) =>
      var d := DriveCtx(step, limits, c, operation, [], budget);
      var c' := Absorb(c, d.machine);
      match d.result
      case DriveFailure(_, error) => Return(c', MapFailure(error))
      case Outcome(_, state) =>
        if state == BudgetExhausted then
          Return(c'.(done := false), Success(true))
        else
          var closed := CloseBuffer(c'.(done := state == Finished, pending := None));
          if closed.done then Return(closed.(input := []), Success(false)) else Proceed(closed, d.budget)
  }

  /** What compress does with the outcome of driving the queue's head. */
  function Settle<S>(c: Ctx<S>, d: Drive<S>): (r: Served<S>)
    requires c.input != [] && d.Stopped? && d.result.consumed <= |c.input[0].bytes|
    ensures r.Proceed? ==> |r.ctx.input| < |c.input|
  {
    var head := c.input[0];
    var fully := d.result.consumed == |head.bytes|;
    var c' := Absorb(c, d.machine).(input := ConsumeHead(c.input, d.result.consumed));
    match d.result
    case DriveFailure(_, error) =>
      var pending := if fully && error == OutputFailed(Exhausted) then Some(head.operation) else c.pending;
      Return(c'.(pending := pending), MapFailure(error))
    case Outcome(_, state) =>
      var pending := if fully && state == BudgetExhausted then Some(head.operation) else c.pending;
      var c'' := c'.(pending := pending, done := state == Finished);
      if state == BudgetExhausted then Return(c'', Success(true))
      else if !fully then Return(c'', Failure(InvalidCodecProgress))
      else if c''.done then Return(CloseBuffer(c'').(input := []), Success(false))
      else Proceed(CloseBuffer(c''), d.budget)
  }

  /** One turn of the loop in compress. */
  function ServeHead<S>(step: StepFn<S>, limits: Limits, c: Ctx<S>, budget: WorkBudget): (r: Served<S>)
    requires c.input != []
    ensures r.Proceed? ==> |r.ctx.input| < |c.input|
  {
    var head := c.input[0];
    if !head.sound then Return(c, Failure(InvalidFfiState))
    else
      var d := DriveCtx(step, limits, c, head.operation, head.bytes, budget);
      if d.result.consumed > |head.bytes| then Return(Absorb(c, d.machine), Failure(InvalidFfiState))
      else Settle(c, d)
  }

  /** The loop in compress. */
  function ServeQueue<S>(step: StepFn<S>, limits: Limits, c: Ctx<S>, budget: WorkBudget): (r: Served<S>)
    ensures r.Return?
    decreases |c.input|
  {
    if c.input == [] then
      Return(c, Success(false))
    else
      var r := ServeHead(step, limits, c, budget);
      if r.Proceed? then ServeQueue(step, limits, r.ctx, r.budget) else r
  }

  /** RequestCtx::compress. */
  function Compress<S>(step: StepFn<S>, limits: Limits, c: Ctx<S>, chain: seq<InBuf>): (r: Served<S>)
    ensures r.Return?
  {
    var (c', failure) := AppendInput(c, chain);
    if failure.Some? then
      Return(c', Failure(failure.value))
    else
      var r := Resume(step, limits, c', PER_CALLBACK);
      if r.Proceed? then ServeQueue(step, limits, r.ctx, r.budget) else r
  }

  // ----- one callback, and runs of them -----

  /** The connection's buffered bits: this module's one, and those of the other filters. */
  datatype Flag = OurFlag | OtherFlag(n: nat)

  datatype Status = Ok | Again | Error

  /** What downstream does when called: how much of each packet it leaves unsent, what it returns,
      and which bits the other filters have set afterwards. */
  datatype Downstream = Downstream(status: Status, left: nat -> nat, others: set<nat>)

  datatype World<+S> = World(ctx: Ctx<S>, buffered: set<Flag>, posted: bool, failed: bool, status: Status)

  function SetBuffered(buffered: set<Flag>, pending: bool): set<Flag> {
    if pending then buffered + {OurFlag} else buffered - {OurFlag}
  }

  function OtherFlags(others: set<nat>): set<Flag> {
    set n | n in others :: OtherFlag(n)
  }

  /** ngx_compress_post_write_if_ready, behind schedule_continuation's two guards. */
  predicate Schedules(pending: bool, status: Status, buffered: set<Flag>) {
    pending && status == Ok && buffered == {OurFlag}
  }

  /** body_filter_inner: the done gate, then body_filter_with_ctx. A callback starts with no event posted. */
  function Callback<S>(step: StepFn<S>, limits: Limits, w: World<S>, chain: seq<InBuf>, down: Downstream): World<S> {
    if w.ctx.done then
      w.(ctx := PassBy(w.ctx, chain), buffered := OtherFlags(down.others) + (w.buffered * {OurFlag}), posted := false,
         status := down.status)
    else
      var r := Compress(step, limits, w.ctx, chain);
      if r.result.Failure? then
        World(r.ctx, w.buffered, false, true, Error)
      else
        var pending := r.result.value;
        var buffered := SetBuffered(w.buffered, pending);
        if r.ctx.pool.out == [] && r.ctx.pool.busy == [] then
          World(r.ctx, buffered, Schedules(pending, Ok, buffered), false, Ok)
        else
          var after := OtherFlags(down.others) + (buffered * {OurFlag});
          World(HandOver(r.ctx, down.left), after, Schedules(pending, down.status, after), false, down.status)
  }

  /** RequestCtx::with lends no context that is done: the chain goes downstream unencoded. */
  function PassBy<S>(c: Ctx<S>, chain: seq<InBuf>): Ctx<S> {
    c.(past := c.past.(passed := c.past.passed + chain))
  }

  /** The call downstream with `out`, and ngx_chain_update_chains after it. */
  function HandOver<S>(c: Ctx<S>, left: nat -> nat): Ctx<S> {
    c.(pool := UpdateChains(c.pool, left), past := c.past.(handed := c.past.handed + c.pool.out))
  }

  /** What can happen to a request: its body filter is called, with a chain or (on a posted event
      or downstream's own wakeup) without one, or downstream sends some of what it holds. */
  datatype Event =
    | Call(chain: seq<InBuf>, down: Downstream)
    | Sent(left: nat -> nat)

  function Next<S>(step: StepFn<S>, limits: Limits, w: World<S>, e: Event): World<S> {
    if w.failed then w
    else
      match e
      case Call(chain, down) => Callback(step, limits, w, chain, down)
      case Sent(left) => w.(ctx := w.ctx.(pool := w.ctx.pool.(busy := Send(w.ctx.pool.busy, left))))
  }

  function Run<S>(step: StepFn<S>, limits: Limits, w: World<S>, events: seq<Event>): World<S> {
    if events == [] then w
    else Next(step, limits, Run(step, limits, w, events[..|events| - 1]), events[|events| - 1])
  }

  /** RequestCtx::install: a fresh context around a codec. */
  function Install<S>(codec: S, memory: nat): Ctx<S> {
    Ctx(codec, [], None, false, Pool(0, [], [], 0, memory), Past([], [], [], [], []))
  }

  function Start<S>(codec: S, memory: nat, others: set<nat>): World<S> {
    World(Install(codec, memory), OtherFlags(others), false, false, Ok)
  }
}
