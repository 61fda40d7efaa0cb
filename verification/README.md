# A model of ngx-compress, with proofs

ngx-compress is an NGINX module that compresses responses. Its body filter runs an untrusted streaming codec over a
request's input buffers, a bounded amount of work at a time, into a hard-limited pool of output buffers, and can be
stopped and resumed between any two steps. Around that filter it negotiates codings with the client, serves
precompressed sidecar files, reuses codecs between requests and warns about conflicting configuration.

The model covers those parts in the form the program gives them. What is updated in place is a class whose methods are
proved to do to the abstract value exactly what a specification function says; what the program promises is then
proved about those functions, over every codec, every input, every run of callbacks and every behaviour of downstream.

## How it is laid out

The filter:

- `Progress`, `Codec`, `OutputPool`, `Stream`: the progress contract, one checked step, the buffer pool, and the driver
  that spends a work budget on one buffer. A codec is a state and a step function, so "any codec" is any step function.
- `Filter`: a request's context, one callback, and runs. `Transcript`, `FilterInvariant`, `FilterInput`, `FilterRuns`,
  `FilterGate`, `FilterOutput`, `FilterWork`, `FilterFailure` hold what is true for every codec: what arrives,
  conservation, what goes past the filter, boundaries, marks, budgets, wakeups and failures.
- `Honesty`, `Protocol`, `Liveness`: what more holds for a codec that never answers a flush or a finish with
  `NeedsInput`, and for one that also drains what it owes.
- `Identity`, `Flate`, `Crc`, `Gzip`: the adapters and the gzip frame, over any library that keeps zlib's contract.
  `StoredBlocks` is one that does, so the contract can be met; `StoredGzip` is the frame theorem without hypotheses.
- `FlushStall`, `RepeatedMarkers`: when a response does not end, and a stream, marking its flushes as zlib does, for
  which that happens.
- `Chains`, `NgxOutputProvider`, `RequestContext`, `GzipCodec`: the same machines as objects, on real buffers and links
  that are relinked in place. `RequestCtx.BodyFilter` is the whole callback and `RequestCtx.Sent` downstream's sending;
  each is proved to be `Filter.Next` on the abstract world, and theorems over runs are about those steps one upon another.

Choosing what to send:

- `Text`, `Qvalue`, `Negotiation`, `HeaderPrinter`, `HeaderCase`, `HeaderPadding`: reading Accept-Encoding, printing
  it, what letter case and blanks do not change, and selecting a coding.
- `Configuration`, `StaticPolicy`, `Sidecar`, `Priority`, `Decline`: the sidecar probe, the configured priority, and how the static
  handler and the runtime filter agree.
- `WorkerPool`: reuse of codecs. `ConflictScan`: the search of the configuration for gzip conflicts.

Two strengths of codec appear. For *any* codec only the progress contract stands between it and the caller. That
contract admits `NeedsInput` in answer to a flush whose buffer has been taken, and then no flush mark is sent
(`Honesty.DishonestCodecLosesTheFlush`); `Honesty.MarksLostIff` says exactly when that happens, and
`Honesty.HonestMarks` that no mark is missing for an *honest* codec. The adapters are proved honest.

Two promises are asked of the deflate library, apart. `Flate.Zlib` is what it does at any capacity; honesty, the frame
and every statement about finished runs rest on it alone. `Flate.Drains` is that what it owes goes out. For a flush zlib
promises that only in outputs of more than five bytes: zlib.h asks for more than six when a marker begins, because a
flush that fills the output may begin another marker at the next call. The configuration accepts any buffer size above
zero (crates/ngx-compress-module/src/registration/conf.rs:173), so termination is not promised for all it accepts: with
buffers of five bytes and a flush, markers go out for ever (`RepeatedMarkers.MarkersForEver`). Every termination theorem
therefore asks that the buffers have the size the library needs, or that no flush comes before a finish; and
`RepeatedMarkers.MarkersEndIff` says that, for a stream that repeats its markers, this is exactly when a request ends.

Once a response is done the filter has no context to work on, and hands any further chain downstream as it came. Such
buffers are called *late*. The filter's own output is what the theorems say of it on every run; what downstream has
received in all is that output followed by the late buffers, so "nothing follows `last_buf`" and "the wire is one gzip
member" hold if and only if nothing is late, or late buffers have no bytes. A caller keeps to that by making no call
with a chain after the end of the response (`FilterGate.NoneLate`).

The conflict scan does not rule out that two arrays hold one configuration and differ in the gzip flag, and the model's
`Tree` allows it. The module only supplies the `create_loc_conf` that NGINX calls
(crates/ngx-compress-module/src/registration/mod.rs:100); how NGINX shares its results between arrays is not part of
this model. Where arrays do share a configuration, `ConflictScan.OrderFreeIff` says when the verdict could differ.

A failed callback ends the run: nothing is said of what a request does after an error.

## Model

| member | source | states |
|---|---|---|
| FilterRuns.Conservation | crates/ngx-compress-module/src/filter/buffer.rs:124-324 | for any codec and any run: the arrived buffers are those the calls brought, in order; bytes taken, then bytes queued, are their bytes in order, nothing lost, repeated or reordered; when done, exactly the buffers up to the finish |
| FilterInput.ArrivedIsAdmitted | crates/ngx-compress-module/src/filter/buffer.rs:283-324 | over every run the arrived buffers are, call by call and in order, those of each chain that were not queued when their turn came |
| FilterInput.AppendAdmits | crates/ngx-compress-module/src/filter/buffer.rs:283-324 | `append_input` queues exactly those, with their bytes and flags, in order, behind what was queued |
| FilterInput.WholeChain | crates/ngx-compress-module/src/filter/buffer.rs:283-324 | a chain of distinct buffers, none of them queued, is admitted whole |
| FilterOutput.BoundaryDiscipline | crates/ngx-compress-core/src/stream/mod.rs:144-233 | over all callbacks each buffer is shown as some Continues, then only its own operation; it is taken whole before the next one; no step but its last completes a boundary |
| FilterOutput.MarksInOrder | crates/ngx-compress-module/src/filter/buffer.rs:192-266 | the marks the filter gives downstream are those of the buffers whose flush or finish completed, one each, in order, and no others, and its bytes are the codec's, unbroken; behind them come exactly the bytes and marks of the late buffers |
| FilterOutput.LastBufIsLast | crates/ngx-compress-module/src/filter/buffer.rs:54-67 | `last_buf` is on the filter's last packet and on no other, exactly when the request is done; nothing follows it downstream if and only if no buffer is late |
| FilterGate.PassedIsLate | crates/ngx-compress-module/src/filter/context.rs:71-86 | over every run, what goes downstream unencoded is exactly the chains of calls made once the response is done, in order |
| FilterGate.NoneLate | crates/ngx-compress-module/src/filter/runtime.rs:193-209 | nothing is late if and only if no call with a chain follows the end of the response |
| FilterOutput.LateCallGoesThrough | crates/ngx-compress-module/src/filter/runtime.rs:193-209 | every such call, whatever the codec, puts its bytes and marks behind the finished response |
| Identity.LateBytesFollowTheResponse | crates/ngx-compress-module/src/filter/runtime.rs:193-209 | a run in which downstream gets a second `last_buf` behind the finished response |
| FilterOutput.OnlyTheLastStepCompletes | crates/ngx-compress-core/src/stream/mod.rs:157-232 | only the step that closes a buffer can complete a boundary, and then its own |
| FilterWork.CallbackIsBounded | crates/ngx-compress-core/src/stream/mod.rs:65-94 | one callback makes at most 32 codec calls, refused ones included, and feeds at most 65536 bytes, whatever the codec answers |
| FilterWork.CallbackUsesItsBudget | crates/ngx-compress-core/src/stream/mod.rs:65-94 | and it stops no sooner: a callback that leaves work behind with a buffer to be had has made exactly 32 accepted codec steps, or fed exactly 65536 bytes |
| FilterWork.StopsForAReason | crates/ngx-compress-core/src/stream/mod.rs:155-161 | for every budget, a drive stops for it only when its steps are spent, or its bytes are and the input is not; and for want of a buffer only when there is none |
| Transcript.RoundTakesStep | crates/ngx-compress-core/src/stream/mod.rs:155-232 | each step is offered every byte not yet taken, as far as the byte allowance goes, with the buffer's operation exactly when that is all of them; the drive goes on unless the step completed the boundary shown or asked for input with all of it taken |
| FilterFailure.FailureNamesItsCause | crates/ngx-compress-module/src/filter/buffer.rs:268-280 | for any codec: `compress` reports a codec failure, or invalid progress, only if the codec, in the state its log has brought it to, answers some call with an error, or with a report that breaks a rule; failed allocation only with no memory left, invalid state only for a head buffer whose positions are crossed |
| FilterWork.EndsOnlyWhenTaken | crates/ngx-compress-core/src/stream/mod.rs:144-233 | every outcome but a budget stop has consumed the whole input |
| FilterInvariant.NoHalfConsumedBuffer | crates/ngx-compress-module/src/filter/buffer.rs:203-209 | so the exit for a half-consumed buffer cannot be taken |
| FilterWork.NoSilentRedo | crates/ngx-compress-core/src/stream/mod.rs:155-232 | a drive takes at most one step more than the bytes it moved, whatever its step budget |
| FilterWork.WakeupIsOwned | crates/ngx-compress-module/src/filter/runtime.rs:213-299 | our bit is set exactly when work remains, other bits are untouched, the status is downstream's where downstream was called, an event is posted only when nobody else wakes us, and pending work accepted downstream always has a wakeup |
| FilterWork.DoneIsDownstreams | crates/ngx-compress-module/src/filter/runtime.rs:193-209 | once the response is done a callback returns downstream's status, leaves downstream's bits and none of ours, and posts nothing |
| FilterWork.NeverStuckOnThePool | crates/ngx-compress-module/src/filter/buffer.rs:326-382 | no buffer is lost, the limit holds, and a request out of buffers has all of them at downstream |
| FilterInvariant.CompressKeeps | crates/ngx-compress-module/src/filter/buffer.rs:125-217 | a successful `compress` keeps the invariant and returns pending exactly when a buffer or an operation remains |
| FilterInvariant.ResumeKeeps | crates/ngx-compress-module/src/filter/buffer.rs:219-266 | a resumed operation either goes on with nothing pending, or stops with its work accounted for |
| Transcript.DriveKeeps | crates/ngx-compress-core/src/stream/mod.rs:144-233 | driving a buffer keeps the account of it: what was shown, what was taken, why it stopped |
| Transcript.StepIsSound | crates/ngx-compress-core/src/codec.rs:69-83 | an accepted step keeps the codec's log genuine and every emission in its place |
| Progress.PassesIff | crates/ngx-compress-core/src/progress.rs:38-74 | a report passes exactly when it breaks none of the six rules, and is refused by one that it breaks |
| OutputPool.WireIsProduced | crates/ngx-compress-module/src/filter/buffer.rs:82-115 | cutting the codec's output into packets loses and adds no byte |
| OutputPool.PoolSteps | crates/ngx-compress-module/src/filter/buffer.rs:348-382 | taking, submitting and reclaiming buffers keep the pool's account; memory is taken for exactly the buffers newly allocated, and none while one is free; it is out of room exactly when `free_buf` says exhausted, and then something is in `out` or `busy` |
| OutputPool.OnlySentIsFreed | crates/ngx-compress-module/src/filter/runtime.rs:256-270 | the buffers freed are those at the front that downstream has sent whole; the others stay, in order, with what is left of them |
| Honesty.HonestRuns | crates/ngx-compress-core/src/progress.rs:38-74 | with an honest codec every flush and finish done with was completed, and a run that fails does so at one of its calls, for want of memory or for an input buffer whose positions are crossed: never for the codec |
| Honesty.HonestMarks | crates/ngx-compress-module/src/filter/input.rs:56-64 | with an honest codec each buffer leaves the mark its flags ask for: the end with `last_buf`, else a flush with `flush` or `last_in_chain`, else none; one each, in order; only the marks of late buffers come behind |
| Honesty.MarksLostIff | crates/ngx-compress-core/src/progress.rs:50-71 | for any codec: every mark a buffer's flags ask for arrives if and only if every boundary done with was completed, and a boundary was not, and leaves no mark, if and only if the step that closed its buffer answered `NeedsInput` |
| Honesty.DishonestCodecLosesTheFlush | crates/ngx-compress-core/src/progress.rs:50-71 | a codec that passes the contract and loses a flush mark |
| Protocol.RunsLegally | crates/ngx-compress-core/src/stream/mod.rs:157-171 | over every run, a boundary once shown is shown again with what is left of its bytes until it completes |
| Liveness.EventuallyDone | crates/ngx-compress-module/src/filter/buffer.rs:124-266 | with a buffer to be had again and again, and buffers large enough for the flushes there are, an honest and draining codec reaches `done` in finitely many callbacks once a finish has arrived |
| Liveness.ReentryAdvances | crates/ngx-compress-module/src/filter/buffer.rs:124-266 | each such callback with a buffer to be had lowers a lexicographic measure of buffers, bytes, boundaries to show and output owed, or is the last; without one it leaves it as it was |
| Liveness.PromptDownstreamMakesRoom | crates/ngx-compress-module/src/filter/runtime.rs:256-274 | a downstream that sends what it is given leaves room |
| Liveness.PromptRunsToTheEnd | crates/ngx-compress-module/src/filter/runtime.rs:256-274 | with such a downstream no room need be assumed: the request reaches `done` |
| Identity.IdentityIsHonest | crates/ngx-compress-codecs/src/identity.rs:17-38 | identity passes the contract in every mode and at every capacity, zero included, is honest, and owes nothing |
| Identity.IdentityOverTheWire | crates/ngx-compress-codecs/src/identity.rs:17-38 | budget and buffer stops change no byte: what the filter put on the wire is the arrived bytes as far as the codec stands, and behind it are only the bytes of late buffers |
| Identity.IdentityDelivers | crates/ngx-compress-codecs/src/identity.rs:17-38 | total correctness: finitely many callbacks put exactly the arrived bytes on the wire, and behind them only what was already late |
| Identity.Step | crates/ngx-compress-codecs/src/identity.rs:17-38 | the in-place copy writes what the step function says and no byte past it |
| Flate.DeflateIsHonest | crates/ngx-compress-codecs/src/flate/deflate.rs:26-44 | over any zlib, at any capacity, the deflate adapter passes the contract and is honest |
| Flate.DeflateDrains | crates/ngx-compress-codecs/src/flate/deflate.rs:26-44 | over a zlib that drains, the adapter drains; a flush needs the capacity the library asks for |
| Flate.DeflateStream | crates/ngx-compress-codecs/src/flate/mod.rs:71-88 | whatever the cuts, an ended stream inflates to all it was given |
| Flate.DeflateOverTheWire | crates/ngx-compress-codecs/src/flate/deflate.rs:26-44 | over every finished run, at any buffer size, what the filter put on the wire inflates to the arrived bytes; behind it are only the bytes of late buffers |
| Flate.DeflateDelivers | crates/ngx-compress-codecs/src/flate/deflate.rs:26-44 | total correctness of the same, over a zlib that drains, with buffers large enough for the flushes there are |
| Gzip.EveryCallIsGood | crates/ngx-compress-codecs/src/flate/gzip.rs:55-117 | one legal call from any cut of header or trailer, at any capacity: passes the contract, writes the next bytes of the frame, takes what it says, keeps the invariant |
| Gzip.GzipIsHonest | crates/ngx-compress-codecs/src/flate/gzip.rs:55-136 | over any zlib, at any capacity, the gzip adapter never answers a flush or finish with `NeedsInput` |
| Gzip.GzipDrains | crates/ngx-compress-codecs/src/flate/gzip.rs:55-136 | over a zlib that drains, the adapter drains: header bytes, then what the stream owes, then trailer bytes; a flush needs the capacity the library asks for |
| Gzip.GzipAlongLog | crates/ngx-compress-codecs/src/flate/gzip.rs:55-136 | along any legal log the bytes out are exactly those the state accounts for |
| Gzip.GzipOverTheWire | crates/ngx-compress-codecs/src/flate/gzip.rs:41-136 | the frame theorem: any cutting, flushes, capacities and stops; when done, the filter has put on the wire header, deflate stream, CRC-32 and length of the input, and unframing and inflating gives the input back; the wire is that member and then the bytes of late buffers, the member alone if and only if they have none |
| Gzip.GzipDelivers | crates/ngx-compress-codecs/src/flate/gzip.rs:41-136 | total correctness of the same, over a zlib that drains, with buffers large enough for the flushes there are: finitely many callbacks, and behind the member only what was already late |
| Gzip.GunzipFrame | crates/ngx-compress-codecs/src/flate/gzip.rs:9-48 | a reader that checks the header and both trailer words accepts the frame (sections 2.2 and 2.3 of RFC 1952) |
| Crc.UpdateCounts | crates/ngx-compress-codecs/src/flate/gzip.rs:41-48 | the running checksum and the wrapping count are those of the whole stream, however it was cut |
| Crc.ChecksumIsRemainder | crates/ngx-compress-codecs/src/flate/gzip.rs:41-48 | a word is the checksum of the data if and only if its complement is the remainder of the message polynomial by the CRC-32 generator (sections 2.3.1 and 8 of RFC 1952), both on bit sequences |
| Crc.StreamBit | crates/ngx-compress-codecs/src/flate/gzip.rs:41-48 | the message polynomial's coefficients are the bytes' bits in order, each byte's least significant first |
| Gzip.HeaderFields | crates/ngx-compress-codecs/src/flate/gzip.rs:9 | the frame's fields: magic number, deflate, no optional field, no time, no extra flag, unknown system |
| StoredBlocks.StoredIsZlib | crates/ngx-compress-codecs/src/flate/mod.rs:24-88 | the contract asked of the library can be met, draining at every capacity included: a stored-block stream meets it |
| RepeatedMarkers.MarkersAreZlib | crates/ngx-compress-codecs/src/flate/mod.rs:71-88 | a stream that repeats flush markers as zlib does meets the contract too, and drains from six bytes on |
| RepeatedMarkers.MarkersEndIff | crates/ngx-compress-module/src/filter/buffer.rs:124-266 | over that stream, gzip or deflate, a supplied request that a finish has reached ends if and only if its buffers hold six bytes or no flush comes before a finish |
| RepeatedMarkers.MarkersForEver | crates/ngx-compress-module/src/registration/conf.rs:165-176 | a request that never ends though nothing fails: one flush, one finish, buffers of five bytes, which the configuration accepts |
| FlushStall.FlushNeverCloses | crates/ngx-compress-module/src/filter/buffer.rs:124-266 | over every run, a codec that completes no flush in its buffers is done with no flush buffer, and not done at all if a flush comes before the finish |
| FlushStall.EndsIff | crates/ngx-compress-module/src/filter/buffer.rs:124-266 | for any honest codec that drains flushes from a size on and completes none below it: a supplied request with a prompt downstream ends if and only if its buffers have that size or no flush comes before a finish |
| StoredGzip.StoredGzipRoundTrip | crates/ngx-compress-codecs/src/flate/gzip.rs:41-136 | the frame theorem with no hypothesis about a library: the filter's bytes read back as the input, and all the bytes on the wire do if and only if late buffers add none |
| GzipCodec.GzipEncoder.Step | crates/ngx-compress-codecs/src/flate/gzip.rs:55-117 | the in-place step changes fields and output exactly as the step function says |
| GzipCodec.GzipEncoder.PutTrailer | crates/ngx-compress-codecs/src/flate/gzip.rs:11-15 | the part of the trailer that fits goes behind the bytes already there |
| GzipCodec.GzipEncoder.Reset | crates/ngx-compress-codecs/src/flate/gzip.rs:119-127 | a reset codec is in the state of a new one, so a reused one steps as a new one does |
| Chains.Buf.PrepareOutput | crates/ngx-compress-ffi/src/buffer.rs:6-14 | nothing of an earlier use is left on a reused buffer |
| Chains.Buf.Commit | crates/ngx-compress-module/src/filter/buffer.rs:54-67 | a commit adds the step's bytes and the one mark of its boundary; a count past the writable region is refused and changes nothing |
| Chains.Append | crates/ngx-compress-module/src/filter/buffer.rs:326-336 | in place, the link becomes the chain's last and the rest stays as it was |
| NgxOutputProvider.NgxOutput.FreeBuf | crates/ngx-compress-module/src/filter/buffer.rs:348-382 | reuses a free buffer, else allocates below the limit, else fails; the buffer got is in no chain and carries no mark |
| NgxOutputProvider.NgxOutput.RecycleLink | crates/ngx-compress-module/src/filter/buffer.rs:338-344 | an unused buffer goes back to the front of `free` |
| NgxOutputProvider.NgxOutput.AppendLink | crates/ngx-compress-module/src/filter/buffer.rs:326-336 | a filled buffer goes to the end of `out` |
| NgxOutputProvider.NgxOutput.Deliver | crates/ngx-compress-module/src/filter/runtime.rs:256-270 | `out` joins `busy` and the fully sent prefix becomes `free`, relinked in place |
| RequestContext.RequestCtx.TryStep | crates/ngx-compress-module/src/filter/buffer.rs:82-115 | one buffer, one checked step, and where the buffer goes |
| RequestContext.RequestCtx.DriveInput | crates/ngx-compress-core/src/stream/mod.rs:144-233 | the loop is `Stream.DriveFrom` on codec, pool and budget |
| RequestContext.RequestCtx.AppendInput | crates/ngx-compress-module/src/filter/buffer.rs:283-324 | links for the buffers not yet queued are added at the tail, in order, until memory runs out |
| RequestContext.RequestCtx.ConsumeHead | crates/ngx-compress-module/src/filter/input.rs:46-53 | the head's window advances in place, and the head is unlinked once it is empty; a count past the window is refused and changes nothing |
| RequestContext.RequestCtx.ResumeOperation | crates/ngx-compress-module/src/filter/buffer.rs:219-266 | is `Filter.Resume` on the abstract context |
| RequestContext.RequestCtx.Compress | crates/ngx-compress-module/src/filter/buffer.rs:125-217 | is `Filter.Compress` on the abstract context |
| RequestContext.RequestCtx.BodyFilter | crates/ngx-compress-module/src/filter/runtime.rs:193-279 | the whole callback on the objects, gate included, does to the abstract world what `Filter.Next` does for a call |
| RequestContext.RequestCtx.ReEnter | crates/ngx-compress-module/src/filter/runtime.rs:193-279 | callbacks without new input, one upon another on the objects, are the run that the termination theorems speak of |
| RequestContext.RequestCtx.Sent | crates/ngx-compress-module/src/filter/runtime.rs:256-270 | downstream sending some of what it holds, on the objects, is `Filter.Next` for that event |
| RequestContext.Connection.SetBuffered | crates/ngx-compress-ffi/c/event.c:9-17 | only this module's bit changes |
| RequestContext.Connection.ScheduleContinuation | crates/ngx-compress-module/src/filter/runtime.rs:281-293 | an event is posted only for pending work that downstream accepted while no other bit is set |
| Qvalue.ParseQuality | crates/ngx-compress-core/src/negotiation.rs:180-199 | the loop over digits reads exactly the qvalues of the grammar in section 12.4.2 of RFC 9110 |
| Qvalue.QualityIsThousandfold | crates/ngx-compress-core/src/negotiation.rs:180-199 | what is read is a thousand times the decimal number meant, exactly |
| Negotiation.Parse | crates/ngx-compress-core/src/negotiation.rs:82-126 | the two nested loops read the list item by item, malformed items dropped whole |
| Negotiation.ReadIsHomomorphism | crates/ngx-compress-core/src/negotiation.rs:82-126 | reading `a,b` is the slot-wise maximum of reading a and reading b |
| Negotiation.SlotIsHighest | crates/ngx-compress-core/src/negotiation.rs:118-122 | each slot holds the highest quality any item gives it, and nothing if none does |
| Negotiation.OrderAndRepetitionDoNotMatter | crates/ngx-compress-core/src/negotiation.rs:82-126 | lists that say the same things are read the same |
| Negotiation.AcceptableByTheRules | crates/ngx-compress-core/src/negotiation.rs:129-146 | a coding has a quality above zero exactly by the rules of section 12.5.3 of RFC 9110, read off the items: named, else by `*`, else only identity |
| Negotiation.QualityFromItems | crates/ngx-compress-core/src/negotiation.rs:129-146 | and how high it is: the highest of the items that name the coding, else of the `*` items, else nothing; an identity nobody names is full, unless `*` is given zero and nothing above |
| HeaderPadding.ItemReadsAsSaid | crates/ngx-compress-core/src/negotiation.rs:90-117 | blanks around an item, around `;`, and around a parameter's name and value change nothing: any list item, however padded, reads as what its parts say |
| HeaderPadding.ListReadsAsSaid | crates/ngx-compress-core/src/negotiation.rs:82-126 | a padded list reads as what its items say, slot by slot the highest |
| HeaderPadding.BlanksDoNotMatter | crates/ngx-compress-core/src/negotiation.rs:82-126 | lists whose items say the same are read the same, whatever their blanks |
| HeaderPadding.PaddedTableReads | crates/ngx-compress-core/src/negotiation.rs:27-126 | any table of qualities, written item by item in any order, with repetitions and any blanks, reads back as itself |
| HeaderPadding.PaddedQualities | crates/ngx-compress-core/src/negotiation.rs:129-146 | so each coding such a list names has its own quality, and the others that of `*` |
| HeaderCase.CaseDoesNotMatter | crates/ngx-compress-core/src/negotiation.rs:43-126 | a field value and its lower-case form are read alike |
| HeaderCase.NamesAreRead | crates/ngx-compress-core/src/negotiation.rs:43-60 | a token is read as a coding if and only if, in lower case, it is the coding's own token, or `x-gzip` for gzip |
| HeaderCase.LineIff | crates/ngx-compress-module/src/filter/integration.rs:32-36 | a header line counts if and only if its name in lower case is `accept-encoding` and its value is text |
| Negotiation.JoinLaws | crates/ngx-compress-core/src/negotiation.rs:118-122 | the join is commutative, associative and idempotent, with the absent field as unit |
| Negotiation.AcceptEncodingOf | crates/ngx-compress-module/src/filter/integration.rs:26-45 | the matching field lines are joined by commas and parsed, or the field is absent |
| Negotiation.LinesJoin | crates/ngx-compress-module/src/filter/integration.rs:32-44 | for every coding, the joined lines give the quality of the lines read apart and joined, empty and absent lines included |
| Negotiation.NegotiateBest | crates/ngx-compress-core/src/negotiation.rs:149-169 | the fold selects the best: highest quality, earliest in the server's order; it refuses only when nothing available is acceptable |
| Negotiation.NegotiateIff | crates/ngx-compress-core/src/negotiation.rs:149-169 | a coding is selected if and only if it is the best |
| HeaderPrinter.PrintReadRoundTrip | crates/ngx-compress-core/src/negotiation.rs:27-126 | any table of qualities over the seven codings and `*`, printed with canonical tokens, reads back as itself |
| StaticPolicy.SortIsStable | crates/ngx-compress-core/src/static_policy.rs:68-72 | the sort by quality is descending, a permutation, and stable |
| Sidecar.ProbeRefinesNegotiation | crates/ngx-compress-core/src/static_policy.rs:40-74 | probing in sorted order serves exactly the coding negotiation selects among existing sidecars and the file itself, identity last, and nothing exactly when that is identity or nothing |
| Sidecar.ProbeServesFirst | crates/ngx-compress-module/src/static_file/sidecar.rs:79-121 | short of an error the first acceptable existing candidate is served; Vary is added once, exactly when some candidate exists or the request is refused |
| Sidecar.OnModeServes | crates/ngx-compress-module/src/static_file/mod.rs:70-119 | `on` mode end to end: what is served, and 406 if and only if nothing at all is acceptable |
| Sidecar.OnModeVaries | crates/ngx-compress-module/src/static_file/sidecar.rs:79-121 | `on` mode adds Vary if and only if it is switched on and some sidecar exists or the request is refused |
| Sidecar.AlwaysModeServes | crates/ngx-compress-module/src/static_file/mod.rs:103-118 | `always` mode serves the first sidecar there is in the server's order, never refuses, never adds Vary |
| Sidecar.Response.ProbeAndServe | crates/ngx-compress-module/src/static_file/sidecar.rs:79-121 | the loop with its `vary_added` flag gives the outcome and the headers of the specification, failures included |
| Sidecar.Response.Serve | crates/ngx-compress-module/src/static_file/mod.rs:70-119 | the handler's decisions in their order |
| Sidecar.LooksUpIff | crates/ngx-compress-module/src/static_file/mod.rs:81-96 | no file is looked up, and the request goes on as it came, exactly in mode `off`, for another method than GET and HEAD, and for a path that is empty or ends in a slash |
| Priority.Config.SetPriority | crates/ngx-compress-module/src/config/value.rs:65-89 | accepted exactly when not empty, all known and no coding twice; otherwise the setting is unchanged |
| Priority.RuntimeNames | crates/ngx-compress-module/src/config/value.rs:65-89 | the names a setting knows are those a header knows for the four runtime codings, but for `x-gzip` |
| Priority.ResolvePriority | crates/ngx-compress-module/src/config/resolve.rs:126-144 | for any list the deduplicating loop computes the specification, unless it runs out of slots |
| Priority.FitsIff | crates/ngx-compress-module/src/config/resolve.rs:126-144 | the five slots suffice if and only if the list does not hold both dictionary codings; so for every list `set_priority` accepts |
| Priority.ResolvedIsComplete | crates/ngx-compress-module/src/config/resolve.rs:113-144 | the accepted list first and whole, the rest in the profile's order, every runtime coding exactly once, identity last |
| Priority.DocumentedOrders | crates/ngx-compress-module/src/config/resolve.rs:159-190 | with no list, the two orders that are documented |
| Priority.DistinctRuntimeCodings | crates/ngx-compress-module/src/config/value.rs:84-86 | the pigeonhole: distinct runtime codings are at most four, and four are all |
| Decline.FilterTakesOver | crates/ngx-compress-module/src/static_file/mod.rs:97-102 | where the static handler counts on the runtime filter, the filter's own negotiation does select a coding other than identity |
| Decline.RefusesOnlyForBoth | crates/ngx-compress-module/src/static_file/mod.rs:96-118 | for every configured priority, the handler answers 406 if and only if neither sidecars, file nor an enabled filter have anything acceptable |
| WorkerPool.Worker.Acquire | crates/ngx-compress-module/src/filter/worker.rs:43-58 | the first idle codec of the key leaves the pool by swap-remove; it is handed on only after its reset succeeds, and is otherwise gone from pool and requests |
| WorkerPool.Worker.Release | crates/ngx-compress-module/src/filter/worker.rs:62-70 | a codec goes back if fewer than eight are idle |
| WorkerPool.Worker.Build | crates/ngx-compress-module/src/filter/select.rs:46-68 | reused or new, the codec has the parameters its location asks for and a new codec's state, no codec is in two places, and a failed reset is reported exactly when there was one; it fails exactly when the coding has no level, or a new codec is needed and cannot be made |
| WorkerPool.Worker.Choose | crates/ngx-compress-module/src/filter/select.rs:15-27 | refuses, or uses no codec, exactly as negotiation says; fails exactly when building the selected coding's codec does; otherwise that codec is installed, and a failed reset is reported exactly when there was one |
| WorkerPool.Worker.Cleanup | crates/ngx-compress-module/src/filter/context.rs:12-27 | a finished request's codec returns under the request's own key |
| WorkerPool.MatchesOnlyOne | crates/ngx-compress-module/src/filter/select.rs:70-111 | a key determines what a codec is constructed with, whichever location built it |
| WorkerPool.ParamsAreConfigured | crates/ngx-compress-module/src/filter/select.rs:83-111 | parameters are what a coding's codec is constructed with if and only if they are for its algorithm and hold the numbers the location configures for that one |
| WorkerPool.KeyHoldsParams | crates/ngx-compress-module/src/filter/select.rs:46-81 | a key holds every number of the parameters it stands for, each in its own place, and is missing only for a number that does not fit in 32 bits |
| WorkerPool.SwapRemoveTakesOne | crates/ngx-compress-module/src/filter/worker.rs:48-49 | swap-remove takes one entry and loses no other |
| ConflictScan.Scan.Discover | crates/ngx-compress-module/src/registration/gzip.rs:52-97 | the scan ends having seen exactly the locations reachable from server roots and named locations, and looked at each array as often as those servers and locations have it, each location's two once |
| ConflictScan.Scan.ScanTree | crates/ngx-compress-module/src/registration/gzip.rs:103-141 | terminates on any graph, shared or cyclic; what is new was reached from here and leads nowhere unseen |
| ConflictScan.Scan.ScanQueue | crates/ngx-compress-module/src/registration/gzip.rs:145-182 | the same over a location queue |
| ConflictScan.Scan.ScanAll | crates/ngx-compress-module/src/registration/gzip.rs:186-212 | the same over a null-terminated list |
| ConflictScan.Scan.Inspect | crates/ngx-compress-module/src/registration/gzip.rs:216-245 | each configuration is recorded once, as the first array that holds it says, with one warning if that is a conflict |
| ConflictScan.ExploredIsReached | crates/ngx-compress-module/src/registration/gzip.rs:103-141 | a search from nothing has been at a location if and only if a root leads there |
| ConflictScan.ChildrenAre | crates/ngx-compress-module/src/registration/gzip.rs:103-212 | a location leads exactly to those its queue's entries hold, exact or inclusive, and to those of its regex array |
| ConflictScan.AgreeingArrays | crates/ngx-compress-module/src/registration/gzip.rs:227-238 | where the arrays that hold a configuration agree on whether it conflicts, a warning is given if and only if one of them conflicts |
| ConflictScan.WarnedIff | crates/ngx-compress-module/src/registration/gzip.rs:227-238 | a warning is never unfounded, and is given whenever some array conflicts if and only if the first array that holds the configuration does, or none does |
| ConflictScan.FirstArrayDecides | crates/ngx-compress-module/src/registration/gzip.rs:227-238 | of any two arrays that disagree, the one met first decides, whatever follows |
| ConflictScan.OrderFreeIff | crates/ngx-compress-module/src/registration/gzip.rs:227-238 | the order in which arrays are met makes no difference if and only if all that hold the configuration agree |
| ConflictScan.Scan.WarnsOfConflicts | crates/ngx-compress-module/src/registration/gzip.rs:216-245 | after a scan, a configuration whose arrays agree has been warned about if and only if compression is on in it and one of those arrays has the gzip flag on |

## Left out

- The compression libraries and the brotli and zstd adapters: they are thin wrappers; only the contract of a deflate stream is used.
- Equal bytes for budgeted and unbudgeted runs of a general codec: not claimed, because a truncated prefix is shown as `Continue` and a codec may compress it differently.
- Filter.Callback: the Server-Timing trailer and the statistics recorded around a drive are not modelled, nor are logging and fault injection.
- OutputPool.TakeBuffer: an allocation is one unit of a `memory` count, so a failed allocation is modelled but not what else the request pool does.
- RequestContext.RequestCtx.TryStep: the codec is its state and a step function that returns the written bytes, which are then copied into the buffer; a codec that writes past what it reports cannot be expressed. After a backend error nothing is said about the output region.
- RequestContext.RequestCtx.AppendInput: finds the tail for each new link instead of remembering it.
- RequestContext.RequestCtx.BodyFilter: one callback at a time; callbacks that bring chains are not composed in one method, because each brings buffers that upstream lends only then.
- NgxOutputProvider.NgxOutput.Deliver: downstream's sending is taken to happen after `out` has joined `busy`; the references downstream keeps to empty boundary buffers are not modelled.
- Liveness.EventuallyDone: assumes a non-empty buffer, large enough for the flushes there are, memory for the buffers still to be allocated, and input buffers whose positions are in order.
- Gzip.GzipOverTheWire: assumes zlib's contract of the deflate stream; the level only selects a stream, and which library is linked is not modelled.
- Negotiation.Parse: a field value is a sequence of characters; that a value is valid UTF-8 is an input (`Header.value`).
- Sidecar.Response.Serve: the check that the built-in gzip filter disables the module is not modelled; opening a file is an oracle with three answers, and sending it can fail only for want of memory for its header.
- WorkerPool.Worker.Build: a failed reset or construction is an input; that a successful reset gives the state of a new codec is proved for gzip (`GzipCodec.GzipEncoder.Reset`) and assumed of the others.
- Priority.ResolvePriority: a null result stands for the panic at the index past the last slot; what the callback guard makes of it is not modelled.
- ConflictScan.Scan.Discover: the discovery of the gzip flag itself is not modelled; a location queue is the list of its entries, and an address is a number.
- The header filter's order of work, MIME matching, eligibility, level setters, configuration merging and presets: one-branch facts.
- NGINX variables, time, pointers, panic guards and callback registration.
