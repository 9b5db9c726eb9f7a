# Verified model of the cuprum output path

This project models, in Dafny, how cuprum retains, bounds, mirrors and delivers the
bytes of a child process, together with the self-contained algorithms and thread
protocols of its benchmark code, and proves what that code promises. One module
follows one source file:

| file | what it models |
|---|---|
| `Unicode.dfy` | UTF-8 (sections 3 and 4 of RFC 3629), UTF-16 (sections 2.1 and 2.2 of RFC 2781) and UTF-32 over scalar values |
| `CaptureDecode.dfy`, `CapturePending.dfy` | mark resolution and the code-point trim, on valid streams and on arbitrary bytes |
| `CaptureAccumulators.dfy` | the full and the bounded accumulator |
| `CaptureSpillIo.dfy`, `CaptureSchedule.dfy`, `CaptureFile.dfy` | the file-backed accumulator, its storage and its handle, under every schedule of failures and cancellations, and what each schedule makes of a capture |
| `SpillOrdering.dfy` | the lock those storage calls run through, and the shield that re-awaits them through every cancellation |
| `DeliveryProtocol.dfy`, `BoundedDelivery.dfy` | the delivery worker as a transition system, and the object whose sections are its steps |
| `EchoTruncation.dfy` | the echo line limiter and its self-referential marker |
| `WindowsQuoting.dfy` | the Windows token quoter against the Microsoft C runtime's argument rules |
| `Base64Fixture.dfy` | the keystream, the wrapped base64 writer and the fixture |
| `PtyBlackhole.dfy` | the PTY drainer's shutdown protocol, and the counting writer |
| `NativePumpPool.dfy` | the native pump pool |
| `LineEventClassifier.dfy` | rule resolution and the gate of the profile classifier |
| `RatchetHistory.dfy` | the ratchet's window, median and noise band |
| `LineSplitting.dfy` | the CR, LF and CRLF contract |
| `IdleHeartbeat.dfy` | the idle schedule and its polling |

Objects whose methods update fields are classes; each method is proved equal to a
function of the old state, and the promises are lemmas about those functions. Protocols
between threads or tasks are transition systems whose events are the sections the source
runs under a lock or between two awaits, so a statement about every event sequence is a
statement about every interleaving. The world (storage calls, cancellations, kernel answers, clocks, sink
outcomes) is a parameter.

Where the code does not keep a promise its documentation makes:

- `cuprum/_capture_file.py` says a failed spill's file is removed and nothing is left to
  clean up. If the unlink of that clean-up is refused as well, the handle is dropped and
  the file stays on disk out of every handle's reach. `CaptureFile.LeakWitness` brings an
  accumulator there; `CaptureFile.RunCapture` proves that a file survives its run exactly
  by this, by being kept, or by a final clean-up that is cancelled or refused;
  `CaptureSchedule.LeakNeedsTwoRefusals` that no handle is lost without two refusals.
- `cuprum/_capture_spill_io.py:268-270` says a cancellation that arrives alongside a failing
  call wins over the failure throughout the spill seam. The settling loop
  (`cuprum/_process_lifecycle.py:277-279`) holds back cancellations but not the call's own
  `OSError`, which leaves in place of the cancellation that was to be re-raised.
  `SpillOrdering.LostCancellation` is a run that loses one, and
  `SpillOrdering.CancellationIsRaisedIff` proves that a delivered cancellation is raised
  exactly when the call did not fail, or one was delivered after the call had ended.
  `CaptureSchedule.LostCancellationLeaks` shows what it costs: cancelled during a write that
  a full disk refuses, the capture goes on and can leave its file behind.
- `cuprum/_pipeline_native_pump_runtime.py` says workers that finish a hand-off return to
  the idle pool or retire. A worker that settles a future already cancelled raises out of
  its thread instead, after running the job: `NativePumpPool.DeathWitness` is such a run,
  and `NativePumpPool.DiedIffEndedCancelled` proves that it happens exactly when a job
  ended whose future had been cancelled. The pool's own caller never does that: it awaits
  a shield around the wrapped future (`cuprum/_pipeline_stream_native_cleanup.py:374-377`),
  so its cancellation stops at the shield, and `NativePumpPool.ShieldedWorkersLive` gives
  it the promise in full. Only another user of the executor can meet the difference.
- `cuprum/_capture_decode.py` says the trailing step of the trim drops the incomplete code
  point there. In UTF-16 and UTF-32 it also drops part of a code unit that no byte can turn
  into a code point: `CapturePending.DoomedUnit` has one, `CapturePending.CompletableIff`
  says which bytes some later ones complete, and `CapturePending.IncompleteIffHeldBack`
  says exactly what is dropped.
- `benchmarks/ratchet_history.py:188-193` says fewer than two samples, or a window with no
  spread, yields no noise band. A window with spread yields none either when its median is
  not positive, or when more than half of its samples are the median:
  `RatchetHistory.NoBandIff` has the exact condition.

## Model

| member | source | states |
|---|---|---|
| Unicode.DecodeEncode | cuprum/_capture_decode.py:185-203 | decoding undoes encoding for every text in every codec |
| Unicode.EncodeDecode | cuprum/_capture_decode.py:185-203 | a strictly decodable byte sequence is the encoding of what it decodes to, so a valid stream has one spelling |
| Unicode.FrontOfEncoded | cuprum/_capture_decode.py:314-319 | the decoder reads exactly the code point an encoder put at the front, whatever follows |
| Unicode.FrontIsEncoded | cuprum/_capture_decode.py:314-319 | the decoder accepts only shortest, surrogate-free spellings |
| Unicode.FrontOfPartial | cuprum/_capture_decode.py:314-319 | every proper start of a code point is held back rather than decoded or rejected |
| Unicode.EncodedIff | cuprum/_capture_decode.py:185-203 | the encoders are those of the standards: the bytes of a code point are exactly the ones that carry its value in the one form RFC 3629, RFC 2781 or UTF-32 has for it |
| CaptureDecode.MarkSelectedCodec | cuprum/_capture_decode.py:110-121 | the table search finds the codec whose encoded byte-order mark opens the stream, if any |
| CaptureDecode.BoundedSettings | cuprum/_capture_decode.py:124-182 | a cut tail is read with the mark's codec, else the host's order, else plain UTF-8 for utf-8-sig |
| CaptureDecode.NamedReads | cuprum/_capture_decode.py:46-66 | for all bytes: each name reads past its own mark, byte for byte, in the order the mark says, and without one in the host's order |
| CaptureDecode.FindLeadingTrim | cuprum/_capture_decode.py:287-311 | the scan and the alignment compute the leading trim, which is at most 3 bytes |
| CaptureDecode.TrimTail | cuprum/_capture_decode.py:206-276 | the two-step trim of the source computes the specified one: `CapturePending.TrimTakesTheEdges` says which bytes that takes of an arbitrary tail, `TrimKeepsWholeCodePoints` what it leaves of a valid one |
| CaptureDecode.PendingOfWhole | cuprum/_capture_decode.py:314-319 | after whole code points, what is pending is exactly the partial one at the end |
| CaptureDecode.InsideCodePoint | cuprum/_capture_decode.py:287-311 | a tail starting inside a code point loses exactly the rest of that code point |
| CaptureDecode.InsidePartial | cuprum/_capture_decode.py:206-276 | nothing survives of a tail that starts inside the unfinished last code point |
| CaptureDecode.TrimKeepsWholeCodePoints | cuprum/_capture_decode.py:206-276 | for every text, codec, stopping point and start, the trim leaves exactly the code points wholly inside the tail |
| CaptureDecode.FirstBoundaryIsNear | cuprum/_capture_decode.py:243-249 | at most three bytes go at the front |
| CaptureDecode.FirstBoundaryIsFirst | cuprum/_capture_decode.py:212 | no longer suffix of whole code points fits in the tail |
| CapturePending.TrimTakesTheEdges | cuprum/_capture_decode.py:206-276 | for arbitrary bytes, well formed or not: the trim takes the front edge, and at the back exactly where reading whole code points and skipping ill-formed units runs out, which is at most 3 bytes held back as incomplete |
| CapturePending.PendingIsWhatIsLeft | cuprum/_capture_decode.py:314-319 | what is pending is where that reading first runs out, and nothing else is, for all bytes |
| CapturePending.PendingIsHeldBack | cuprum/_capture_decode.py:314-319 | at most three bytes are pending, and they are none or held back |
| CapturePending.IncompleteIffHeldBack | cuprum/_capture_decode.py:314-319 | a decoder holds back exactly the start of a code point, or such a start or nothing with an unfinished code unit behind it |
| CapturePending.CompletableIff | cuprum/_capture_decode.py:314-319 | bytes are the start of a code point exactly when some later bytes complete it; what UTF-8 holds back always is one |
| CapturePending.DoomedUnit | cuprum/_capture_decode.py:314-319 | half a UTF-16 unit that is held back although nothing completes it |
| CapturePending.FrontEdgeIff | cuprum/_capture_decode.py:279-311 | for arbitrary bytes the leading trim is the one cut at the front edge: the continuation bytes up to three, the rest of a code unit, and a low surrogate behind it |
| CapturePending.TrimmedDecodesIff | cuprum/_capture_decode.py:185-276 | when what the trim leaves of arbitrary bytes decodes strictly |
| CaptureAccumulators.BoundedAgrees | cuprum/_capture_accumulators.py:147-160 | for every stream, encoding, host and bound: a bounded and a full capture agree on the total, and altogether up to the bound; beyond it the bounded one reads a suffix of what the full one reads, in bytes and in text |
| CaptureAccumulators.CaptureBothWays | cuprum/_capture_accumulators.py:115-250 | that agreement for the two accumulators themselves, each fed the stream in its own chunks |
| CaptureAccumulators.BoundedAccumulator.Absorb | cuprum/_capture_accumulators.py:184-194 | the buffer stays the last bytes of the stream, offset and drop count stay the bytes before it, the prefix stays the stream's first four bytes |
| CaptureAccumulators.BoundedAccumulator.RetainedSource | cuprum/_capture_accumulators.py:210-230 | the rendered bytes and their codec are a function of the stream alone |
| CaptureAccumulators.BoundedAccumulator.Finalize | cuprum/_capture_accumulators.py:196-250 | the result is a function of the stream, so repeated calls agree; the truncation event is published once, with its counts |
| CaptureAccumulators.CaptureBounded | cuprum/_capture_accumulators.py:184-250 | no chunking of a stream changes what a bounded capture reports, now or when asked again |
| CaptureAccumulators.PrefixSelects | cuprum/_capture_accumulators.py:172-178 | four remembered bytes select the codec the whole stream does |
| CaptureAccumulators.SpellsIffDecodes | cuprum/_capture_decode.py:185-203 | a complete stream spells a text, mark included, exactly when a whole-stream decode yields it |
| CaptureAccumulators.BoundedTextIsLongestSuffix | cuprum/_capture_accumulators.py:196-250 | for every encoding, host, bound and stopping point the bounded text is a suffix of the text, and the drop count is every byte not rendered |
| CaptureAccumulators.BoundedTextIsTight | cuprum/_capture_decode.py:237-249 | the rendered bytes fit the bound and miss it by at most 3 bytes and the partial code point |
| CaptureAccumulators.NoLongerTextFits | cuprum/_capture_decode.py:212 | no longer suffix of the text fits the bound |
| CaptureAccumulators.BoundedReadsSuffixOfFull | cuprum/_capture_accumulators.py:147-160 | for every complete stream the bounded text is a suffix of the full decode without its mark, and total is dropped plus rendered bytes |
| CaptureAccumulators.PartialStreamReads | cuprum/_capture_accumulators.py:211-229 | a stream stopped inside a code point reads cleanly exactly when the bound has cut it |
| CaptureSpillIo.SpillHandle.CloseFile | cuprum/_capture_types.py:159-191 | closing happens once, removal is attempted whenever asked and not kept, and exactly the schedule decides whether the file is gone |
| CaptureSpillIo.SpillIo.Write | cuprum/_capture_spill_io.py:125-156 | a refused write may still have taken any prefix of its chunk, and nothing else |
| SpillOrdering.CallsRunInOrderOneAtATime | cuprum/_capture_spill_io.py:125-156 | in every interleaving of calls and cancellations, storage calls begin in the order made, one at a time, and one that gave up waiting never begins |
| SpillOrdering.NoCallerLeavesItsWorker | cuprum/_process_lifecycle.py:266-292 | however many cancellations are delivered, at whichever await, no caller goes on while its own worker is at work; one that left has had its call end |
| SpillOrdering.CancellationIsRaisedIff | cuprum/_process_lifecycle.py:266-292 | in every interleaving a caller past the lock raises a cancellation exactly when one was delivered and its call did not fail or one came after the call had ended; it raises the failure exactly when there is one and none came so late; that is the rule the storage model applies to each call |
| SpillOrdering.LostCancellation | cuprum/_process_lifecycle.py:277-279 | a run in which a delivered cancellation is never raised |
| SpillOrdering.EverySuspendedCallerGoesOn | cuprum/_capture_spill_io.py:125-156 | no wake-up is lost: while a caller is suspended some move can be made, waiting only for a worker, and at most two moves of the holder and three for each call up to its own keep it there, whatever is made and cancelled meanwhile |
| SpillOrdering.RunKeeps | cuprum/_capture_spill_io.py:125-156 | in every reachable state the queue is in order, one caller inside the shield holds the lock, and each caller stands where its worker, the call's failure and its cancellations put it |
| CaptureFile.FileAccumulator.CreatePublishedSpill | cuprum/_capture_spill_io.py:234-286 | a file that exists is adopted before a failure or a cancellation escapes |
| CaptureFile.FileAccumulator.Absorb | cuprum/_capture_file.py:128-139 | on the heap, one attempt to spill exactly when the policy has no threshold or the stream has outgrown it, decided by the schedule; on file, one write whose outcome decides failure, cancellation and what the file takes, or nothing at all after a failure; and the calls either makes |
| CaptureFile.FileAccumulator.Spill | cuprum/_capture_file.py:174-221 | the capture moves to file, with the whole stream on it, exactly when create, write and flush return; how every other ending leaves it, and the calls made |
| CaptureFile.FileAccumulator.LandPrefix | cuprum/_capture_file.py:199-214 | every ending of the prefix's write and flush: landed, cancelled with the handle kept, or failed and cleaned up, where a failure outlasts a cancellation delivered during the call |
| CaptureFile.FileAccumulator.DiscardFailedSpill | cuprum/_capture_file.py:241-263 | a failed spill returns to the heap; failures of the close and the unlink are suppressed and the handle dropped, which loses the file exactly when the unlink fails; a cancellation that escapes keeps the handle; whether the file is still there in each case |
| CaptureFile.FileAccumulator.Append | cuprum/_capture_file.py:294-316 | an append counts only what was accepted, and a failed one is the last |
| CaptureFile.FileAccumulator.FlushBeforeReading | cuprum/_capture_file.py:355-377 | flushed <= spilled <= taken holds through a refused flush |
| CaptureFile.FileAccumulator.ReadBack | cuprum/_capture_file.py:318-339 | a read that returns is the file's bytes, a prefix of the stream; one that fails is a recorded failure, and a cancellation it does not swallow escapes |
| CaptureFile.FileAccumulator.Finalize | cuprum/_capture_file.py:341-399 | from the heap the whole stream without a call; on file a flush and, for bytes, a read-back, which alone decide cancellation, failure and how much of what the file took is read |
| CaptureFile.FileAccumulator.Cleanup | cuprum/_capture_file.py:152-159 | the handle's file is gone exactly when the unlink is reached and runs, every other file is untouched, and a file left keeps a prefix of what it took, all of it after a clean close |
| CaptureFile.RunCapture | cuprum/_capture_file.py:1-31 | for every chunk sequence, threshold, policy and schedule: a stream no longer than its threshold is returned from the heap, without a storage call and with no file left, whatever the schedule; one that outgrows it, or any chunk without a threshold, goes to file when nothing disturbs its calls, and a caller that wants bytes reads them all; how many chunks are absorbed; that there is a result unless one of the capture's own calls ends in a cancellation; that it reports a failure exactly when one of them ends in one; what it reads, from the heap as a full capture does and from the file exactly what the file took; and, for a clean-up disturbed or not, how it ends, whether a file survives it, and with which bytes |
| CaptureFile.AbsorbAll | cuprum/_capture_file.py:128-139 | chunks are absorbed up to the first one of whose calls ends in a cancellation; the calls made, failure, landing, the handle and the bytes on file are those of the schedule |
| CaptureSchedule.LeakNeedsTwoRefusals | cuprum/_capture_file.py:241-263 | no schedule of cancellations alone loses a handle; it takes two refused calls |
| CaptureSchedule.SpillVerdict | cuprum/_capture_file.py:192-221 | one attempt to spill is cancelled exactly when a call it made ends so, and otherwise lands exactly when none of them fails |
| CaptureSchedule.LostCancellationLeaks | cuprum/_capture_file.py:199-263 | a cancellation during a refused write is lost, and the run goes on to leave its file behind |
| CaptureSchedule.AppendVerdict | cuprum/_capture_file.py:304-316 | appends go on exactly while no call of the capture has ended in a cancellation or a failure |
| CaptureSchedule.TakesPrefix | cuprum/_capture_file.py:13-25 | whatever fails, the file holds a gap-free prefix of the stream, from the spilled prefix on |
| CaptureFile.ReportIsGapFree | cuprum/_capture_file.py:13-25 | bytes read back from a file start with everything spilled and are a prefix of the stream, all of it unless the result reports a failure |
| CaptureFile.UndisturbedLeavesKept | cuprum/_capture_file.py:152-159 | a clean-up nothing disturbs leaves exactly a kept file, or the one a failed spill lost |
| CaptureFile.LeakWitness | cuprum/_capture_file.py:253-262 | a full disk in a directory that refuses removals leaves a file no handle reaches |
| DeliveryProtocol.BytesAreConserved | cuprum/_bounded_delivery.py:216-360 | in every interleaving, per target and in total, offered = rejected + queued + active + confirmed + failed + undelivered |
| DeliveryProtocol.CloseAccountsForEveryByte | cuprum/_bounded_delivery.py:241-266 | a published result accounts for every byte offered so far, one entry per target, and its failures are the target of the item handed out last, or none |
| DeliveryProtocol.DeliveryIsFifoAndBounded | cuprum/_bounded_delivery.py:224-340 | sinks get a prefix of the accepted items in order, the queue's byte count is right and within the bound, one failure and one report at most |
| DeliveryProtocol.NothingAfterTheEnd | cuprum/_bounded_delivery.py:276-313 | after a failure or abandonment nothing is taken or handed out, and a published result never changes |
| DeliveryProtocol.CleanCloseDeliversEverything | cuprum/_bounded_delivery.py:241-266 | a close that finds its worker stopped and unfailed has delivered every accepted item |
| DeliveryProtocol.ClosingWorkerFinishes | cuprum/_bounded_delivery.py:276-313 | once a close has begun the worker has at most four steps left for each queued item and four more, and one to take until it has left, waiting only for writes; it leaves nothing queued |
| DeliveryProtocol.ClosingDeliversTheQueue | cuprum/_bounded_delivery.py:276-313 | from every reachable state of a closing worker still delivering, writes that succeed bring it to its end with every accepted item delivered in order |
| DeliveryProtocol.CloseAlwaysPublishes | cuprum/_bounded_delivery.py:241-266 | from every reachable state at most two steps of the closer alone publish a result, even past a worker that never stops |
| DeliveryProtocol.CleanCloseIsReached | cuprum/_bounded_delivery.py:241-313 | from every reachable open state in which no write has failed, a close whose writes succeed delivers every accepted item in order and reports no failure and nothing more undelivered |
| DeliveryProtocol.OfferIsDecidedByFit | cuprum/_bounded_delivery.py:228-239 | an item without bytes and value changes nothing; any other is refused when closed or failed, rejected exactly when it would pass the bound, else queued last |
| DeliveryProtocol.RunKeeps | cuprum/_bounded_delivery.py:151-364 | conservation, order, whose the recorded failures are and consistency of the flags hold in every reachable state |
| DeliveryProtocol.AddUndeliveredAt | cuprum/_bounded_delivery.py:342-360 | the target's own entry grows and every other entry stays where it was |
| DeliveryProtocol.AddUndeliveredGrouped | cuprum/_bounded_delivery.py:342-364 | one non-empty entry per target, in order of first appearance |
| DeliveryProtocol.DiscardAmount | cuprum/_bounded_delivery.py:331-340 | discarding moves exactly the queue's bytes to their own targets |
| BoundedDelivery.DeliveryWorker.AddUndeliveredEntry | cuprum/_bounded_delivery.py:342-360 | whatever the table, the scan stops at the target's one entry and grows it where it stands, or opens one at the end: `AddUndeliveredAt` and `AddUndeliveredGrouped` say what that keeps |
| BoundedDelivery.DeliveryWorker.DiscardQueued | cuprum/_bounded_delivery.py:331-340 | discarding front to back leaves nothing queued, no queued bytes, and the table `DiscardAmount` accounts for |
| BoundedDelivery.DeliveryWorker.EnqueueItem | cuprum/_bounded_delivery.py:216-239 | one step of the protocol, whose caller gets back the item's bytes exactly when the bound rejects it, and otherwise 0 |
| BoundedDelivery.DeliveryWorker.BeginClose | cuprum/_bounded_delivery.py:243-247 | one step of the protocol: the first close stops offers, a later one is handed the result already published |
| BoundedDelivery.DeliveryWorker.EndClose | cuprum/_bounded_delivery.py:249-266 | one step of the protocol: nothing is left queued or active, a worker still alive or busy is abandoned, and the result is the failures recorded before and everything undelivered |
| BoundedDelivery.DeliveryWorker.TakeCloseResult | cuprum/_bounded_delivery.py:268-274 | the diagnostics are handed out once |
| BoundedDelivery.DeliveryWorker.TakeNextItem | cuprum/_bounded_delivery.py:303-313 | one step of the protocol: the oldest queued item leaves the queue and becomes the active one, unless the worker is abandoned or nothing is queued |
| BoundedDelivery.DeliveryWorker.MayWrite | cuprum/_bounded_delivery.py:315-321 | an abandoned worker starts no write |
| BoundedDelivery.DeliveryWorker.FinishDelivery | cuprum/_bounded_delivery.py:276-301 | one step of the protocol: the worker goes on exactly after a write that succeeded with nobody having given up on it; a failure is recorded against the item's own target, once (`DeliveryProtocol.CloseAccountsForEveryByte`) |
| EchoTruncation.Finished | cuprum/_echo_truncation.py:144-201 | no mirrored line exceeds the budget; one that fits is unchanged |
| EchoTruncation.EchoLine | cuprum/_echo_truncation.py:137-201 | a line's mirror depends on its bytes, not on its segments |
| EchoTruncation.EchoLineLimiter.BoundLine | cuprum/_echo_truncation.py:137-142 | every byte is counted, only the bounded prefix retained |
| EchoTruncation.EchoLineLimiter.FinishLine | cuprum/_echo_truncation.py:144-201 | the finished line, and a limiter ready for the next; `NoLongerPrefixFits` and `ByteSinkIsFilled` say how much of the line it keeps |
| EchoTruncation.BoundedPrefix | cuprum/_echo_truncation.py:203-232 | the prefix of the last of at most sixteen rounds, the longest that leaves room for its marker |
| EchoTruncation.EncodePrefix | cuprum/_echo_truncation.py:235-292 | the longest prefix ending on a character whose encoding fits |
| EchoTruncation.LongestFit | cuprum/_echo_truncation.py:235-292 | nothing longer fits |
| EchoTruncation.NextDroppedMonotone | cuprum/_echo_truncation.py:211-231 | each round's count is no greater than the last |
| EchoTruncation.RoundsSettle | cuprum/_echo_truncation.py:211-232 | a fixed point is reached within one more round than the first count has digits |
| EchoTruncation.CapNeverDecides | cuprum/_echo_truncation.py:212 | below 10^15 bytes the sixteen-round cap never ends the loop |
| EchoTruncation.SettlesOnGreatest | cuprum/_echo_truncation.py:203-232 | no consistent count is greater than the one the rounds settle on |
| EchoTruncation.DroppedAccountsForTheRest | cuprum/_echo_truncation.py:163-201 | source minus dropped bytes is the kept prefix plus the emitted ending, and the payload is framed by them |
| EchoTruncation.ShownSpellsKept | cuprum/_echo_truncation.py:235-292 | what is shown is the kept prefix, as the sink spells it |
| EchoTruncation.MarkerNamesExactlyWhatWasDropped | cuprum/_echo_truncation.py:183-201 | the whole marker, naming the dropped bytes, is emitted if and only if the budget holds it beside the ending |
| EchoTruncation.NoLongerPrefixFits | cuprum/_echo_truncation.py:203-292 | below 10^15 bytes: when the whole marker is emitted, of the bytes a limiter retains, no prefix longer than the kept one that ends on a character leaves room for that marker and the ending, as the sink spells it |
| EchoTruncation.ByteSinkIsFilled | cuprum/_echo_truncation.py:203-232 | a truncated line for a byte sink is a prefix of the line, the marker and the ending, and fills the budget to the last byte whenever the ending fits it |
| EchoTruncation.ShownIsKeptPrefix | cuprum/_echo_truncation.py:235-292 | what a truncated line shows is the sink's spelling of a prefix of the line |
| EchoTruncation.MarkerReads | cuprum/_echo_truncation.py:18-46 | the marker for 65 bytes, byte for byte, with the sink's ellipsis and with three periods |
| EchoTruncation.RoomForTheWorstMarkerSuffices | cuprum/_echo_truncation.py:183-201 | a condition on the line alone that guarantees the whole marker |
| EchoTruncation.DecimalRoundTrip | cuprum/_echo_truncation.py:19-20 | a marker's digits read back as the count |
| EchoTruncation.MarkerIsInjective | cuprum/_echo_truncation.py:24-46 | two markers are the same only when they name the same count |
| EchoTruncation.FittedMarker | cuprum/_echo_truncation.py:295-314 | a fitted marker never exceeds its room |
| EchoTruncation.FittedIsLongest | cuprum/_echo_truncation.py:295-314 | a marker that does not fit is cut to a prefix of its ASCII form, and no longer prefix fits the room |
| EchoTruncation.SplitEchoSegments | cuprum/_echo_truncation.py:317-353 | the segments and their endings are the chunk, every line is complete but possibly the last |
| WindowsQuoting.QuoteToken | benchmarks/pipeline_throughput_runner.py:98-115 | the loop with its count of backslashes held back computes the token that `BareIffPlain`, `ScanQuoted` and `ParseRendered` describe |
| WindowsQuoting.ScanQuoted | benchmarks/pipeline_throughput_runner.py:98-115 | the runtime reads one quoted token back and touches nothing after it |
| WindowsQuoting.ParseRendered | benchmarks/pipeline_throughput_runner.py:77-115 | parsing the joined tokens returns exactly the token list, whether the runtime reads a doubled quote as a literal one, as a literal one that closes, or as a close and a reopening |
| WindowsQuoting.RenderingIsInjective | benchmarks/pipeline_throughput_runner.py:77-90 | different token lists never render alike |
| WindowsQuoting.BareIffPlain | benchmarks/pipeline_throughput_runner.py:29-31 | a token stands bare exactly when it is not empty and holds only letters, digits, `-`, `.`, `/`, `:`, `\` and `_`; every other one gains at least its two quotes |
| WindowsQuoting.DoubledQuoteRead | benchmarks/pipeline_throughput_runner.py:98-115 | what each of the three rules of the runtime makes of a doubled quote, whatever follows |
| Base64Fixture.Base64RoundTrip | benchmarks/deterministic_b64_fixture.py:91-99 | the base64 of section 4 of RFC 4648 decodes to its input |
| Base64Fixture.Base64Concat | benchmarks/deterministic_b64_fixture.py:160-165 | chunks of whole quanta encode separately |
| Base64Fixture.ThreeBytesSpell | benchmarks/deterministic_b64_fixture.py:91-99 | section 4 of RFC 4648: three bytes are the alphabet's characters for the four groups of six bits of their 24, in order |
| Base64Fixture.TwoByteSpells | benchmarks/deterministic_b64_fixture.py:91-99 | two last bytes are three characters and a pad |
| Base64Fixture.OneByteSpells | benchmarks/deterministic_b64_fixture.py:91-99 | a last byte is two characters and two pads |
| Base64Fixture.CounterBytes | benchmarks/deterministic_b64_fixture.py:73 | the eight counter bytes read, most significant first, as the counter, and no other eight bytes do |
| Base64Fixture.KeystreamByte | benchmarks/deterministic_b64_fixture.py:54-79 | byte i of the keystream is byte i mod 32 of the hash of the seed followed by the eight bytes that read as i div 32 |
| Base64Fixture.CounterStream.Read | benchmarks/deterministic_b64_fixture.py:54-79 | exactly the next bytes of the keystream, or an error exactly for a negative size or a spent counter |
| Base64Fixture.EncodedWriter.WriteChunk | benchmarks/deterministic_b64_fixture.py:91-99 | the file grows by the chunk's encoding, and the count is what was written |
| Base64Fixture.EncodedWriter.WriteWrapped | benchmarks/deterministic_b64_fixture.py:101-118 | part by part the file stays the wrapped text, and the digest sees the file |
| Base64Fixture.WriteChunks | benchmarks/deterministic_b64_fixture.py:160-165 | however much is left, chunks of whole quanta and a last one of any size together encode the keystream's prefix, and the counts add up to the file's size |
| Base64Fixture.WriteFixture | benchmarks/deterministic_b64_fixture.py:121-176 | the file is the wrapped base64 of the keystream's first bytes and the manifest describes it, or the input was invalid or too long |
| Base64Fixture.FixtureReadsBack | benchmarks/deterministic_b64_fixture.py:121-176 | the size is e or e + e div wrap, and the file reads back to the keystream |
| Base64Fixture.WrappedAt | benchmarks/deterministic_b64_fixture.py:101-118 | every character stands where the line length puts it, with a newline after each full line |
| Base64Fixture.UnwrapWrapped | benchmarks/deterministic_b64_fixture.py:101-118 | removing the newlines leaves the text |
| PtyBlackhole.SlaveOutlivesDrain | benchmarks/pty_blackhole.py:133-216 | in every interleaving the slave is closed only after the drainer published completion |
| PtyBlackhole.ExactlyOneSideCleansUp | benchmarks/pty_blackhole.py:206-216 | clean-up begins at most once, and exactly once when both sides are done |
| PtyBlackhole.OnlyTheSystemFails | benchmarks/pty_blackhole.py:346-392 | the drainer's own protocol errors are unreachable over an honest kernel |
| PtyBlackhole.ReportsIffSystemFailed | benchmarks/pty_blackhole.py:289-344 | in every run the drainer has a failure to report exactly when one of its system calls, or its closing flush, has failed |
| PtyBlackhole.AcknowledgedIsAccepted | benchmarks/pty_blackhole.py:60-73 | a finished drainer has read exactly the bytes accepted when the target was published |
| PtyBlackhole.DrainerIsNeverStuck | benchmarks/pty_blackhole.py:289-344 | no wake-up is lost: after publication the drainer can always go on |
| PtyBlackhole.DrainerFinishes | benchmarks/pty_blackhole.py:289-392 | once woken with the target, the drainer takes at most four steps for each byte still to read, each control byte and each false start, and seven more, whatever the owner does |
| PtyBlackhole.OutputIsRead | benchmarks/pty_blackhole.py:289-392 | from every reachable state at most five steps of a drainer in its loop read the next byte the terminal holds, target or not |
| PtyBlackhole.SelectsBetweenReads | benchmarks/pty_blackhole.py:346-392 | between two reads, even one that found nothing, a select has returned |
| PtyBlackhole.ShutdownCompletes | benchmarks/pty_blackhole.py:133-392 | from every reachable state both sides can come to their end: one of them has closed the slave and, unless a system call had failed before, every byte accepted at publication has been read |
| PtyBlackhole.RunKeeps | benchmarks/pty_blackhole.py:133-392 | the byte counts, the drainer's knowledge and the clean-up rules hold in every reachable state |
| PtyBlackhole.CountingPtyWriter.Write | benchmarks/_pty_writer.py:46-61 | exactly the bytes the kernel takes before it first raises, takes nothing or stops answering are written and counted, up to the data's length; it succeeds exactly when that is all of them |
| PtyBlackhole.CountingPtyWriter.RecordExpectedBytes | benchmarks/pty_blackhole.py:245-254 | the count grows by the bytes the terminal will show |
| PtyBlackhole.ShownIs | benchmarks/pty_blackhole.py:245-254 | what the terminal shows is a byte for each byte and one more for each newline it translates |
| NativePumpPool.IdleWorkersHoldNothing | cuprum/_pipeline_native_pump_runtime.py:120-126 | idle workers are distinct, hold and await nothing, and stay within the limit |
| NativePumpPool.WorkersHoldOneJob | cuprum/_pipeline_native_pump_runtime.py:113-158 | a worker holds at most one job, and a finished, retired or dead one none |
| NativePumpPool.HandOffNeverQueues | cuprum/_pipeline_native_pump_runtime.py:78-88 | a hand-off lands in the empty inbox of a waiting worker, which runs it next |
| NativePumpPool.NoJobWaitsForAnother | cuprum/_pipeline_native_pump_runtime.py:78-88 | every unfinished job has a step of its own to take |
| NativePumpPool.JobsEndAtMostOnce | cuprum/_pipeline_native_pump_runtime.py:29-39 | a job ends at most once, and settled futures are those of ended jobs |
| NativePumpPool.EveryJobEndsByItself | cuprum/_pipeline_native_pump_runtime.py:78-88 | from every reachable state every submitted job can be brought to its end by at most four steps of its own, whatever the other jobs are doing |
| NativePumpPool.NoWorkerIsForgotten | cuprum/_pipeline_native_pump_runtime.py:113-126 | in every interleaving a thread waits with an empty inbox exactly while it is on the idle list or a submission has taken it |
| NativePumpPool.FinishedWorkerServesNext | cuprum/_pipeline_native_pump_runtime.py:78-126 | below the limit a finished worker waits and is the one the next submission takes; at the limit it exits; only a submission that finds nobody idle starts a thread |
| NativePumpPool.DiedIffEndedCancelled | cuprum/_pipeline_native_pump_runtime.py:29-39 | in every run a worker has died exactly when a job ended whose future was already cancelled |
| NativePumpPool.ShieldedWorkersLive | cuprum/_pipeline_stream_native_cleanup.py:374-377 | while no caller cancels the pool's own future, no worker dies |
| NativePumpPool.DeathWitness | cuprum/_pipeline_native_pump_runtime.py:35-39 | a run in which a worker dies |
| NativePumpPool.RunKeeps | cuprum/_pipeline_native_pump_runtime.py:101-158 | every submitted job is in exactly one place in every reachable state |
| NativePumpPool.PooledExecutor.TakeWorker | cuprum/_pipeline_native_pump_runtime.py:113-118 | the most recently idle worker, or none exactly when none is idle |
| NativePumpPool.PooledExecutor.RetireOrReuseWorker | cuprum/_pipeline_native_pump_runtime.py:120-126 | a worker joins the idle list exactly when the list is below its limit, and exits otherwise |
| LineEventClassifier.CallerDepth | benchmarks/_line_event_profile_classifier.py:80-101 | the nearest matching caller, or none at all |
| LineEventClassifier.NearestCallerSuffices | benchmarks/_line_event_profile_classifier.py:104-130 | a boundary that separates the nearest caller separates every farther one |
| LineEventClassifier.MatchingRule | benchmarks/_line_event_profile_classifier.py:133-178 | the loop that keeps a best rule and depth resolves to the rule `WinnerIsDeepestFirst` describes, in one pass and testing only nearest callers |
| LineEventClassifier.WinnerIsDeepestFirst | benchmarks/_line_event_profile_classifier.py:133-178 | the winner is the first rule with the deepest unseparated caller over all callers, both ways |
| LineEventClassifier.ClaimsIff | benchmarks/_line_event_profile_classifier.py:80-130 | what such a caller is, field by field: the rule admits the frame, one of its callers admits a frame farther out, and neither hook-dispatch function stands between |
| LineEventClassifier.Accumulator.RecordCallerWeight | benchmarks/_line_event_profile_classifier.py:206-223 | each called rule name gains the stack's weight exactly once |
| LineEventClassifier.Accumulator.RecordMatches | benchmarks/_line_event_profile_classifier.py:226-253 | each resolving frame credits its winner, and whether any did |
| LineEventClassifier.MatchedWeight | benchmarks/_line_event_profile_classifier.py:226-253 | a name's gain is the stack's weight for each frame it wins |
| LineEventClassifier.WinnersWereCalled | benchmarks/_line_event_profile_classifier.py:206-253 | a name that wins a frame has a caller in the same stack |
| LineEventClassifier.ClassifyCapture | benchmarks/_line_event_profile_classifier.py:256-281 | all four counts are the sums over consume stacks |
| LineEventClassifier.OneStackCounts | benchmarks/_line_event_profile_classifier.py:191-281 | what one stack adds to each of the four counts, in terms of its frames and the rules |
| LineEventClassifier.CountsAdd | benchmarks/_line_event_profile_classifier.py:256-281 | the counts of two captures taken together are the sums of their counts |
| LineEventClassifier.CountsNest | benchmarks/_line_event_profile_classifier.py:256-281 | construction <= consume <= parent samples |
| LineEventClassifier.MatchedNamesWereCalled | benchmarks/_line_event_profile_classifier.py:284-316 | every matched name is also in the caller counts |
| LineEventClassifier.NumeratorIffMatched | benchmarks/_line_event_profile_classifier.py:256-281 | the numerator is empty exactly when nothing matched |
| LineEventClassifier.Summarize | benchmarks/_line_event_profile_classifier.py:284-383 | when each of the five statuses is reported, for every capture; the limit is met up to 30.00005 percent, as rounding the share to four decimals has it |
| LineEventClassifier.PassedRulesWereCalled | benchmarks/_line_event_profile_classifier.py:284-316 | without drift, the rules called are exactly the rules matched |
| RatchetHistory.SortedKeeps | benchmarks/ratchet_history.py:174-179 | sorting orders the samples and moves none across any bound |
| RatchetHistory.MedianSplits | benchmarks/ratchet_history.py:174-179 | at least half the samples lie on either side of the median |
| RatchetHistory.OddMedianIsUnique | benchmarks/ratchet_history.py:174-179 | for an odd window only the median does that, and an empty window has none |
| RatchetHistory.SortedIsByRank | benchmarks/ratchet_history.py:174-179 | each place of the sorted window holds the one number with enough samples on either side of it |
| RatchetHistory.MedianIff | benchmarks/ratchet_history.py:174-179 | for every window, odd, even or empty, the median is the one number halfway between its middle places |
| RatchetHistory.MedianResistsReplacement | benchmarks/ratchet_history.py:1-7 | replacing fewer than half the samples leaves the median between two untouched ones |
| RatchetHistory.NoiseIsBounded | benchmarks/ratchet_history.py:182-207 | the noise band lies between 0 and 1 |
| RatchetHistory.NoiseIsScaledDeviation | benchmarks/ratchet_history.py:195-207 | the size of the band: sigmas times 1.4826 times the median distance from the median, over the median, and at most 1 |
| RatchetHistory.NoBandIff | benchmarks/ratchet_history.py:182-207 | there is no band exactly for fewer than two samples, a median that is not positive, or a majority that is the median itself; the documentation names only a window without spread |
| RatchetHistory.OutliersAddNoNoise | benchmarks/ratchet_history.py:182-207 | outliers that a positive agreeing majority outvotes leave no band |
| RatchetHistory.MedianScales | benchmarks/ratchet_history.py:174-179 | the median scales with its samples |
| RatchetHistory.NoiseIgnoresScale | benchmarks/ratchet_history.py:182-207 | positive scaling does not change the band |
| RatchetHistory.HistoryIsLastRuns | benchmarks/ratchet_history.py:161-171 | a history is the last window of all runs ever appended |
| RatchetHistory.CompatibleWith | benchmarks/ratchet_history.py:140-159 | exactly the samples of the candidate's protocol are kept; `CompatibleKeepsCopies` and `CompatibleConcat` say how often and in which order |
| RatchetHistory.CompatibleKeepsCopies | benchmarks/ratchet_history.py:140-159 | every copy of a comparable sample is kept and no copy of another |
| RatchetHistory.CompatibleConcat | benchmarks/ratchet_history.py:140-159 | selection keeps the order of runs |
| LineSplitting.SplitCompleteLines | cuprum/_line_splitting.py:16-48 | the loop over one index, which looks one character ahead for CRLF, computes the split that `UnsplitIsText`, `CompletedLinesArePlain` and `ChunkingIsInvisible` describe |
| LineSplitting.SplitResumes | cuprum/_line_splitting.py:16-30 | splitting may stop anywhere and go on from its remainder |
| LineSplitting.ChunkingIsInvisible | cuprum/_line_splitting.py:16-30 | no chunking changes the lines or the remainder |
| LineSplitting.RestIsPending | cuprum/_line_splitting.py:24-30 | a remainder holds no terminator but possibly a final CR, and splits to itself |
| LineSplitting.UnsplitIsText | cuprum/_line_splitting.py:16-48 | putting the terminators back gives the normalized text |
| LineSplitting.CompletedLinesArePlain | cuprum/_line_splitting.py:24-30 | no completed line holds a terminator |
| IdleHeartbeat.IdleMonitor.TakeDue | cuprum/_idle_heartbeat.py:80-96 | a notice exactly when one is due, with both ages, and the next deadline measured from it |
| IdleHeartbeat.IdleMonitor.Poll | cuprum/_idle_heartbeat.py:190-200 | one notice when due; a notifier that is done stops the run |
| IdleHeartbeat.IdleMonitor.NoteActivity | cuprum/_idle_heartbeat.py:69-74 | activity pushes the deadline out unless stopped |
| IdleHeartbeat.NoticesAreSpaced | cuprum/_idle_heartbeat.py:49-100 | every notice reports a whole interval of silence, and notices are an interval apart |
| IdleHeartbeat.StoppedIsSilent | cuprum/_idle_heartbeat.py:98-100 | nothing follows a stop |
| IdleHeartbeat.ActivityKeepsSilent | cuprum/_idle_heartbeat.py:1-8 | output within every interval keeps a run silent |
| IdleHeartbeat.SilentIffNeverQuiet | cuprum/_idle_heartbeat.py:1-8 | a run stays silent exactly while no poll before its stop finds a whole interval without output |
| IdleHeartbeat.PollEmitsIffQuiet | cuprum/_idle_heartbeat.py:80-96 | after every run so far, a poll emits exactly when the run is not stopped and a whole interval has passed since its last output, notice or start |
| IdleHeartbeat.PollReports | cuprum/_idle_heartbeat.py:80-96 | after every run so far, all that a poll emits: nothing once a stop or a finished notifier has ended the run or within an interval of its last sign, and otherwise its time, the age of the run and the exact time since its last output |

## Left out

- The codec registry and error policies other than strict decoding: only UTF-8, UTF-16 and UTF-32 and their families are modelled; on valid streams the other policies agree with strict.
- Capture, spill and delivery events other than the truncation event: their emission is effect ordering over an observer channel.
- asyncio itself: a cancellation is something the schedule or an event delivers at an await; cancelling a worker's own task, which only a closing loop does, and the re-creation of the seam's lock on a new loop are not modelled.
- Capture calls after a cancellation has escaped: the drain then only cleans up, so absorbing and finalizing require that none has.
- Two `close` calls of the delivery worker at once, and the operation lock it shares with the presentation session, which is not part of this model.
- PtyBlackhole.AcknowledgedIsAccepted: covers one `with` body and its exit; entering the same sink again, and closing one that was never entered, are not modelled, because both are settled by one branch.
- The two threads of the PTY sink and the pump pool's workers are values of a transition system rather than objects: update in place of their other shared fields is not captured.
- Base64Fixture.WriteFixture: the seed is the bytes of its decimal spelling rather than the integer; the output is a byte sequence rather than a file on disk, and the manifest keeps the digest as bytes rather than hexadecimal JSON.
- WindowsQuoting.ParseRendered: covers every argument after the program name; the runtime reads the program name by other rules, and cmd.exe's own metacharacters and the environment prefixes are not modelled.
- LineEventClassifier.Summarize: rounds the exact share, a half to even, where the source rounds a float quotient; the float's own error is not modelled.
- RatchetHistory.NoiseIsBounded: over exact reals, as are all statements about ratios and clocks; floating-point rounding is not modelled.
- The carriage return the echo path carries between chunks, and the writes it makes of finished lines, which belong to a module that is not part of this model.
- The idle monitor's sleeping driver, its option validation and the rendering of its diagnostics.
- The capture sink registry, parsing and rendering of captures, rules, histories and reports, configuration validators: each is settled by reading one branch.
