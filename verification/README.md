# A verified model of the OpenTelemetry SDK

This project models the parts of the SDK whose correctness is hardest to see from the code and proves
what they promise. `dafny verify dfyconfig.toml` checks all of it.

## Log delivery

`LoggerProvider.dfy` is the gate in front of the log processor, `LogQueue.dfy` and `Ring.dfy` are the
drop-oldest queue on its circular list of heap nodes, and `BatchProcessor.dfy` is the processor as a
state machine: callers of OnEmit, ForceFlush and Shutdown, the one worker, its three selects, and the
exporter. Each lock section, channel operation and atomic access is one step; a step that is not
possible changes nothing, so every list of labels is a run. The exporter's answers, timers and
cancellations are labels, that is, arbitrary. The queue inside the machine is the specification `Fifo`
that the methods of `LogQueue.Queue` are proved against.

The files `BatchFlow`, `BatchLifecycle`, `BatchAnswers`, `BatchLosses`, `BatchBlame`, `BatchWakeup` and
`BatchEmits` each hold one invariant of that machine and its preservation, one lemma for each kind of step;
`BatchTheorems` and `BatchFlush` put them together. `BatchReplies` has the exact law of the answers,
`BatchSchedule` what one emit and one scheduled export do, `BatchProgress` and `BatchCalls` that every call can
come back. `ProviderRuns` wraps the machine in the provider's gate, `ProviderProgress` shows that its Shutdown
can come to its end, and `Delivery` states what follows for a record on its way from `Logger.Emit` to the
exporter, and for ForceFlush. `DeliveryRun` gives one run in which all conditions of the first statement hold.

## Span delivery

`SpanProcessor.dfy` is the span processor in the same style: the bounded channel with flush markers among
the spans, the worker with a span in its hand between receive and append, the batch shared with the
goroutines of ForceFlush under a mutex that is held over an export, and Shutdown. `SpanFlow`,
`SpanFlush`, `SpanMiss`, `SpanShutdown` and `SpanDelivery` prove its invariants, what a ForceFlush
achieves and exactly when it misses a span, and exactly when Shutdown leaves a span behind; `SpanSends` what
OnEnd and one export do, `SpanAnswers` the exact law of the answers, and `SpanCalls` which calls can come back.

## Attributes

`AttrValue.dfy` has attributes, values and the last-wins reading of a list; `KeyedList.dfy` is the ordered
map that the containers refine. `SpanAttributes`, `LogRecord` and `Logger` are the containers of
spans and log records, `AttrSet` and `Resource` the sorted sets and their merge, `SetIdentity` their
equality and what is hashed of them, `AttrNorm` and `Truncate` the normalisation of nested values, on byte
strings with the decoder of `Utf8.dfy` (RFC 3629).
`SpanStatus` and `EvictedQueue` are two smaller parts of a span.

## Parsers and printers

`TraceState` and `TraceContext` cover sections 3.2 and 3.3 of W3C Trace Context, `Hex` the identifiers
with the bit-level table of `trace/hex.go`, `Base64`, `JsonString` and `Encoder` the printers, and
`Grouping` the grouping of export batches by resource and scope.

## Where code and documentation differ

The model follows the code.

- The documentation of `truncate` promises the first `limit` valid runes. A correctly encoded U+FFFD is
  not counted before the first invalid byte, and with limit 0 a string of one invalid byte comes
  back unchanged (`internal/attrnorm/truncate.go:181-203`). `Truncate.FirstLimitIff` says when the
  promise is met, `Truncate.ReplacementGoesUncounted` and `Truncate.LoneByteComesBack` where it is not.
- `needsTruncation` is documented to report whether truncation would change a value. It also reports some that
  truncation leaves alone: `Truncate.ReportIsRightIff` says exactly which, `Truncate.ReportedNeedlessly` shows two.
- `Equals` is documented to report whether two sets are equivalent, and sets are made unique by the last value
  of each key. A set with a NaN in a float slice is not equal to itself (`SetIdentity.EqualsIff`,
  `SetIdentity.NaNIsNotItself`).
- Export batches are grouped by the hash of a byte stream without lengths, so two resources may leave under the
  attributes of one (`Grouping.OwnAttrsIff`, `Grouping.LeavesUnderOther`).
- The type identifiers that are hashed for slices and for empty values are not the strings they are documented
  to be (`SetIdentity.OtherIdentifiers`).
- A snapshot has the number of dropped events or links only when it has some: with a limit of 0 it shows none
  dropped (`EvictedQueue.ReportedIff`).
- Exporters are promised attributes without repeated keys at any depth and with values cut to the limit
  (`sdk/log/DESIGN.md:131-136`), but `AddAttributes` stores a value for a key that is held already as it was
  passed (`sdk/log/logdata/record.go:230-290`). `LogRecord.AddedNormalIff` and `Logger.RecordNormalIff` say
  exactly when the promise is met, `LogRecord.OverwriteIsNotCut` and `Logger.RepeatedIsNotCut` where it is not.
- The comment on the record's slice has its condition the wrong way round: the slice is non-empty only
  when the inline array is full (`sdk/log/logdata/record.go:98-101`). `LogRecord.SliceCommentIff` says when the
  comment holds, `LogRecord.FiveAttributes` shows a record for which it does not.
- `SetStatus` is documented to override previous values; a lower code does not. `SpanStatus.LastCallIff` says
  exactly when the last call does, `SpanStatus.ErrorAfterOk` shows one that does not.
- `extract` accepts a version 00 traceparent with one more dash at its end (`TraceContext.TrailingDashAccepted`).
- Inject with an empty tracestate leaves an old tracestate header in the carrier, and extract then reads
  that one. `TraceContext.StateComesBackIff` says exactly when the state comes back,
  `TraceContext.StaleStateShows` shows when it does not.
- The grammar of a tracestate list allows a list-member of white space only (section 3.3.1.1 of W3C Trace
  Context); the parser refuses a header with one, unless it is empty. `TraceState.ListReadIff` says exactly
  which lists are refused, `TraceState.BlankMemberRefused` shows one.
- The encoding of attribute sets is documented to be unique (`attribute/encoder.go:35-40`). Values that are not
  strings are written unescaped and without their type: `Encoder.EncodingUniqueTame` says when two sets share
  an encoding, `Encoder.TypeIsNotSeen` and `Encoder.ListIsNotEscaped` show different ones that do.
- ForceFlush of the log processor is documented to flush the queued records. Called on the processor itself it
  returns nil at once when Shutdown has begun, with records still queued or in the worker's hands
  (`BatchFlush.MissesIff`); through the provider that cannot happen (`Delivery.EveryFlushCovers`).
- ForceFlush of the span processor is documented to export all ended spans. It may return nil without doing
  so in two ways: its context is cancelled while it offers its marker, whether or not the channel has room;
  or Shutdown begins, and the call sees the stop flag, or `stopCh` while it waits for its marker.
  `SpanMiss.MissesRunningIff` and `SpanMiss.MissesIff` say exactly when that can happen. A ForceFlush may also
  wait until its context is cancelled, when Shutdown has drained the channel before it found a place
  (`SpanCalls.OfferReturnsIff`, `SpanCalls.StuckCanBe`).
- Shutdown of the span processor is documented to wait until all spans are processed. An OnEnd that has
  looked at the stop flag before can still put its span into the channel after the worker has left
  (`SpanDelivery.StrandsIff`).

## Model

| member | source | states |
|---|---|---|
| LogQueue.RunsConserve | sdk/log/batch.go:346-421 | for every capacity of at least 1 and every sequence of Enqueue, Dequeue, Flush, Close and Dropped: accepted records = records that left (removed or evicted), in order, followed by those held; the counts reported plus the 64-bit counter equal the evictions modulo 2^64 |
| LogQueue.NewestKept | sdk/log/batch.go:352-376 | enqueueing n records alone keeps exactly the newest min(n, capacity) of them, in order |
| LogQueue.Queue.constructor | sdk/log/batch.go:330-337 | the new queue is an empty FIFO over a ring of `size` fresh nodes |
| LogQueue.Queue.Enqueue | sdk/log/batch.go:357-376 | on the ring of heap nodes, the abstract FIFO gains r at its end, or loses its oldest and counts it when full, or stays when closed; returns the new length and whether r was accepted; write stays read advanced by the length |
| LogQueue.Queue.Dequeue | sdk/log/batch.go:380-392 | the oldest min(len(buf), length) records are copied to the front of buf in order, the rest of buf is unchanged, and exactly those leave the FIFO; their nodes are zeroed |
| LogQueue.Queue.Flush | sdk/log/batch.go:396-421 | returns all records in order and leaves the FIFO empty |
| LogQueue.Queue.Close | sdk/log/batch.go:404-409 | the FIFO is closed and otherwise unchanged |
| LogQueue.Queue.Dropped | sdk/log/batch.go:348-350 | returns the drop counter and sets it to 0 |
| LogQueue.Queue.Len | sdk/log/batch.go:339-344 | returns the number of records held and changes nothing |
| LogQueue.Queue.Pop | sdk/log/batch.go:414-416 | hands out the oldest record, zeroes its node, moves read to the next node |
| LogQueue.HoldsNewest | sdk/log/batch.go:365-374 | overwriting the slot at write when the ring is full makes the second oldest the oldest and the new one the newest |
| Ring.NewRing | sdk/log/ring.go:47-60 | n <= 0 gives nil; otherwise n distinct fresh zero nodes, linked into one cycle with next and prev inverse |
| Ring.Ring.Next | sdk/log/ring.go:31-36 | the successor; a zero ring first becomes a cycle of one |
| Ring.Ring.Prev | sdk/log/ring.go:39-44 | the predecessor; a zero ring first becomes a cycle of one |
| Ring.Len | sdk/log/ring.go:64-73 | the number of nodes of the cycle, 0 for nil |
| Ring.Do | sdk/log/ring.go:77-84 | f is called once with every value, once round in forward order from r |
| BatchTheorems.Accounting | sdk/log/batch.go:93-236 | in every interleaving of callers, worker, timer and cancellations: accepted = left + queued; removed = settled + in the worker's hands; the records given to Export, call after call, are the settled ones not discarded, in order, between 1 and batchSize at a time; evictions are counted |
| BatchFlow.NextFlow | sdk/log/batch.go:172-236 | every step of the log processor keeps that accounting |
| BatchTheorems.EmptyForGood | sdk/log/batch.go:224-236 | once Close and the final Flush have run, the queue stays empty and nothing is accepted or removed in any continuation |
| BatchTheorems.ShutdownDelivers | sdk/log/batch.go:224-288 | if the Shutdown call that stopped the processor returned nil: the worker is gone, the queue closed and empty, and each removed record was exported or belonged to a ForceFlush whose context is cancelled and which has returned an error or is still to pick one up |
| BatchTheorems.ShutdownExportsAll | sdk/log/batch.go:224-288 | if moreover no ForceFlush with a cancelled context has returned an error or is still waiting, Export got exactly the accepted records not evicted, once each and in order |
| BatchFlush.FlushDelivers | sdk/log/batch.go:290-315 | a ForceFlush that returned nil, Shutdown not having begun, covers every record accepted before the call: each has left the queue, and the ones not evicted are settled, that is, exported or given up by a call whose context was cancelled |
| BatchFlush.DoneFlushCovers | sdk/log/batch.go:303-308 | a ForceFlush that returns nil through `done` covers every record that is ever accepted |
| BatchFlush.MissesIff | sdk/log/batch.go:290-295 | from every reachable state: a new ForceFlush can return nil with an earlier record not covered, Shutdown being called meanwhile, exactly when a record is queued or in the worker's hands |
| BatchFlush.StoppedFlush | sdk/log/batch.go:290-295 | the run that does it, from any state: Shutdown sets the stop flag, the call returns nil, and queue, worker and settled records are as they were |
| BatchLifecycle.RunLife | sdk/log/batch.go:224-288 | only one Shutdown call gets past the swap, its request never meets a full channel, the queue is closed before it is sent, done is closed exactly after the final flush, and after it the queue is empty |
| BatchAnswers.RunOpen | sdk/log/batch.go:210-315 | a queued or served request belongs to a call that waits or has given up and has not been answered; each call is answered at most once |
| BatchLosses.RunCover | sdk/log/batch.go:210-222 | when a flush is answered with nil, the records it had to cover have left the queue and are settled |
| BatchLosses.RunLosses | sdk/log/batch.go:172-191 | a record taken is discarded only for a flush or shutdown whose context is cancelled, and a shutdown that discards answers with an error |
| BatchBlame.RunBlame | sdk/log/batch.go:210-222 | whatever is given up for a ForceFlush belongs to a call that waits for its answer or has come back, and that answer is an error |
| BatchBlame.LostIsReported | sdk/log/batch.go:210-222 | once the worker is gone, the ForceFlush behind a record given up has returned an error or is still to pick it up, and its context is cancelled |
| BatchBlame.NoneCancelledIsKept | sdk/log/batch.go:290-315 | when no context given to ForceFlush has been cancelled, no ForceFlush has failed for that reason |
| BatchReplies.AnsweredIff | sdk/log/batch.go:172-236 | a request that the worker has answered got nil exactly when no look found its context cancelled and every call of the exporter made for it returned nil; these calls are the exports, then ForceFlush unless a look was a hit, then for Shutdown, in any case, Shutdown |
| BatchReplies.FlushReturnsIff | sdk/log/batch.go:209-222 | a ForceFlush answered by the worker returns nil by that law |
| BatchReplies.FlushErrorIsReal | sdk/log/batch.go:290-315 | an error from ForceFlush means that its context is cancelled or that a call of the exporter made for it failed |
| BatchReplies.ShutdownReturnsIff | sdk/log/batch.go:224-288 | the Shutdown call that stopped the processor returns nil by that law, unless it gave up with its context cancelled; every other Shutdown call returns nil |
| BatchSchedule.EmitLooks | sdk/log/batch.go:257-260 | OnEmit does nothing once the processor is stopped |
| BatchSchedule.EmitStores | sdk/log/batch.go:257-266 | past that look a closed queue refuses the record; otherwise it is queued, the oldest going if there is no place, and the emit goes on to signal exactly when batchSize records are queued then |
| BatchSchedule.EmitSignals | sdk/log/batch.go:244-249 | a signal leaves the token in the trigger |
| BatchSchedule.ScheduledExport | sdk/log/batch.go:133-208 | a worker in its select, woken by timer or trigger, hands the oldest min(batchSize, length) records to Export with one call, whatever that returns, and puts the token back exactly when batchSize or more remain |
| BatchSchedule.NothingToExport | sdk/log/batch.go:193-198 | with an empty queue it makes no call |
| BatchCalls.FlushCanReturn | sdk/log/batch.go:290-315 | from every reachable state with the processor running: a ForceFlush not yet handed over, its context not cancelled, can return nil with an answer of the worker |
| BatchCalls.EveryCallCanReturn | sdk/log/batch.go:93-315 | from every reachable state every call of OnEmit, ForceFlush or Shutdown can come back |
| BatchCalls.CancelledFlushIsRefused | sdk/log/batch.go:290-300 | a ForceFlush that begins with its context cancelled is never served: it returns an error, or nil once the processor is stopped |
| BatchCalls.CancelledStopIsRefused | sdk/log/batch.go:271-288 | a Shutdown that stopped the processor with its context cancelled before it put its request never returns nil, even if the request is served |
| BatchCalls.WaitsCanGiveUp | sdk/log/batch.go:280-315 | a flush that offers or waits and a Shutdown that waits return their error at once when their context is cancelled |
| BatchWakeup.RunAwake | sdk/log/batch.go:141-208 | whenever batchSize records are queued, the trigger holds its token, or an emit has filled the batch and is about to signal, or the worker is about to take records or will put the token back when its export ends |
| BatchWakeup.BlockedWorkerIsWoken | sdk/log/batch.go:133-147 | a worker blocked in its select with a full batch queued and no emit about to signal finds the token and starts an export |
| BatchProgress.WorkerFinishes | sdk/log/batch.go:121-168 | from every reachable state in which Shutdown's request is queued or taken, some schedule brings the worker to its end with the queue empty, its present job first |
| BatchProgress.ShutdownCanReturn | sdk/log/batch.go:270-288 | from every reachable state in which the winning Shutdown has not come back, its context is not cancelled and the worker has not taken its request, that call can return nil |
| BatchWakeup.RunLast | sdk/log/batch.go:224-236 | the exporter's Shutdown is called at most once and no call of the exporter follows it |
| BatchEmits.RunEmits | sdk/log/batch.go:257-267 | emits that stored their record and accepted records correspond one to one; an emit is refused only after the processor was stopped |
| ChunkExport.ChunkExport | sdk/log/batch.go:172-191 | the calls of Export are the first pieces of the records cut from the left into batchSize pieces, all of them unless a look found the context cancelled; the result joins the errors answered, in order, and the context's error exactly when a look found it cancelled; one call with everything when batchSize <= 0 |
| ChunkExport.NoFailuresIff | sdk/log/batch.go:176-191 | no error is joined exactly when every answer was nil |
| ChunkExport.ChunksJoin | sdk/log/batch.go:176-189 | the pieces put together are the records |
| ChunkExport.ChunkSizes | sdk/log/batch.go:176-189 | every piece has between 1 and batchSize records and only the last may be short |
| ChunkExport.WorkerSendsChunks | sdk/log/batch.go:172-191 | while the context is good the worker of the state machine makes exactly those calls, whatever the exporter answers, and remembers whether all answers were nil |
| ChunkExport.WorkerEnds | sdk/log/batch.go:178-190 | after the last piece the worker's result is nil exactly when all answers were; a cancellation after any number of pieces ends the loop with an error and no further call |
| LoggerProvider.Provider.BeginProcessorOperation | sdk/log/provider.go:165-173 | admits and counts the operation, or refuses it and changes nothing once stopped |
| LoggerProvider.Provider.EndProcessorOperation | sdk/log/provider.go:175-182 | uncounts the operation; the last one after a stop closes the channel |
| LoggerProvider.Provider.Stop | sdk/log/provider.go:121-131 | the first call makes the channel, sets stopped, and closes the channel if nothing is active; later calls change nothing |
| ProviderRuns.RunGate | sdk/log/provider.go:120-204 | for any number of concurrent begin, end and Shutdown calls: the counter is the number of admitted operations not ended; the channel is missing before the stop, open while operations are active, closed when none is; no channel is closed while nil or twice; the processor's Shutdown is entered only by the first call and only when no admitted operation is active |
| ProviderRuns.RunCalls | sdk/log/provider.go:120-182 | no record of an admitted emit is refused by the processor, an admitted flush gets a nil only from the worker, and the provider's Shutdown is the processor's first |
| ProviderProgress.BeginsIff | sdk/log/provider.go:165-173 | a call enters the processor exactly while the gate is open, and is counted; otherwise nothing happens |
| ProviderProgress.EndsIff | sdk/log/provider.go:175-182 | an operation ends only when the processor is through with its call; the last one after the stop closes the channel |
| ProviderProgress.StopsIff | sdk/log/provider.go:120-131 | the first Shutdown closes the gate and begins to wait; a later one returns nil at once |
| ProviderProgress.DrainsIff | sdk/log/provider.go:184-205 | the wait of Shutdown: an error if the first look finds the context cancelled; then the processor's Shutdown once the operations have drained, also when the context is cancelled by now; an error if it is cancelled before |
| ProviderProgress.LaterStopsReturnNil | sdk/log/provider.go:114-125 | every Shutdown call but the first returns nil |
| ProviderProgress.OperationCanEnd | sdk/log/provider.go:152-182 | from every reachable state every admitted operation can be ended |
| ProviderProgress.ShutdownCanReturn | sdk/log/provider.go:120-145 | from every reachable state the first Shutdown, waiting for the operations admitted before it, can return nil if its context is not cancelled |
| ProviderProgress.NewShutdownCanReturn | sdk/log/provider.go:120-145 | and so can a new one on a provider not shut down |
| Delivery.AllSettled | sdk/log/provider.go:120-145 | if the first LoggerProvider.Shutdown returned nil: no operation is active, every accepted record was evicted or settled, in order, and a record that Export did not get was lost for a ForceFlush that returned an error, its context being cancelled |
| Delivery.AllDelivered | sdk/log/provider.go:120-145 | if moreover no ForceFlush returned an error with its context cancelled, whatever was cancelled after a nil: Export got exactly the accepted records not evicted, in order; evictions are counted |
| Delivery.NoneCancelledDelivers | sdk/log/provider.go:120-145 | the condition is met, for one, when no context given to ForceFlush has been cancelled |
| Delivery.EveryRecordSettled | sdk/log/logger.go:61-69 | after the first Shutdown returned nil, every record whose emit passed beginProcessorOperation was evicted, or given to Export in its place among the records exported, or lost for a ForceFlush that returned an error |
| Delivery.EveryRecordDelivered | sdk/log/logger.go:61-69 | if no ForceFlush returned an error with its context cancelled, every such record was evicted, or was given to Export, exactly in its place among the records not evicted |
| Delivery.EmitsStored | sdk/log/logger.go:61-69 | after the first Shutdown returned nil, every emit that passed the gate has its own place among the accepted records |
| Delivery.EveryFlushCovers | sdk/log/provider.go:152-163 | a LoggerProvider.ForceFlush that passed the gate and returned nil covers every record accepted before it, whether or not Shutdown has been called meanwhile |
| DeliveryRun.RecordArrives | sdk/log/provider.go:120-145 | a concrete run meets those conditions: one record is emitted, Shutdown returns nil, the exporter has the record |
| SpanFlow.RunFlow | sdk/trace/batch_span_processor.go:194-327 | in every interleaving of OnEnd, the worker, ForceFlush goroutines and Shutdown: exported ++ batch ++ worker's hand ++ spans in the channel = accepted; accepted + dropped = sampled spans offered; every ExportSpans call gets 1 to MaxExportBatchSize spans; the mutex has one holder |
| SpanFlow.AppendFlow | sdk/trace/batch_span_processor.go:245-248 | appending under the mutex keeps exported ++ batch ++ worker's hand ++ channel equal to what was accepted |
| SpanFlow.ReceiveFlow | sdk/trace/batch_span_processor.go:240-244 | receiving keeps the order of spans, whatever markers stand between them |
| SpanSends.EndLooks | sdk/trace/batch_span_processor.go:109-120 | OnEnd does nothing once the processor is stopped, nor with a span that is not sampled |
| SpanSends.AcceptedIff | sdk/trace/batch_span_processor.go:315-327 | in every reachable state: a sampled span that ends, past the look at the stop flag, is accepted exactly when the channel holds fewer than MaxQueueSize items, or has no buffer and the send meets the waiting worker; otherwise it is dropped and counted |
| SpanSends.FirstKept | sdk/trace/batch_span_processor.go:315-327 | on a new processor whose worker does not move, of n spans that end the first min(n, MaxQueueSize) are accepted, in order, and the rest are dropped and counted |
| SpanSends.ReceivesFirst | sdk/trace/batch_span_processor.go:240-240 | the worker takes what has waited longest |
| SpanSends.AppendsExactly | sdk/trace/batch_span_processor.go:245-262 | the span in the worker's hand goes to the end of the batch, and the worker exports exactly when that makes MaxExportBatchSize spans |
| SpanSends.MarkerCloses | sdk/trace/batch_span_processor.go:241-244 | a marker closes its channel, unless the worker drains |
| SpanSends.TimerWakes | sdk/trace/batch_span_processor.go:236-239 | the timer makes a waiting worker export |
| SpanSends.WorkerExports | sdk/trace/batch_span_processor.go:194-222 | one export hands the whole batch to ExportSpans with one call, or makes none if it is empty, and leaves the batch empty and the mutex free |
| SpanSends.GoroutineExports | sdk/trace/batch_span_processor.go:180-190 | the goroutine of a ForceFlush does the same, and keeps what ExportSpans returned |
| SpanFlush.FlushDelivers | sdk/trace/batch_span_processor.go:151-191 | a ForceFlush that returned nil, with its context not cancelled and the processor not stopped, has given every span accepted before the call to ExportSpans |
| SpanFlush.RunMarks | sdk/trace/batch_span_processor.go:240-244 | a marker in the channel stands behind exactly as many spans as had been accepted when it was sent; when its channel is closed they are exported or in the batch |
| SpanMiss.MissesRunningIff | sdk/trace/batch_span_processor.go:151-191 | from every reachable state with the processor running: a new ForceFlush can return nil, nobody calling Shutdown, with a span accepted before it not exported, exactly when its context is not cancelled yet and a span stands in the channel or in the worker's hand |
| SpanMiss.MissesIff | sdk/trace/batch_span_processor.go:151-191 | from every reachable state, whatever else is called: it can do so exactly when its context is not cancelled yet and some accepted span has not been exported |
| SpanMiss.CancelledFlushMisses | sdk/trace/batch_span_processor.go:163-190 | the failing run through the cancelled context, from any state: the call returns nil, the processor still runs, and all that stood behind the batch still stands there |
| SpanMiss.StoppedFlushMisses | sdk/trace/batch_span_processor.go:157-161 | the failing run through the stop flag, from any reachable state: the call returns nil and nothing has been exported meanwhile |
| SpanMiss.CancelledFlushReturnsNil | sdk/trace/batch_span_processor.go:163-190 | a run for every size of the channel: one OnEnd, then a ForceFlush that returns nil, and ExportSpans has not been given a span |
| SpanAnswers.FlushReturnsIff | sdk/trace/batch_span_processor.go:180-190 | a ForceFlush whose marker came back returns nil exactly when ExportSpans returned nil to its goroutine, or the batch was empty |
| SpanAnswers.FlushErrorIsReal | sdk/trace/batch_span_processor.go:151-191 | an error from ForceFlush means that its context is cancelled or that ExportSpans failed for it |
| SpanCalls.FlushCanReturn | sdk/trace/batch_span_processor.go:151-191 | from every reachable state with the processor running: a ForceFlush that has not begun its export, its context not cancelled, can return nil with its marker come back |
| SpanCalls.OfferReturnsIff | sdk/trace/batch_span_processor.go:302-313 | a ForceFlush that offers its marker can come back without its context being cancelled exactly when the worker has not found the channel empty for good or the channel has a place |
| SpanCalls.StuckCanBe | sdk/trace/batch_span_processor.go:302-313 | a run, with a channel without buffer, after which it cannot |
| SpanCalls.EveryOtherCallCanReturn | sdk/trace/batch_span_processor.go:109-191 | from every reachable state every other call of OnEnd, ForceFlush or Shutdown can come back |
| SpanShutdown.RunStops | sdk/trace/batch_span_processor.go:124-149 | the worker drains only after stopCh is closed; after its end the batch is empty; without a sampled span in flight at the stop, no span remains in the channel once it has been found empty |
| SpanDelivery.ShutdownAccounts | sdk/trace/batch_span_processor.go:122-149 | after the Shutdown that did the work returned nil, accepted = exported ++ spans left in the channel, and none is left if no OnEnd with a sampled span was past its check or the channel has no buffer |
| SpanDelivery.NoCallAfterDone | sdk/trace/batch_span_processor.go:132-139 | after the worker's end, and so after the exporter's Shutdown, ExportSpans is not called again |
| SpanDelivery.WorkerCanFinish | sdk/trace/batch_span_processor.go:224-296 | from every state with stopCh closed some schedule brings the worker to its end; the channel is empty then, unless a span came in after the worker had found it empty |
| SpanDelivery.StrandsIff | sdk/trace/batch_span_processor.go:109-120 | a Shutdown that begins now can return nil and leave an accepted span behind for ever exactly when the channel has a buffer and some OnEnd with a sampled span has already seen the processor running |
| SpanCalls.ShutdownCanReturn | sdk/trace/batch_span_processor.go:122-149 | from every reachable state a first Shutdown that begins with a good context can return nil |
| SpanAnswers.ClosesWith | sdk/trace/batch_span_processor.go:132-139 | the goroutine of Shutdown waits for the worker and takes over what the exporter's Shutdown returns |
| SpanAnswers.OnceReturns | sdk/trace/batch_span_processor.go:140-148 | the call in the once returns that |
| SpanAnswers.LaterStopsReturnNil | sdk/trace/batch_span_processor.go:122-149 | every other Shutdown call returns nil |
| SpanAttributes.Span.SetAttributes | sdk/trace/span.go:146-194 | the stored list and dropped count become those of the lazy specification, for a negative, zero or positive limit; nothing happens when not recording |
| SpanAttributes.Span.AddOverCapAttrs | sdk/trace/span.go:215-258 | de-duplicates, then adds one by one as the eager map does |
| SpanAttributes.Span.DedupeAttrsFromRecord | sdk/trace/span.go:461-474 | the compaction over the slice being read leaves each key once, in order of first appearance, with its last value, returns the index of every key, and clears the rest |
| SpanAttributes.Span.Snapshot | sdk/trace/span.go:523-553 | the span reads as its de-duplicated list and its dropped count |
| SpanAttributes.LazyRefinesEager | sdk/trace/span.go:146-194 | one call of SetAttributes keeps the stored list a representation of the eager capped map, and within the limit |
| SpanAttributes.LazyRunRefinesEager | sdk/trace/span.go:146-258 | so does every sequence of calls, under every limit |
| SpanAttributes.EagerMeaning | sdk/trace/span.go:146-258 | the eager map is the first `limit` distinct keys of the valid attributes, each with its last value; dropped counts exactly the attributes refused |
| SpanAttributes.SpanReadsAs | sdk/trace/span.go:523-553 | after any calls a snapshot shows those keys, that order, those values and that count |
| SpanStatus.Span.SetStatus | sdk/trace/span.go:114-134 | a lower code changes nothing; otherwise code and, for an error only, description are set |
| SpanStatus.HighestCodeWins | sdk/trace/span.go:110-134 | after any calls the status is that of the last call with the highest code |
| SpanStatus.DeciderUnique | sdk/trace/span.go:110-134 | exactly one call is that |
| SpanStatus.LastCallIff | sdk/trace/span.go:110-134 | the last call overrides all previous ones exactly when none of them had a higher code |
| SpanStatus.ErrorAfterOk | sdk/trace/span.go:122-124 | a witness: an error after an Ok leaves no trace |
| EvictedQueue.Queue.Add | sdk/trace/evictedqueue.go:41-56 | keeps exactly the newest `capacity` values added (all when negative, none when zero), by shifting in place; droppedCount is the number lost; the warning is logged once |
| EvictedQueue.Queue.Report | sdk/trace/span.go:543-550 | a snapshot takes the values held and the dropped count, or neither when no value is held |
| EvictedQueue.ReportedIff | sdk/trace/span.go:543-550 | the count in the snapshot is the number of values lost exactly when the capacity is not 0 or nothing was added |
| LogRecord.Record.AddAttributes | sdk/log/logdata/record.go:212-295 | on the inline array plus slice, adding refines an ordered map with a count limit; the slice is used only when the array is full |
| LogRecord.Record.AddAttrs | sdk/log/logdata/record.go:314-329 | appends the normalised attributes to array and slice |
| LogRecord.Record.SetAttributes | sdk/log/logdata/record.go:332-356 | replaces the attributes by the de-duplicated, cut and normalised ones; dropped becomes the number cut off |
| LogRecord.Record.AttrIndex | sdk/log/logdata/record.go:298-312 | the signed index finds exactly the keys held: -(i+1) for position i of the array, j for position j of the slice |
| LogRecord.Record.Head | sdk/log/logdata/record.go:358-366 | at most `limit` attributes, the rest counted |
| LogRecord.SliceCommentIff | sdk/log/logdata/record.go:98-101 | the invariant documented for the slice holds exactly when the record does not hold five attributes |
| LogRecord.FiveAttributes | sdk/log/logdata/record.go:98-101 | a witness for any five attributes with different keys: the array is full and the slice empty |
| LogRecord.Record.Clone | sdk/log/logdata/record.go:462-466 | same contents, no shared storage |
| LogRecord.Dedup | sdk/log/logdata/record.go:377-404 | the ordered map of the list, `KeyedList.Distinct`, and the number dropped; the argument itself when no key repeats |
| KeyedList.DistinctMeaning | sdk/log/logdata/record.go:377-404 | that list has each key once, with the last value given for it |
| KeyedList.DistinctOrder | sdk/log/logdata/record.go:377-404 | the distinct keys stand in the order of their first appearance |
| LogRecord.AddedShape | sdk/log/logdata/record.go:212-295 | keys stay unique, held keys keep their places, a limit that was respected still is |
| LogRecord.AddedDropped | sdk/log/logdata/record.go:212-295 | dropped grows by exactly the number of distinct new keys refused |
| LogRecord.AddedIsPrefix | sdk/log/logdata/record.go:212-295 | the keys held after an addition are the first of those held and given, in order of first appearance: all, or as many as the limit, but never fewer than were held; the others are counted |
| LogRecord.FirstIsKept | sdk/log/logdata/record.go:212-295 | two attributes under a count limit of 1: the first one given stays, normalised |
| LogRecord.AddedReads | sdk/log/logdata/record.go:230-290 | a new key reads its last value, normalised; a key held before reads its last value as passed, or its old value |
| LogRecord.AddedNormalIff | sdk/log/DESIGN.md:131-136 | adding attributes keeps a record normalised exactly when, for each key held before and given again, the last value given is normal as it was passed |
| LogRecord.OverwriteIsNotCut | sdk/log/logdata/record.go:254-275 | a witness: under value limit 1, "bb" given for a held key is stored whole |
| Logger.NewRecord | sdk/log/logger.go:100-183 | the record holds the caller's attributes under the limit, then the derived exception attributes that fit and were not given |
| Logger.Derive | sdk/log/logger.go:136-183 | message before type, each only if not given, non-empty and within the limit |
| Logger.NewRecordKeys | sdk/log/logger.go:100-183 | keys are unique, the limit holds, and no derived attribute has a key the caller gave |
| Logger.DerivedAre | sdk/log/logger.go:142-183 | behind the caller's attributes stand the normalised message and then the normalised type, each if not given, not empty and if there is room |
| Logger.MessageIff | sdk/log/logger.go:158-165 | a message the caller did not give is in the record exactly when there is an error with a message and room for one attribute, and then the record reads that message |
| Logger.TypeIff | sdk/log/logger.go:166-173 | the same for the type, with room for one more if the message was derived |
| Logger.ExceptionKeys | sdk/log/logger.go:158-173 | the two keys, byte by byte |
| Logger.GivenDropped | sdk/log/logger.go:130-139 | the dropped count is the number of attributes given whose key found no place |
| Logger.GivenReads | sdk/log/logger.go:127-140 | the record holds the first of the caller's distinct keys, as many as the limit allows; a key given once has its value normalised, a key given more than once has its last value as passed |
| Logger.RecordNormalIff | sdk/log/DESIGN.md:131-136 | the record a logger builds, derived attributes included, is normalised exactly when every held key that was given more than once has a last value that is normal as passed |
| Logger.RepeatedIsNotCut | sdk/log/logger.go:127-140 | a witness: under count and value limits of 1, a caller that gives one key twice exports a string of two bytes |
| AttrNorm.NormalizeValue | internal/attrnorm/dedup.go:31-40 | returns the recursive de-duplication, with changed true exactly when it differs from the input |
| AttrNorm.NormalizeKeyValues | internal/attrnorm/dedup.go:55-82 | the same for a list, sharing the input until the first change |
| AttrNorm.NormalizeSet | internal/attrnorm/dedup.go:85-115 | the same for a set, which stays strictly ascending |
| AttrNorm.DeduplicateSliceValue | internal/attrnorm/dedup.go:118-145 | copy on first change gives the element-wise result |
| AttrNorm.DeduplicateMapValue | internal/attrnorm/dedup.go:148-192 | the scan over runs of equal keys gives the last, de-duplicated entry of each run |
| AttrNorm.DedupedKeepsMeaning | internal/attrnorm/dedup.go:31-40 | the last-wins reading of every nested map is unchanged |
| AttrNorm.DedupedIsUnique | internal/attrnorm/dedup.go:148-192 | no key is repeated at any depth |
| AttrNorm.DedupedIdempotent | internal/attrnorm/dedup.go:31-40 | normalising twice is normalising once |
| AttrNorm.DedupedIffSameMeaning | internal/attrnorm/dedup.go:31-40 | two stored values normalise alike exactly when they read alike |
| Truncate.TruncateString | internal/attrnorm/truncate.go:166-229 | the two loops compute: unchanged in the short cases, else the first limit + skipped valid runes, where skipped counts the U+FFFD before the first invalid byte |
| Truncate.TruncateValue | internal/attrnorm/truncate.go:71-117 | equals the eager full recursion, so the needsTruncation shortcut never shows |
| Truncate.UnchangedIff | internal/attrnorm/truncate.go:166-229 | exactly which strings come back unchanged |
| Truncate.FirstLimitIff | internal/attrnorm/truncate.go:166-229 | the documented result, the first `limit` valid runes, comes out exactly when the string is not a single invalid byte and no U+FFFD was skipped (or nothing had to be cut) |
| Truncate.FirstLimitWithoutReplacement | internal/attrnorm/truncate.go:166-229 | for limit >= 1 and strings longer than limit without encoded U+FFFD the documented result is exact |
| Truncate.ReplacementGoesUncounted | internal/attrnorm/truncate.go:181-198 | two encoded U+FFFD under limit 1: both are kept |
| Truncate.LoneByteComesBack | internal/attrnorm/truncate.go:200-203 | a witness: under limit 0 a single invalid byte comes back |
| Truncate.StringNeedsTruncationIff | internal/attrnorm/truncate.go:119-126 | a false answer means no change; exactly which strings are reported needlessly |
| Truncate.NotNeededUnchanged | internal/attrnorm/truncate.go:128-163 | a false answer of needsTruncation implies the value is unchanged, at any depth |
| Truncate.UnchangedValueIff | internal/attrnorm/truncate.go:71-117 | exactly the values truncation leaves alone: every string inside fits, and no byte slice is too long |
| Truncate.ReportIsRightIff | internal/attrnorm/truncate.go:128-163 | needsTruncation reports rightly unless the value fits and holds a string with more than limit runes only by U+FFFD, or a lone invalid byte under limit 0 |
| Truncate.ReportedNeedlessly | internal/attrnorm/truncate.go:119-126 | witnesses: two encoded U+FFFD under limit 1, and any lone invalid byte under limit 0 |
| Truncate.TruncatedValueIdempotent | internal/attrnorm/truncate.go:71-117 | truncating twice is truncating once, for every limit and value |
| Truncate.TruncatedIff | internal/attrnorm/truncate.go:71-117 | what a truncated value is: the shape, keys, lengths and atoms of the value; each byte slice the prefix of length min(limit, length) of the one in its place, each string the first valid runes of the one in its place, or the string itself if it fits |
| Truncate.FirstBytesKept | internal/attrnorm/truncate.go:85-91 | three bytes under limit 2 become the first two |
| Truncate.TruncateCommutesWithDedup | internal/attrnorm/truncate.go:71-117 | truncation and de-duplication commute |
| Truncate.NormalizeAttr | sdk/log/logdata/record.go:468-477 | de-duplicates, then truncates, one attribute |
| Truncate.NormalIs | sdk/log/logdata/record.go:468-477 | the normalised attribute has the key, and the value cut as above after de-duplication |
| Truncate.NormalIdempotent | sdk/log/logdata/record.go:468-477 | normalising an attribute twice changes nothing more |
| AttrValue.MapValueWellFormed | attribute/value.go:554-593 | a MAP value holds the entries given, sorted by key, those of one key in the order given; sorted at every depth |
| AttrSet.NewSet | attribute/set.go:203-234 | the returned suffix is strictly ascending and reads as the input's last-wins map; the argument is left a permutation of itself |
| AttrSet.CollapseInPlace | attribute/set.go:217-234 | the backwards swap loop moves the last of each run to the suffix and loses nothing |
| AttrSet.SameContentsIff | attribute/set.go:203-234 | the contents stored for two inputs are the same exactly when the inputs have the same last-wins map |
| SetIdentity.EqualsIff | attribute/set.go:182-193 | Equals answers true for two inputs exactly when they have the same last-wins map and no value of it holds a NaN in a float slice at any depth, collisions of the hash apart |
| SetIdentity.CollisionOfHash | attribute/set.go:182-193 | such a collision takes two different byte streams with one hash |
| SetIdentity.NaNIsNotItself | attribute/set.go:182-193 | a witness: a set with a NaN in a float slice is not equal to itself; with a float alone it is |
| SetIdentity.SameStream | attribute/hash.go:109-292 | values that Go finds equal write as many bytes to the hash, and the same bytes only if they are equal bit by bit |
| SetIdentity.FlatStreamsIff | attribute/hash.go:109-189 | two numbers, truth values, strings, byte slices or lists of numbers or truth values write the same bytes exactly when they are equal |
| SetIdentity.TypesDiffer | attribute/hash.go:21-34 | values of different types never write the same bytes |
| SetIdentity.DifferentStreams | attribute/hash.go:109-292 | nor do lists and maps, at any depth, that differ in one element or entry of that kind |
| SetIdentity.OneValueTellsApart | attribute/hash.go:95-126 | nor do two sets that differ in one value so |
| SetIdentity.SameWidthsTellApart | attribute/hash.go:95-126 | nor do two sets with the same keys whose such values write equally many bytes, place by place |
| SetIdentity.OtherIdentifiers | attribute/hash.go:21-34 | the type identifiers of slices and of empty values do not spell what is documented |
| SetIdentity.StringIdentifier | attribute/hash.go:25-25 | the type identifier of strings spells `_string_` |
| SetIdentity.StreamsRunTogether | attribute/hash.go:95-126 | whatever the hash, an attribute whose value runs on into a key and the identifier of strings has the Distinct of two attributes, and the sets are not equal |
| AttrSet.Lookup | attribute/set.go:126-144 | binary search agrees with that map |
| AttrSet.MergeIterator.Next | attribute/iterator.go:111-139 | yields the head of the merge of what remains and leaves its tail; false exactly when nothing remains |
| AttrSet.MergedAscending | attribute/iterator.go:111-139 | merging two sets yields strictly ascending keys |
| AttrSet.MergedToMap | attribute/iterator.go:111-139 | the merge is the union of the two maps, the first argument's values winning |
| AttrSet.MergedIsCanonical | attribute/iterator.go:111-139 | the merge of a and b is the set built from b's attributes followed by a's |
| AttrSet.MergeSets | metric/instrument.go:304-312 | the union of both sets, b's values winning |
| Resource.NewWithAttributes | sdk/resource/resource.go:40-58 | valid, de-duplicated attributes in canonical form |
| Resource.NewReads | sdk/resource/resource.go:40-58 | for each key that is not empty a new resource reads the last value given, de-duplicated, and nothing else |
| Resource.Merge | sdk/resource/resource.go:119-139 | nil cases, and otherwise the merge of the two sets |
| Resource.MergeIsUnion | sdk/resource/resource.go:119-139 | the merge of normalised resources is normalised and is the union of their maps, b's values winning |
| Resource.MergeAssociative | sdk/resource/resource.go:119-139 | merging is associative on normalised resources |
| Resource.MergeIdentity | sdk/resource/resource.go:119-145 | the empty resource is neutral on both sides; merging with itself changes nothing |
| TraceState.ParseTraceState | trace/tracestate.go:183-218 | returns what the specification parser returns, error by error |
| TraceState.ParseMember | trace/tracestate.go:142-156 | a list member is a trimmed key, an equals sign and a value, or the one error that the member is invalid |
| TraceState.CheckKey | trace/tracestate.go:124-130 | accepts exactly the simple and multi-tenant keys of section 3.3.1.3.1 of W3C Trace Context |
| TraceState.CheckValue | trace/tracestate.go:48-59 | accepts exactly the values of section 3.3.1.3.2 of W3C Trace Context |
| TraceState.SimpleKeyIff | trace/tracestate.go:62-130 | a key without an at sign is a small letter and up to 255 more characters of the alphabet |
| TraceState.TenantKeyIff | trace/tracestate.go:62-130 | a key with one has up to 241 characters before it and up to 14 behind it |
| TraceState.ValueIff | trace/tracestate.go:48-59 | a value is up to 256 printable ASCII characters without comma and equals sign, the last one no space |
| TraceState.ThirtyTwoMembers | trace/tracestate.go:183-218 | a header holds at most 32 members, and any 32 valid ones with different keys |
| TraceState.ParseIff | trace/tracestate.go:183-218 | a header parses to ms exactly when its pieces are the members ms one by one, at most 32, with distinct keys |
| TraceState.ParsedIsWellFormed | trace/tracestate.go:183-218 | a parsed state has at most 32 members with valid, distinct keys and valid values |
| TraceState.RoundTrip | trace/tracestate.go:183-252 | parsing the printed form of any such state returns it |
| TraceState.MemberTextIff | trace/tracestate.go:142-156 | a piece is read exactly when it is key, equals sign and value of the grammar with white space around them |
| TraceState.ListReadIff | trace/tracestate.go:183-218 | a list of section 3.3.1 of W3C Trace Context with at most 32 members and distinct keys is read, and as those members, exactly when no list-member is white space alone, empty ones apart |
| TraceState.BlankMemberRefused | trace/tracestate.go:195-205 | a witness: two members with white space alone between two commas are refused |
| TraceState.String | trace/tracestate.go:228-252 | prints the members separated by commas |
| TraceState.Get | trace/tracestate.go:256-264 | the value of the key, or the empty string |
| TraceState.Insert | trace/tracestate.go:288-313 | the new member first and the rest without its key, cut to 32, or the state given with the error |
| TraceState.Delete | trace/tracestate.go:317-328 | the members without the key, in order |
| TraceState.ChangesKeepForm | trace/tracestate.go:288-328 | Insert and Delete keep the invariant and Insert puts the member first |
| TraceState.InsertKeepsOthers | trace/tracestate.go:288-313 | the rest keeps its order, and only the right-most member of a full state is dropped |
| TraceState.DeleteUndoesInsert | trace/tracestate.go:288-328 | deleting an inserted key restores the rest exactly when the key was there or the state was not full |
| Hex.IDFromHex | trace/trace.go:133-180 | the OR-accumulated mark accepts exactly lower-case hexadecimal of the right length that is not all zero |
| Hex.IDRoundTrip | trace/trace.go:60-180 | parsing and printing are inverse on the identifiers that are not all zero, and on nothing else |
| Hex.DecodeEncode | trace/trace.go:66-75 | decoding undoes printing |
| Hex.PrintedExample | trace/trace.go:66-75 | the high digit of a byte comes first, in lower case |
| TraceContext.Inject | propagation/trace_context.go:30-60 | a valid span context sets traceparent, and tracestate when it is not empty; an invalid one sets nothing |
| TraceContext.InjectedByName | propagation/trace_context.go:30-60 | what the headers `traceparent` and `tracestate` hold afterwards; all others are as they were |
| TraceContext.Extract | propagation/trace_context.go:71-119 | returns what the specification reads from the two headers |
| TraceContext.ExtractPart | propagation/trace_context.go:130-141 | takes n lower-case hexadecimal digits that end the header or stand before a dash |
| TraceContext.InjectExtract | propagation/trace_context.go:30-119 | after Inject into any carrier, extract returns the same IDs, the flags masked to the two defined bits, remote set, and the state; an empty state leaves the carrier's old tracestate in force |
| TraceContext.InjectExtractEmpty | propagation/trace_context.go:30-119 | from an empty carrier the span context comes back as it was |
| TraceContext.StateComesBackIff | propagation/trace_context.go:30-119 | the whole span context comes back exactly when it has a state or the carrier's old tracestate header reads as none |
| TraceContext.StaleStateShows | propagation/trace_context.go:30-60 | a witness for every state left in the carrier: a context without one is extracted with it |
| TraceContext.ExtractedIsTyped | propagation/trace_context.go:71-119 | whatever the headers, what is extracted is a valid remote span context with a valid state |
| TraceContext.ExtractedIff | propagation/trace_context.go:71-119 | for any two headers exactly which span context is extracted: traceparent is a header of a version up to 254 with these identifiers, not all zero, followed by nothing or by a dash and more, of version 00 by at most a dash and with flags of at most 3 |
| TraceContext.HeaderPlaces | propagation/trace_context.go:30-60 | the fields of a header stand in their order, each as wide as its digits, with dashes between |
| TraceContext.VersionZeroAccepted | propagation/trace_context.go:71-119 | of version 00 exactly the canonical header, or that header and one dash, is accepted |
| TraceContext.TrailingDashAccepted | propagation/trace_context.go:130-141 | the extra dash is accepted for every valid span context |
| Base64.AppendBase64 | attribute/value.go:1227-1259 | appends the encoding of section 4 of RFC 4648 |
| Base64.DecodeEncode | attribute/value.go:1227-1259 | a strict decoder returns every byte string from its encoding |
| Base64.EncodeDecode | attribute/value.go:1227-1259 | whatever the strict decoder accepts is the encoding of its result |
| Base64.EncodedLength | attribute/value.go:1230-1230 | the length is 4 * ceil(n / 3) |
| Base64.Alphabet | attribute/value.go:1227-1259 | the letters are those of Table 1 of RFC 4648 |
| Base64.Examples | attribute/value.go:1227-1259 | three examples of section 10 of RFC 4648 |
| JsonString.AppendJSONString | attribute/value.go:1162-1218 | the loop that copies runs appends the per-rune escape between quotes |
| JsonString.ParseQuoted | attribute/value.go:1162-1218 | a reader after section 7 of RFC 8259 returns the string, with U+FFFD for each invalid byte; on valid UTF-8 the string itself |
| JsonString.AsciiEscapes | attribute/value.go:1162-1218 | seven characters have short escapes, the other controls are written as numbers, other ASCII characters as they are |
| JsonString.OtherEscapes | attribute/value.go:1162-1218 | line and paragraph separator and an invalid byte as numbers, other runes as they are |
| Encoder.EncodeAttributes | attribute/encoder.go:75-99 | appends key=value pairs separated by commas; keys and strings are escaped, the text of any other value is written as it is |
| Encoder.CopyAndEscape | attribute/encoder.go:103-111 | appends the runes with a backslash before special ones, U+FFFD for invalid bytes |
| Encoder.EncodingUniqueTame | attribute/encoder.go:75-111 | two sets of strings and of values whose text holds no equals sign and no backslash, lists of numbers included, have one encoding exactly when keys and values look alike symbol by symbol |
| Encoder.EncodingUnique | attribute/encoder.go:75-111 | two sets of strings and of values whose text has nothing to escape have one encoding exactly when their keys and texts agree, up to U+FFFD for invalid bytes |
| Encoder.EncodingInjective | attribute/encoder.go:75-111 | on strings of valid UTF-8 the encoding is injective |
| Encoder.TypeIsNotSeen | attribute/encoder.go:88-96 | a witness for every such value: it and the string of its text, as `true` and "true", share an encoding |
| Encoder.ListIsNotEscaped | attribute/encoder.go:88-96 | a witness: an attribute whose text holds a comma and an equals sign, as a list of strings may, is encoded like two attributes with strings |
| Encoder.TwoPairs | attribute/encoder.go:75-99 | two attributes of plain strings: key, equals sign, value, comma, key, equals sign, value |
| Encoder.EscapesExample | attribute/encoder.go:103-111 | the three characters that are escaped |
| Grouping.ResourceLogs | exporters/otlploghttp/internal/transform/log.go:22-80 | one entry per Distinct that occurs, with the attributes of the first record that has it, attached to it its scopes in order of appearance, each with exactly its records in input order |
| Grouping.Spans | exporters/otlptracehttp/internal/tracetransform/span.go:20-84 | the same for spans, nil spans skipped |
| Grouping.LandsInOwnGroup | exporters/otlptracehttp/internal/tracetransform/span.go:34-76 | every record lands in the group of its own Distinct and scope, behind the earlier ones of that key |
| Grouping.TakenByOne | exporters/otlptracehttp/internal/tracetransform/span.go:34-76 | every place in a group is taken by exactly one record |
| Grouping.ScopesDistinct | exporters/otlptracehttp/internal/tracetransform/span.go:66-76 | a scope is attached to its resource once |
| Grouping.LeavesUnderOwnIff | exporters/otlptracehttp/internal/tracetransform/span.go:53-64 | a record leaves under the attributes of its own resource exactly when the first record of the batch with its Distinct has the same |
| Grouping.OwnAttrsIff | exporters/otlptracehttp/internal/tracetransform/span.go:53-64 | all records of a batch do exactly when no two different resources in it share a Distinct |
| Grouping.OneValueTwoEntries | exporters/otlptracehttp/internal/tracetransform/span.go:38-64 | under a hash that tells the byte streams apart, records whose resources differ in one value never share an entry |
| Grouping.AllLeaveUnderOwn | exporters/otlptracehttp/internal/tracetransform/span.go:38-64 | and a batch whose resources differ so leaves with every record under the attributes of its own resource |
| Grouping.TwoInstances | exporters/otlploghttp/internal/transform/log.go:30-70 | two records of the instances 1 and 2 of a service: two entries, each with its own attributes |
| Grouping.LeavesUnderOther | exporters/otlptracehttp/internal/tracetransform/span.go:53-64 | a witness, whatever the hash: two resources with one Distinct, and the second record leaves under the attributes of the first |

## Left out

- HTTP exporters, the retry loop and otelhttp: network and clock. Export and ExportSpans are recorded calls with arbitrary results.
- Timers and deadlines: a timer may fire and a context may be cancelled at any moment; durations are not modelled.
- Log queues with a capacity below 1 (the runs ask for 1; only a closed queue accepts Enqueue without a node, as the code dereferences nil otherwise) and log batch sizes below 1 in the state machine (`ChunkExport.ChunkExport` covers them).
- `MaxExportBatchSize` below 1 in the span processor, whose batch would then be exported after every span.
- Processors without an exporter, providers without a processor, and nil receivers: they do nothing.
- `sync.Pool`, `slices.Grow`, reflection and the unsafe mirror of values: performance only; arrays inside values are sequences.
- xxhash: the hash is any function of the bytes written, so that collisions between different bytes are possible and not computed.
- Number formatting and printing of whole values to JSON; the text of a value that is no string is a parameter of `Encoder`.
- `attrnorm.Truncate`, which repeats `TruncateValue` for the value of one attribute, and the buffers that `AddAttributes` reuses.
- Span.End (its runtime task releases the lock half-way), events and links of a snapshot beyond their queue, RecordError.
- sdk/metric, otelslog, generated protobuf code, options, getters, semantic conventions.
- Logger.Derive: exception message and type come as given strings; how `errorType` finds a type name is not modelled.
- BatchProcessor and SpanProcessor: errors are success flags; `ChunkExport.ChunkExport` keeps the joined errors of an export.
- LoggerProvider.Provider.EndProcessorOperation: asks that no wrong channel is closed, which `ProviderRuns.RunGate` proves of every run; the mutex itself is the atomicity of the method.
- Grouping.Spans: the order in which Go walks the map of resources is left open.
- SpanAttributes.Span.Snapshot: of the snapshot only the attributes and their dropped count; name, times, status, events and links are left out.
- Logger.NewRecord: of the record only the attributes and their dropped count; body, timestamps, severity and identifiers are copied.
- LogRecord.Record.Clone: fields other than the attributes are values and are left out.
- TraceContext.ExtractPart: `hex.Decode` is modelled by what its documentation says; header names are plain keys of the carrier, without canonical spelling.
