# Wirewolf, modelled and proved in Dafny

Wirewolf turns captured packets into alerts: a TCP reassembler rebuilds one payload per connection, a
filter decides which flows are worth a language model's time, bounded priority queues connect the stages,
and a handful of text and binary codecs sit along the way. This project models those algorithms and proves
what they promise, on all inputs, all runs and, where threads are involved, all interleavings.

`dafny verify dfyconfig.toml` checks the whole project.

## How it is laid out

| files | part of the system |
|---|---|
| `SerialNumbers`, `TcpConnection` | 32-bit sequence arithmetic; one direction of a connection as a class, against a step function |
| `TcpFirstSeen`, `TcpSoundness`, `TcpCompleteness`, `TcpDetection`, `FlowStatistics` | what the payload can be, when it is complete, when an overlap is reported, what the emitted statistics are |
| `ConnectionTable`, `TcpReassembling`, `TableLaws`, `TableSoundness` | the capped table, its four ways out and the flows pushed; the class with its sweeps; who leaves with what, told by packets; from a connection's packets to its flows |
| `PriorityQueue`, `QueueConcurrency` | the queue's critical sections as a class; every interleaving of pushers, poppers and wakeups |
| `NpuFilter`, `NpuVerdicts`, `Pipeline`, `PipelineLaws` | the filter worker, and its verdicts told by the findings; reassembler, filter and LLM worker around two queues, with startup and shutdown |
| `Sequences`, `Options`, `Bytes` | facts about sequences and multisets, and two types, used throughout |
| `Strings`, `AlertJson`, `AlertReading`, `AlertObject` | alert objects written, and read back whole or field by field |
| `PromptSanitizer`, `SanitizerLaws`, `PayloadNormalizer`, `NormalizerLaws` | prompt markers and anti-evasion canonicalisation, and what both do told character by character |
| `TlsInspector`, `TlsLayout`, `Md5`, `Md5Vector`, `Ja3`, `Ja3Fields` | ClientHello parsing and the layouts it accepts, the digest and a known answer, the client fingerprint and its fields |
| `BehavioralEncoding`, `MarkovModels`, `Decimal`, `ModelFile`, `ModelReading`, `ModelRoundTrip` | state strings, training and smoothing, the model file, what is read from any line and when a file reads back |
| `Calendar` | day numbers and start times of the trainer's flow records |

Code that updates state is modelled by classes and methods with loops, each proved equal to a
specification function; the laws are then lemmas about that function. What a function decides is also
stated without it, from the packets, the findings or the bytes alone, with the numbers written out: which
overlaps are reported, who leaves the table, every verdict, every decoded character, every field. Packets start at the abstract level:
connection id, SYN, RST and FIN flags, sequence number, payload (captured, or cut short by the capture
with its true length still known) and time. Doubles are `real`. Hash sets hold the keys that were hashed.
Sweeps over hash maps visit entries in any order, and so do walks over ordered maps where the order does
not matter.

## What turned out to be different from what one would hope

The model follows the code. Where a promise holds only under a condition, the condition is proved exact.

- Reassembly in any arrival order completes exactly when there are at most 257 segments and the segments
  after the first do not straddle the 2^32 wrap: the pending map holds 256 and is ordered by raw value, so
  wrapped keys hide a segment that is due (`CompletenessExactly`, `StallAtTheWrap`).
- A SYN repeated after data rewinds the expected number without clearing the payload; the retransmitted
  first segment is then delivered twice. Whatever follows, the payload stays a prefix of the stream exactly
  when the SYN found nothing delivered (`RepeatedSynHarmlessExactly`).
- The comment in `src/npu_filter.cpp:1037-1039` says a behavioural escalation forces the flow through to
  the LLM. It only overrides the statistical verdict. The filter is a list of stages and the first that
  applies decides: the flow is passed on exactly when that stage lets it through (`BehavioralEscalation`),
  whatever is remembered exactly when it is one that always passes (`ForcedThroughExactly`); an escalated
  flow of mostly binary content is dropped (`EscalatedBinaryIsDropped`).
- The controller calls an offline run complete when it has read both queue depths as 0 and then finds the
  capture finished. Depths and flag belong to three different moments. A round that read 0 twice can only
  end well, however it goes on, exactly when at the second reading the capture had finished, the input was
  empty, the filter had no flow in hand and no push was waiting (`DeclaredMeansDoneExactly`); if the capture
  had finished before the first reading, only the filter matters (`CaptureBeforeReading`). Two runs that are
  declared complete too early: stale depths (`StaleDepthsHideAFlow`), a flow in the filter's hands
  (`EmptyQueuesCanHideAFlow`).
- A threat type that is `snippet`, or ends in a quote and `snippet`, makes the extractor return the
  severity text as the snippet; control characters other than newline, return and tab do not survive
  (`AlertRoundTrip`). The object itself is sound: a conforming JSON reader recovers all four members for
  every input (`AlertIsLossless`).
- Comments are stripped in one pass, so removing one can bring a new opener together. A normalised payload
  holds neither opener exactly when no stripped comment, or run of them, has a slash kept before it and a
  star after it, or a dash on both sides (`CommentFreeExactly`).
- `include/payload_normalizer.hpp:96` announces `#` comments; in the code a `#` starts none. Of every payload
  the result holds exactly the `#` characters that stand outside the stripped comments of the decoded text,
  so one survives if and only if it is not inside such a comment (`HashesKept`, `HashCommentStays`).
- A model file loads back exactly when the label holds no space, the fingerprint no line end, no observed
  character is a space and no observed pair ends in a colon (`ModelRoundTripExactly`); a label is cut to its
  first word (`LabelIsCut`), a pair ending in a colon makes loading throw (`ColonThrows`).
- An old ClientHello without extensions is reported as such only if at most one byte follows it in the
  payload (`OldHelloIsRecognised`).
- The GREASE mask also drops values that are not reserved, such as 0x0A1A; lists are right exactly when
  they hold none (`OnlyReservedDropped`).
- A state string depends on how a sort breaks ties unless tied flows share their letter
  (`OrderIrrelevantExactly`); letters collide beyond 256 size and duration pairs and stop being fit for a
  model file beyond 168; symbols collide beyond five gap bounds.

## Model

| member | source | states |
|---|---|---|
| SerialNumbers.SeqAfterIsOffsetOrder | src/tcp_reassembly.cpp:75-81 | the signed-difference comparison orders sequence numbers as true stream offsets less than 2^31 apart, across the wrap, and equal numbers mean equal offsets |
| SerialNumbers.ComparisonIsTotalExceptAntipodes | src/tcp_reassembly.cpp:75-81 | two different numbers are ordered one way only, except exactly 2^31 apart, where both ways hold |
| TcpConnection.ConnectionState.constructor | include/tcp_reassembly.hpp:34-51 | a new connection starts with nothing received |
| TcpConnection.ConnectionState.CompareOverlap | src/tcp_reassembly.cpp:491-503 | the loop counts exactly the segment bytes that fall on payload already held, and those among them that differ |
| TcpConnection.ConnectionState.DrainPending | src/tcp_reassembly.cpp:541-553 | the iterator loop is the repeated removal of the lowest raw key until one lies beyond a gap |
| TcpConnection.ConnectionState.AcceptData | src/tcp_reassembly.cpp:466-559 | the new buffers and the evasion report for a data segment: baseline, overlap check, in-order append with drain, or early storage |
| TcpConnection.ConnectionState.Record | src/tcp_reassembly.cpp:449-455 | the running statistics after a packet, with the 32-bit square |
| TcpConnection.ConnectionState.OnPacket | src/tcp_reassembly.cpp:449-565 | the whole connection state after any packet equals the step specification, and an evasion is reported exactly for a conflicting overlap |
| TcpConnection.ConnectionState.MergeRemaining | src/tcp_reassembly.cpp:662-668 | leftover segments are appended in raw key order and cleared |
| TcpFirstSeen.DrainKeepsFirstSeen | src/tcp_reassembly.cpp:541-553 | draining only appends, never adds pending segments, and does not shift the payload against the sequence space |
| TcpFirstSeen.FirstSeenWins | src/tcp_reassembly.cpp:449-565 | whatever packet arrives, delivered bytes stay, at most 256 segments are pending, and on non-SYN packets the baseline of a non-empty payload never moves |
| TcpFirstSeen.FirstSeenWinsOverRuns | src/tcp_reassembly.cpp:449-565 | over a whole run the payload at any point is a prefix of the payload at the end |
| TcpSoundness.SlicesNeverConflict | src/tcp_reassembly.cpp:490-505 | a correct slice of the stream is never taken for an evasion attempt |
| TcpSoundness.DeliverKeepsAlignment | src/tcp_reassembly.cpp:537-558 | delivering any slice, overlapping or not, keeps the payload a piece of the stream ending where the expected number says |
| TcpSoundness.RunKeepsSound | src/tcp_reassembly.cpp:457-559 | inductive form of soundness over runs of overlapping slices |
| TcpSoundness.ReassemblyIsSound | src/tcp_reassembly.cpp:457-559 | for slices of one stream below 2^31 bytes in any order and repetition, SYN only before data: the payload is a prefix of the stream (from the first captured slice without a SYN), the expected number is its end, no evasion is reported; the sequence numbers may wrap |
| TcpSoundness.SynKeepsAlignmentOnlyBeforeData | src/tcp_reassembly.cpp:457-461 | a repeated SYN is harmless exactly while nothing was delivered |
| TcpSoundness.RepeatedSynDuplicatesData | src/tcp_reassembly.cpp:457-461 | after it, the first segment is delivered a second time, behind the payload |
| TcpSoundness.RepeatedSynHarmlessExactly | src/tcp_reassembly.cpp:457-461 | whatever slices follow a repeated SYN, the payload stays a prefix of the stream exactly when the SYN found nothing delivered |
| TcpSoundness.ResentDelivers | src/tcp_reassembly.cpp:537-553 | a stream sent again from its start after such a SYN is delivered in full behind what was there |
| TcpDetection.ReportedExactly | src/tcp_reassembly.cpp:490-534 | with nothing pending, data numbered anywhere is reported exactly when at least eight of its bytes fall on delivered positions of the stream and at least four of these differ from it; the buffers then stay as they are |
| TcpDetection.NeverReported | src/tcp_reassembly.cpp:490 | with a segment pending, nothing delivered or no bytes in the packet there is no report |
| TcpDetection.RewriteIsReported | src/tcp_reassembly.cpp:490-505 | a delivered segment of eight bytes or more sent again with every byte changed is reported |
| TcpDetection.OthersDeliverNothing | src/tcp_reassembly.cpp:457-466 | a packet without captured bytes leaves the buffers alone, and a SYN only numbers the byte that is due |
| TcpDetection.FirstSegmentFixesBaseline | src/tcp_reassembly.cpp:469-475 | without a SYN the first segment is delivered whatever its number |
| TcpDetection.LateSegmentDropped | src/tcp_reassembly.cpp:537-558 | a segment that starts before the byte that is due is dropped whole, even if it ends after it |
| TcpDetection.EarlySegmentKept | src/tcp_reassembly.cpp:554-558 | one that starts after it is kept unless 256 are or one with its number is |
| TcpDetection.DueSegmentDelivered | src/tcp_reassembly.cpp:537-553 | one that starts with it is appended whole, and then the kept ones are looked at |
| TcpDetection.KeptSegmentsTakenOut | src/tcp_reassembly.cpp:541-553 | kept segments go from the lowest raw number on until one starts after the byte that is due; of each the part from that byte on is appended |
| TcpDetection.PendingFirstSeenWins | src/tcp_reassembly.cpp:554-558 | a kept segment is never replaced by a later one with its number |
| TcpCompleteness.DrainCompletes | src/tcp_reassembly.cpp:541-553 | within the limits, the drain delivers the whole contiguous run and stops at the first missing segment |
| TcpCompleteness.StoreHolds | src/tcp_reassembly.cpp:554-558 | an early segment is kept as long as fewer than 256 others are |
| TcpCompleteness.DeliveryCompletes | src/tcp_reassembly.cpp:457-559 | within the limits every order and repetition ends with the whole stream and nothing pending |
| TcpCompleteness.StepGainsAtMost | src/tcp_reassembly.cpp:466-559 | a packet adds at most its own length to the bytes held |
| TcpCompleteness.TooManySegmentsFail | src/tcp_reassembly.cpp:555 | with more than 257 segments, sending the first one last loses data |
| TcpCompleteness.StraddlingFails | src/tcp_reassembly.cpp:541-543 | with a straddled wrap, sending the first segment last delivers that segment and nothing else |
| TcpCompleteness.CompletenessExactly | src/tcp_reassembly.cpp:457-558 | after a SYN, all arrival orders complete if and only if there are at most 257 segments and those after the first lie on one side of the wrap |
| TcpCompleteness.StallAtTheWrap | src/tcp_reassembly.cpp:541-543 | three 8-byte segments across the wrap: 8 of 24 bytes are delivered |
| FlowStatistics.SquareFits | src/tcp_reassembly.cpp:406-455 | the 32-bit square of a payload length never wraps |
| FlowStatistics.EmittedVarianceIsVariance | src/tcp_reassembly.cpp:679-683 | the variance computed from running sums is the population variance of the packet lengths over every history, hence not negative |
| FlowStatistics.InterArrivalTelescopes | src/tcp_reassembly.cpp:675-678 | the mean gap times the number of gaps is the last timestamp less the first, and 0 for a lone packet |
| ConnectionTable.ReceiveKeepsInvariant | src/tcp_reassembly.cpp:445-565 | admitting or updating a connection keeps the table invariant |
| ConnectionTable.ForceEvictKeepsInvariant | src/tcp_reassembly.cpp:567-585 | the forced eviction removes no delivered byte |
| ConnectionTable.SweepKeepsInvariant | src/tcp_reassembly.cpp:658-709 | a sweep that emits every removed connection with payload exactly once, in any order, keeps the byte balance |
| ConnectionTable.NextKeepsInvariant | src/tcp_reassembly.cpp:431-709 | every operation keeps the cap, ties every entry to its own packets, every pushed flow to its packets, and the byte balance |
| ConnectionTable.RunsKeepInvariant | src/tcp_reassembly.cpp:431-709 | over whole runs: at most 50000 entries, bytes delivered equal bytes in the table plus reassembled prefixes of pushed flows |
| ConnectionTable.PushedFlowsAreAccurate | src/tcp_reassembly.cpp:670-703 | every flow ever pushed starts with what its own packets reassemble to, and carries their count, last time, mean gap and variance |
| TableLaws.CompletionTakesExactly | src/tcp_reassembly.cpp:658-709 | a connection stays in the table if and only if none of its non-SYN packets has RST or FIN and what it delivered is within the limit; each that leaves is pushed exactly once, with the bytes it delivered and then its pending segments by ascending number |
| TableLaws.StaleSweepTakesExactly | src/tcp_reassembly.cpp:593-626 | at most once a minute exactly the connections whose last packet is over 120 s old leave; those that delivered something are pushed once, with just that |
| TableLaws.FlushTakesExactly | src/tcp_reassembly.cpp:1217-1278 | the table ends empty and each connection is pushed exactly once, except lone packets that neither close nor deliver anything |
| TableLaws.PacketTakesExactly | src/tcp_reassembly.cpp:431-591 | below 50000 entries, or for a known connection, the packet is added to its connection and nothing else changes; on a full table, at most once a second, exactly the connections that delivered nothing and are idle for over 5 s make room, and without room the packet is shed |
| TableSoundness.RunsStayTraced | src/tcp_reassembly.cpp:431-709 | in every run, behind an entry and a pushed flow stand packets of its connection, without gaps and in order of arrival |
| TableSoundness.PushedFlowsAreSound | src/tcp_reassembly.cpp:431-709 | in any run, when the packets that arrived for a connection are slices of one stream, the reassembled bytes of every flow pushed for it are a piece of that stream, from its start when the flow's packets include the SYN |
| TcpReassembling.TcpReassembler.constructor | src/tcp_reassembly.cpp:83-85 | starts with an empty table and nothing pushed |
| TcpReassembling.TcpReassembler.ForceEvictOldest | src/tcp_reassembly.cpp:567-591 | at most once a second of capture time, removes exactly the payload-less entries idle for over five seconds |
| TcpReassembling.TcpReassembler.UpdateConnection | src/tcp_reassembly.cpp:445-565 | puts the stepped connection back and changes nothing else |
| TcpReassembling.TcpReassembler.ProcessIpPacket | src/tcp_reassembly.cpp:431-565 | admission, forced eviction, shedding or update, as the table specification says; an evasion is reported exactly for a known connection's conflicting overlap |
| TcpReassembling.TcpReassembler.EmitAndErase | src/tcp_reassembly.cpp:664-704 | pushes exactly the flow of that connection and erases its entry |
| TcpReassembling.TcpReassembler.CheckCompleteFlows | src/tcp_reassembly.cpp:658-709 | emits and erases exactly the finished or oversized connections, once each |
| TcpReassembling.TcpReassembler.RemoveStale | src/tcp_reassembly.cpp:598-626 | removes exactly the connections idle for over 120 s, emitting those with payload |
| TcpReassembling.TcpReassembler.EvictStaleState | src/tcp_reassembly.cpp:593-626 | does so at most once per 60 s of capture time |
| TcpReassembling.TcpReassembler.FlushRemaining | src/tcp_reassembly.cpp:1230-1278 | emits every remaining connection except lone packets without payload |
| TcpReassembling.TcpReassembler.FlushAllFlows | src/tcp_reassembly.cpp:1217-1278 | completes the finished flows, then flushes, and leaves the table empty |
| PriorityQueue.ThreadSafeQueue.constructor | include/thread_safe_queue.hpp:35-41 | an empty queue in live mode, nobody notified |
| PriorityQueue.ThreadSafeQueue.SetBlocking | include/thread_safe_queue.hpp:45-50 | sets the mode, and notifies all pushers exactly when switched off |
| PriorityQueue.ThreadSafeQueue.Push | include/thread_safe_queue.hpp:52-82 | the state and outcome of a push that got the lock: stored, emergency drop either way, or made to wait; one popper is notified exactly when it stored |
| PriorityQueue.ThreadSafeQueue.AfterWait | include/thread_safe_queue.hpp:74-81 | what a pusher does once its wait is over, and the notification that goes with storing |
| PriorityQueue.ThreadSafeQueue.Pop | include/thread_safe_queue.hpp:84-94 | takes the front entry and notifies one pusher, ends, or waits |
| PriorityQueue.ThreadSafeQueue.Finish | include/thread_safe_queue.hpp:96-101 | marks the queue done and notifies all poppers and all pushers |
| PriorityQueue.InsertKeepsDescending | include/thread_safe_queue.hpp:29-31 | insertion keeps priorities descending |
| PriorityQueue.InsertAppendsToBand | include/thread_safe_queue.hpp:29-31 | insertion appends to its own priority's entries and leaves the others alone: equal priorities stay first in, first out |
| PriorityQueue.StableSortUnique | include/thread_safe_queue.hpp:29-31 | there is only one stable sort |
| PriorityQueue.StableSortPermutes | include/thread_safe_queue.hpp:29-31 | and it is a permutation of its input |
| PriorityQueue.SortIsStable | include/thread_safe_queue.hpp:29-31 | inserting everything produces it |
| PriorityQueue.InsertIntoTruncated | include/thread_safe_queue.hpp:55-69 | the emergency drop acts on the first n entries of a descending sequence as insertion into all of it does |
| PriorityQueue.LiveQueueKeepsMostSuspicious | include/thread_safe_queue.hpp:52-82 | live mode, after any pushes without pops: the queue is the first `capacity` entries of the stable sort of everything pushed, and every other one was counted as dropped |
| PriorityQueue.PushOutcome | include/thread_safe_queue.hpp:52-82 | with room a push is stored behind its equals, even after the end; on a full queue it waits if blocking and not ended, is dropped if ended or nothing there is lower, and otherwise replaces the newest of the lowest priority |
| PriorityQueue.WaitOutcome | include/thread_safe_queue.hpp:71-81 | after a wait it is stored if there is room and dropped otherwise |
| PriorityQueue.PopOutcome | include/thread_safe_queue.hpp:84-94 | a pop takes the oldest entry of the highest priority, also after the end; on an empty queue it ends or waits |
| QueueConcurrency.NextKeepsWakeups | include/thread_safe_queue.hpp:45-101 | every step of every thread keeps: free slots are covered by signalled pushers while one sleeps, items by signalled poppers, nobody sleeps unsignalled after finish |
| QueueConcurrency.RunsKeepWakeups | include/thread_safe_queue.hpp:45-101 | the same in every state of every interleaving |
| QueueConcurrency.NobodySleepsOnWork | include/thread_safe_queue.hpp:45-101 | with no signal outstanding, sleeping pushers mean a full blocking queue, sleeping poppers an empty one, never both, and nobody sleeps once finished |
| QueueConcurrency.NextConserves | include/thread_safe_queue.hpp:52-94 | every step keeps offered = queued + popped + evicted + rejected + waiting, and the drop counter equal to the lost ones |
| QueueConcurrency.PopInOrder | include/thread_safe_queue.hpp:89-91 | a pop keeps each priority in arrival order |
| QueueConcurrency.PushInOrder | include/thread_safe_queue.hpp:52-81 | so does a push, also one that evicts |
| QueueConcurrency.RunsConserve | include/thread_safe_queue.hpp:52-94 | the same in every interleaving; of each priority, what was popped and what is queued is in arrival order, and complete as long as nothing was evicted |
| QueueConcurrency.OfflineLosesNothing | include/thread_safe_queue.hpp:70-81 | while backpressure is on nothing is evicted or rejected, the drop counter is 0 and each priority leaves in arrival order |
| NpuFilter.Worker.constructor | src/npu_filter.cpp:812-813 | counters and dedup memory start empty |
| NpuFilter.Worker.PassUnlessSeen | src/npu_filter.cpp:1098-1114 | a keyed detection passes once while remembered, and is counted as duplicate and filtered otherwise |
| NpuFilter.Worker.Handle | src/npu_filter.cpp:814-1121 | one iteration: the code's cascade of branches does what the table of stages says, with the counters, the memory and the single push that go with it |
| NpuFilter.Worker.HandleNamed | src/npu_filter.cpp:900-994 | the branches of the detectors that name a protocol or an attack |
| NpuFilter.Worker.HandleRest | src/npu_filter.cpp:996-1121 | the last branches, from the RAT detector to the dedup of anomalous payloads |
| NpuFilter.CountKeepsAgreement | src/npu_filter.cpp:818-1121 | each popped flow increments exactly one of passed and filtered; duplicates are among the filtered |
| NpuFilter.FirstStageDecides | src/npu_filter.cpp:820-1121 | exactly one stage settles any flow, the first that applies, and decides verdict, priority and memory; the flow is passed on exactly when it lets it through |
| NpuVerdicts.FilteredExactly | src/npu_filter.cpp:820-1121 | a flow is filtered out as benign exactly for: no payload, benign TLS without Heartbleed, SPNEGO, benign HTTP that is no brute force, and what no detector names that is binary or not suspicious |
| NpuVerdicts.DuplicateExactly | src/npu_filter.cpp:827-1106 | and as a duplicate exactly when Heartbleed, SMB, RAT or an anomaly has its key in the memory, which is emptied when it holds over 100000 |
| NpuVerdicts.LowPriorityExactly | src/npu_filter.cpp:805-1114 | it passes with priority 1 exactly as a feed hit without a tag or as a fresh anomaly, and without behavioural escalation |
| NpuVerdicts.HighPriorityExactly | src/npu_filter.cpp:805-1114 | and with priority 2 exactly in the remaining cases, each spelled out |
| NpuVerdicts.FourVerdicts | src/npu_filter.cpp:820-1121 | there is no other verdict |
| NpuVerdicts.PushedExactly | src/npu_filter.cpp:846-1114 | a passed flow is pushed once with that priority, no other is |
| NpuVerdicts.MemoryExactly | src/npu_filter.cpp:827-1106 | the keys remembered afterwards |
| NpuFilter.BehavioralEscalation | src/npu_filter.cpp:1037-1106 | an escalated flow ignores the statistical verdict, is passed on exactly when the first stage that applies lets it through, at once or because its key is not remembered, and then with priority 2 |
| NpuFilter.ForcedThroughExactly | src/npu_filter.cpp:820-1114 | a flow passes whatever is remembered exactly when a stage that always passes settles it |
| NpuFilter.EscalatedBinaryIsDropped | src/npu_filter.cpp:1068-1086 | an escalated flow that the binary check filters out |
| NpuFilter.DecideByKey | src/npu_filter.cpp:900-1106 | which verdicts depend on the dedup memory, and how |
| NpuFilter.NoRepeatUntilTrimmed | src/npu_filter.cpp:827-828 | two passes under one key imply that the memory outgrew its limit in between |
| NpuFilter.NoRepeatEarly | src/npu_filter.cpp:827-828 | so within the first 100001 flows no keyed detection passes twice |
| Pipeline.StepKeepsInvariant | src/pipeline_controller.cpp:126-144 | every event of any stage keeps both queues sound, the threads in place and the books balanced |
| Pipeline.RunsKeepInvariant | src/pipeline_controller.cpp:126-331 | the same in every interleaving, through startup and shutdown |
| PipelineLaws.PipelineConserves | src/npu_filter.cpp:812-1123 | flow by flow, at every step: each popped flow has one verdict or is in hand; those sent on are exactly the ones queued, popped by the LLM, lost, mid-push or in hand; and the counters say how many |
| PipelineLaws.OfflineDropsNothing | src/pipeline_controller.cpp:135-144 | offline, each queue has dropped nothing until the shutdown disables its blocking |
| PipelineLaws.SomebodyCanRun | src/pipeline_controller.cpp:304-331 | the stages are never all blocked on each other; with a queue's blocking off no pusher is left waiting on it, and nobody on a finished one |
| PipelineLaws.WorkersCanDrain | src/pipeline_controller.cpp:135-144 | from every reachable running state, whoever sleeps, whichever queue is full and whatever the verdicts will be, worker steps alone lead to nothing queued, in hand or waiting, in no more steps than there is work; offline, every captured flow is then filtered or handed to the LLM |
| PipelineLaws.DoneExactlyWhenDrained | src/pipeline_controller.cpp:290-300 | offline, every captured flow was filtered or handed to the LLM exactly when nothing is queued, in hand or waiting |
| PipelineLaws.DeclaredOnlyOffline | src/pipeline_controller.cpp:290-300 | only an offline run is ever declared complete, and only after its capture |
| PipelineLaws.DeclaredMeansDoneExactly | src/pipeline_controller.cpp:256-300 | after both depths were read as 0, no continuation of the round declares the run complete too early exactly when at the second reading the capture had finished, the input was empty, the filter had no flow in hand and no push waited |
| PipelineLaws.CaptureBeforeReading | src/pipeline_controller.cpp:236-300 | with the capture finished before the first reading, exactly when the filter had no flow in hand and no push waited at the second |
| PipelineLaws.StaleDepthsHideAFlow | src/pipeline_controller.cpp:256-292 | a run declared complete with a flow queued since the depths were read |
| PipelineLaws.EmptyQueuesCanHideAFlow | src/pipeline_controller.cpp:256-300 | a run declared complete, capture finished and both depths 0, while the filter holds a flow |
| Strings.FindIsFirst | src/llm_inference.cpp:332 | the substring search returns the first match at or after a position, and none only when there is none |
| AlertJson.JsonEscape | src/alert_json.cpp:4-22 | the loop computes the escaped form |
| AlertJson.ExtractJsonField | src/llm_inference.cpp:330-363 | the extractor's value for any text and key, empty for a missing key or an unclosed value; `src/pipeline_controller.cpp:184-214` is the same code |
| AlertJson.ReadValue | src/llm_inference.cpp:342-362 | walking to the closing quote decodes one character after each backslash |
| AlertReading.ValueExtracted | src/llm_inference.cpp:330-363 | of any text, the value behind the first key, its first colon and the first quote after that, a backslash with n, r or t read as the control character and with anything else as that character |
| AlertReading.UnclosedExtractsNothing | src/llm_inference.cpp:342-362 | a value without a closing quote gives the empty string |
| AlertReading.MissingExtractsNothing | src/llm_inference.cpp:332-340 | so does a missing key, colon or quote |
| AlertReading.SeverityShown | include/wirewolf_types.hpp:46-51 | how a severity is written, on an example |
| AlertObject.EscapeIsLossless | src/alert_json.cpp:4-22 | a JSON reader for the printer's escapes (section 7 of RFC 8259) recovers every string and goes on behind its closing quote |
| AlertObject.AlertIsLossless | src/alert_json.cpp:24-32 | such a reader of objects finds the four members with the values they were built from, for every threat type, severity and snippet, also where the extractor fails |
| AlertJson.ReadEscapedString | src/llm_inference.cpp:342-362 | the extractor recovers every escaped string up to control characters it cannot decode |
| AlertJson.LossyExactlyWhenClean | src/llm_inference.cpp:345-355 | and exactly the strings without such characters come back unchanged |
| AlertJson.ThreatTypeExtracted | src/alert_json.cpp:24-32 | the threat type read back from a built alert |
| AlertJson.SnippetExtracted | src/alert_json.cpp:24-32 | the snippet read back, or the severity text for a clashing threat type |
| AlertJson.ClashShows | src/alert_json.cpp:28-31 | the printed threat type looks like the snippet key exactly when the threat type is that word or ends in a quote and it |
| AlertJson.AlertRoundTrip | src/pipeline_controller.cpp:216-219 | exactly when the two fields survive building and extracting |
| PromptSanitizer.ReplaceAll | src/llm_inference.cpp:30-37 | the in-place loop terminates and is leftmost non-overlapping replacement |
| PromptSanitizer.SanitizeForPrompt | src/llm_inference.cpp:25-46 | the five passes in order |
| PromptSanitizer.SplittingPairs | src/llm_inference.cpp:38-39 | splitting a token removes it and creates no other |
| PromptSanitizer.DefangingRemoves | src/llm_inference.cpp:42-44 | defanging removes its marker and creates no text without parentheses that was not there |
| PromptSanitizer.MarkersEliminated | src/llm_inference.cpp:25-46 | for every input the result contains none of the five markers |
| PromptSanitizer.UnchangedExactlyWhenFree | src/llm_inference.cpp:25-46 | text is left alone exactly when it holds no marker; sanitising is idempotent |
| SanitizerLaws.SanitizesExactly | src/llm_inference.cpp:25-46 | for every input: a blank goes between < and the bar and between the bar and >, the brackets of the three section markers become parentheses, and every other character stays |
| PayloadNormalizer.DecodeAt | include/payload_normalizer.hpp:38-66 | one item decoded in place, with the code's order of cases |
| PayloadNormalizer.PercentDecodeOnce | include/payload_normalizer.hpp:33-69 | one decoding pass and whether it changed anything |
| PayloadNormalizer.SkipComment | include/payload_normalizer.hpp:89-102 | where a comment ends, or that it runs to the end of the text |
| PayloadNormalizer.FoldText | include/payload_normalizer.hpp:84-118 | comment stripping, blank collapsing and case folding in one pass |
| PayloadNormalizer.NormalizePayload | include/payload_normalizer.hpp:71-119 | the whole normaliser; stopping early when nothing changed makes no difference |
| NormalizerLaws.PercentDecodes | include/payload_normalizer.hpp:51-59 | % and two hex digits in either case decode to 16 times the first plus the second |
| NormalizerLaws.UnicodeDecodes | include/payload_normalizer.hpp:38-48 | %u or %U, any two characters and two hex digits decode to those two digits' value |
| NormalizerLaws.PlusDecodes | include/payload_normalizer.hpp:61-63 | + decodes to a space |
| NormalizerLaws.OthersCopied | include/payload_normalizer.hpp:50-66 | every other character is copied |
| NormalizerLaws.PiecesUnique | include/payload_normalizer.hpp:88-102 | a text comes apart in one way only into block comments up to the first end after the opener, line comments up to their line end, and characters that open none; the code finds that one |
| NormalizerLaws.PiecesExist | include/payload_normalizer.hpp:88-102 | every text comes apart that way |
| NormalizerLaws.NormalizesExactly | include/payload_normalizer.hpp:71-119 | for every payload: the first 65536 bytes, decoded three times, without those comments, capitals made small and runs of the six blanks made one space |
| PayloadNormalizer.DecodingUndoesALayer | include/payload_normalizer.hpp:33-69 | a pass undoes any percent-encoding, by the table of hex digits, of any subset of characters that includes % and + |
| PayloadNormalizer.EncodingDepthIrrelevant | include/payload_normalizer.hpp:71-119 | text without % and + normalises the same under up to three layers, within the size cap |
| PayloadNormalizer.DeeperLayersRemain | include/payload_normalizer.hpp:77-82 | of a deeper encoding the layers beyond three remain |
| PayloadNormalizer.CaseIrrelevant | include/payload_normalizer.hpp:71-119 | inputs that differ only in ASCII case normalise identically |
| PayloadNormalizer.NormalizedIsCanonical | include/payload_normalizer.hpp:84-118 | every result is lower case with single spaces as its only blanks |
| PayloadNormalizer.FoldRenders | include/payload_normalizer.hpp:88-117 | the pass is the rendering of the text's comments and characters, one by one |
| PayloadNormalizer.CommentFreeExactly | include/payload_normalizer.hpp:71-119 | for every payload, the result holds no comment opener exactly when no stripped comment has kept neighbours that form one |
| PayloadNormalizer.RejoiningTakesAComment | include/payload_normalizer.hpp:89-102 | two kept characters that form an opener always have a stripped comment between them |
| PayloadNormalizer.StrippingCanReopenAComment | include/payload_normalizer.hpp:71-119 | both openers can come out of a payload |
| PayloadNormalizer.HashesKept | include/payload_normalizer.hpp:96-102 | for every payload, the result holds exactly the # characters outside the stripped comments, one or more if and only if there is one; in text without the two openers all are kept |
| PayloadNormalizer.HashCommentStays | include/payload_normalizer.hpp:96-102 | a payload whose # and what follows it both stay |
| TlsInspector.ParseTlsClientHello | include/tls_inspector.hpp:111-201 | on arbitrary bytes the cursor parser terminates within bounds and returns the specification's result, rejections included |
| TlsInspector.ReadCiphers | include/tls_inspector.hpp:135-145 | the cipher loop |
| TlsInspector.ReadExtensions | include/tls_inspector.hpp:158-200 | the extension loop, stopping at an extension that overruns the block |
| TlsInspector.CollectExtension | include/tls_inspector.hpp:172-198 | what one extension adds |
| TlsInspector.CollectGroups | include/tls_inspector.hpp:183-191 | the supported groups loop, bounded by both lengths |
| TlsInspector.CollectFormats | include/tls_inspector.hpp:192-198 | the point formats loop, bounded by both lengths |
| TlsInspector.Collected | include/tls_inspector.hpp:172-198 | a serialised extension is collected as what was serialised |
| TlsInspector.BlockRead | include/tls_inspector.hpp:158-200 | so is a serialised block of any extensions |
| TlsInspector.ParseInverts | include/tls_inspector.hpp:111-201 | for every well-formed hello and whatever follows it: its version, its host name, and its cipher, extension, group and format lists without the masked values |
| TlsInspector.OldHelloIsRecognised | include/tls_inspector.hpp:147-156 | a hello without an extension block is recognised whatever follows it, and reported as having none exactly when at most one byte follows |
| TlsLayout.RecognisedExactly | include/tls_inspector.hpp:111-148 | the payloads taken for a ClientHello are exactly those laid out as one up to the cipher suites, with at least one byte behind them |
| TlsLayout.ParsedExactly | include/tls_inspector.hpp:121-162 | what each of them is parsed to: version, cipher suites two bytes by two, and the extensions in the block behind the compression methods, cut off where the payload ends |
| TlsLayout.BlockGoesOn | include/tls_inspector.hpp:167-200 | a whole extension is collected and the block goes on behind it |
| TlsLayout.BlockEnds | include/tls_inspector.hpp:167-171 | when no whole extension is left, nothing more is collected |
| TlsLayout.GroupsCollectedExactly | include/tls_inspector.hpp:183-191 | the groups of any body, as many as its length byte pair and its size allow |
| TlsLayout.FormatsCollectedExactly | include/tls_inspector.hpp:192-198 | the same for point formats |
| TlsLayout.NameCollectedExactly | include/tls_inspector.hpp:174-182 | the host name, or none if it is longer than its extension |
| TlsLayout.OthersCollectedExactly | include/tls_inspector.hpp:172-198 | all other bodies leave just their kind, unless it is masked |
| TlsLayout.MaskedExactly | include/tls_inspector.hpp:104-107 | a value is left out exactly when both of its bytes end in the hex digit A |
| TlsInspector.ReservedShape | include/tls_inspector.hpp:104-107 | the sixteen values of section 2 of RFC 8701 are exactly the masked ones whose two bytes agree |
| TlsInspector.OnlyReservedDropped | include/tls_inspector.hpp:104-107 | a list loses just its reserved values exactly when every masked value in it is reserved, and 0x0A1A is not |
| Ja3.JoinValues | include/tls_inspector.hpp:204-211 | the joining loop |
| Ja3.Inspect | include/tls_inspector.hpp:111-217 | the text, the digest of it and the host name reported for any payload |
| Ja3.TextIdentifiesShape | include/tls_inspector.hpp:203-213 | different shapes never share a fingerprint text |
| Ja3.FingerprintsAgreeExactly | include/tls_inspector.hpp:111-214 | two hellos get the same text exactly when versions and visible lists agree; nothing else in the payload matters |
| Ja3Fields.FingerprintFields | include/tls_inspector.hpp:203-213 | read back by a reader of its own, the text of any hello has five fields between commas: version, cipher suites, extension kinds, groups and formats, in that order, each list in decimal with dashes |
| Ja3Fields.PrintIsDecimal | include/tls_inspector.hpp:204-213 | numbers are printed in decimal without leading zeros |
| Ja3Fields.TextIsHashed | include/tls_inspector.hpp:214 | the bytes hashed are the characters of the text |
| Md5.Context.Process | include/tls_inspector.hpp:39-73 | the rotating 64-step loop computes the block function of section 3.4 of RFC 1321 |
| Md5.ShufflesAreOperations | include/tls_inspector.hpp:63-71 | rotating variables through one formula equals the standard's operations on registers that stay in place |
| Md5.OrdersAgree | include/tls_inspector.hpp:65-68 | the index formulas are the standard's word orders |
| Md5.FillTail | include/tls_inspector.hpp:82-90 | the tail is 64 or 128 bytes, never overruns its buffer and is the end of the padded message |
| Md5.PaddingIsLeast | include/tls_inspector.hpp:87-88 | the padding is the least that leaves room for just the length |
| Md5.Hash | include/tls_inspector.hpp:75-100 | for every length the loop and the tail equal folding the block function over the message padded as in sections 3.1 and 3.2 of RFC 1321 |
| Md5.Digest | include/tls_inspector.hpp:92-99 | the sixteen bytes low byte first, two hexadecimal digits each |
| Md5.DigestIdentifiesState | include/tls_inspector.hpp:92-99 | a digest names exactly one final state |
| Md5Vector.AbcDigest | include/tls_inspector.hpp:27-102 | the digest of "abc" is that of section A.5 of RFC 1321 |
| BehavioralEncoding.BucketOf | src/behavioral_model.cpp:13-18 | the loop finds the bucket |
| BehavioralEncoding.BucketIsInterval | src/behavioral_model.cpp:11-18 | with ascending bounds the bucket is the one interval that holds the value |
| BehavioralEncoding.EncodeConnection | src/behavioral_model.cpp:32-71 | the encoder's string for the order the sort produced, empty below two flows |
| BehavioralEncoding.EncodingDecodes | src/behavioral_model.cpp:49-69 | two characters per flow, from which its size, duration and gap buckets can be read |
| BehavioralEncoding.EncodedExactly | src/behavioral_model.cpp:49-69 | for any configuration, the letter is 'a' plus size interval times number of durations plus duration interval, and the symbol that of the gap interval |
| BehavioralEncoding.DefaultLetters | include/behavioral_model.hpp:42-49 | the fifteen letters of the default thresholds |
| BehavioralEncoding.DefaultSymbols | include/behavioral_model.hpp:42-49 | and the four symbols |
| BehavioralEncoding.LettersDistinctExactly | src/behavioral_model.cpp:53 | letters tell all bucket pairs apart exactly up to 256 pairs |
| BehavioralEncoding.SymbolsDistinctExactly | src/behavioral_model.cpp:64-66 | symbols tell all gap buckets apart exactly up to five bounds |
| BehavioralEncoding.DefaultsDecode | include/behavioral_model.hpp:42-49 | the default configuration is within both limits |
| BehavioralEncoding.SortsShareStarts | src/behavioral_model.cpp:34-35 | any two sorts of the same flows have the same start times place by place |
| BehavioralEncoding.OrderIrrelevantExactly | src/behavioral_model.cpp:32-71 | the string is the same for every order of the flows exactly when flows that start together share their letter |
| BehavioralEncoding.LettersPrintableExactly | src/behavioral_model.cpp:53 | letters are neither blank nor colon exactly up to 168 pairs |
| MarkovModels.MarkovModel.constructor | include/behavioral_model.hpp:65-66 | an untrained model |
| MarkovModels.MarkovModel.Observe | src/behavioral_model.cpp:73-84 | one string's transitions are added to counts, row totals, alphabet and total |
| MarkovModels.MarkovModel.Train | include/behavioral_model.hpp:78-80 | the same for many strings in turn |
| MarkovModels.TrainingCounts | src/behavioral_model.cpp:73-84 | after any training the counts are the adjacent-pair counts, nothing is stored for unseen pairs, row totals and total agree, and the alphabet is the strings' characters |
| MarkovModels.TrainingOrderIrrelevant | include/behavioral_model.hpp:78-80 | the model does not depend on the order of the strings |
| MarkovModels.SmoothedRowSumsToOne | src/behavioral_model.cpp:86-98 | with k > 0 each row's smoothed probabilities add up to 1 over the alphabet |
| MarkovModels.SmoothedByOccurrences | src/behavioral_model.cpp:86-98 | the probability times (pairs from the first character + k for each character of the alphabet) is the number of times the pair occurs in the strings + k |
| MarkovModels.ScoresAreFinite | src/behavioral_model.cpp:97-99 | every transition, seen or not, has a probability above 0 and at most 1 |
| Decimal.PrintReadsBack | src/behavioral_model.cpp:121-124 | printed numbers read back |
| ModelFile.Serialize | src/behavioral_model.cpp:113-127 | the loops write the file's text for some order of the maps |
| ModelFile.SmallFile | src/behavioral_model.cpp:113-127 | the file of a model trained on one pair, line by line |
| ModelFile.LoadModel | src/behavioral_model.cpp:129-176 | on any text the loading loops end in the specified model and fingerprint, or throw on a bad count |
| ModelFile.LoadTokens | src/behavioral_model.cpp:160-172 | the tokens of one row: skipped without a colon, stored, or thrown at |
| ModelReading.WordRead | src/behavioral_model.cpp:133-172 | an extracted word runs from the first character that is not blank to the next blank |
| ModelReading.CountRead | src/behavioral_model.cpp:164-167 | a count may have blanks and a sign in front and anything behind it, and throws unless it fits 64 bits |
| ModelReading.NoCountRead | src/behavioral_model.cpp:164-167 | it throws without a digit |
| ModelReading.SizeIsRead | src/behavioral_model.cpp:152-159 | a size is read modulo 2^64, and fails when its digits exceed that |
| ModelReading.TokenStored | src/behavioral_model.cpp:161-172 | a token's count, behind its first colon, replaces what was stored for its pair and is added to row total and total; its two characters join the alphabet |
| ModelReading.TokenThrows | src/behavioral_model.cpp:161-167 | a bad count throws |
| ModelReading.TokenSkipped | src/behavioral_model.cpp:162-163 | a token without a colon is passed over |
| ModelReading.FieldRead | src/behavioral_model.cpp:133-151 | a label, k or alphabet line, however it is spaced, sets or adds to that field with its second word |
| ModelReading.ConfigRead | src/behavioral_model.cpp:142-146 | a config line sets the fingerprint to its rest but for one space, and lines with other keys are passed over |
| ModelRoundTrip.FileLoads | src/behavioral_model.cpp:113-176 | what loading a written file gives, cell by cell |
| ModelRoundTrip.ModelRoundTripExactly | src/behavioral_model.cpp:113-176 | loading what was written restores label, k, alphabet, counts, totals and fingerprint of a trained model, whatever order the maps are walked in, exactly when the label has no space, the fingerprint no line end, no character is a space and no pair ends in a colon |
| ModelRoundTrip.FingerprintIsOneLine | src/behavioral_model.cpp:142-146 | a loaded fingerprint never holds a line end, whatever was written |
| ModelRoundTrip.LoadKeepsPlain | src/behavioral_model.cpp:129-176 | from any text at all, loaded labels and characters hold no space |
| ModelRoundTrip.EncodedModelRoundTrip | src/behavioral_model.cpp:32-176 | in particular every model trained on encoded connections comes back, up to 168 letters |
| ModelRoundTrip.ColonThrows | src/behavioral_model.cpp:113-176 | loading the file of a model that observed a pair ending in a colon throws |
| ModelRoundTrip.LabelIsCut | src/behavioral_model.cpp:113-139 | of a label on one line the first word comes back, and all else as it was |
| Calendar.Formula | tools/train_behavioral/train.cpp:63-70 | on valid dates none of the unsigned 32-bit steps wraps and the era division is a floor |
| Calendar.FormulaCounts | tools/train_behavioral/train.cpp:63-70 | the closed form equals counting years and months one at a time, for all years |
| Calendar.EpochIsDayZero | tools/train_behavioral/train.cpp:62-70 | 1970-01-01 is day 0 |
| Calendar.NextDayIsOneMore | tools/train_behavioral/train.cpp:63-70 | the day after any valid date has exactly the next number |
| Calendar.MonthLengths | tools/train_behavioral/train.cpp:63-70 | from the first of a month to the next lie 31, 30, 28 or 29 days, by the rule for every fourth year and the centuries, for all years |
| Calendar.OrderIsCalendarOrder | tools/train_behavioral/train.cpp:63-70 | numbers order dates as the calendar does, and no two dates share one |
| Calendar.EveryNumberIsADate | tools/train_behavioral/train.cpp:63-70 | every number belongs to a date |
| Calendar.SecondsOrderTimes | tools/train_behavioral/train.cpp:73-84 | epoch seconds order valid start times as date and time of day do |
| Calendar.SecondsAreCounted | tools/train_behavioral/train.cpp:73-84 | epoch seconds start at 0 with 1970, grow by 60 with every minute of the clock, across hours and days, and by the seconds within one |

## Left out

- Packet capture, link and IP header extraction, IPS blocking, callbacks, logging, statistics for the dashboard: input and output.
- Alerts themselves: an evasion is reported as a result; its deduplication and the alert's fields are not modelled.
- Source, beacon, brute-force and volumetric anomaly tracking, BitTorrent and behavioural tagging of flows: heuristics with no specification beyond the code.
- The filter's detectors: each is an uninterpreted finding of the flow; that Heartbleed is tested twice with the same answer is assumed by having one finding.
- The language model, severity tables, false-positive lists, proxy and threat-feed look-ups, user interfaces.
- Wall-clock time and sleeps: sweeps and timeouts take the time as an argument; the controller's two-second wait is not modelled.
- Draining of queued flows at shutdown: workers stop on a flag even with items queued, so it is not claimed.
- Sizes, byte and packet totals and counters are unbounded; 32-bit sequence numbers, squares, calendar steps and digest words wrap as in the code.
- Floating-point rounding and logarithms; NaN bucket values.
- Hash collisions of dedup keys: equal keys mean equal inputs to the hash.
- TcpReassembling.TcpReassembler.UpdateConnection: works on a copy of the table entry that is put back, because the map holds values; that the code updates the entry through a reference is not captured.
- TcpCompleteness.CompletenessExactly: one fixed segmentation, captured whole, after a SYN and with no sweep in between; a segment that starts before the expected number and ends after it is dropped whole by the code, so re-segmented retransmissions need not complete (`LateSegmentDropped`).
- TcpSoundness.ReassemblyIsSound: streams below 2^31 bytes, as far as the signed comparison reaches; sweeps end a connection long before.
- PriorityQueue.ThreadSafeQueue.Push: capacity at least 1, as the configuration enforces.
- QueueConcurrency.NextKeepsWakeups: threads and items are told apart by number; memory ordering of the relaxed counter is not modelled.
- PipelineLaws.PipelineConserves: one thread per stage, as the code starts; that the filter and LLM threads stop on a flag during the shutdown is not modelled, so they may go on running in the model.
- PipelineLaws.DeclaredMeansDoneExactly: each depth is read in one step, as under the queue's lock; the statistics callback between reading and deciding has no effect in the model.
- TlsInspector.ParseInverts: the server name extension carries one host entry, as the parser reads only the first; fragmented handshakes are not modelled.
- AlertObject.AlertIsLossless: the score is taken as printed, a decimal number without exponent; how a float is printed with six decimals is not modelled.
- PipelineLaws.WorkersCanDrain: says that a draining schedule always exists, not that the scheduler picks it.
- Md5.Hash: the 64 sine-derived constants are taken from the code; that they are the standard's is shown by the known answer for "abc" only.
- BehavioralEncoding.EncodeConnection: the sort is an argument, any permutation ordered by start time.
- ModelFile.Serialize: the maps are walked in any order, not only ascending; the printed k is a word that the reader turns back into k.
- ModelFile.LoadModel: counts are read as 64-bit numbers, while `std::stol` returns a `long`, which has 32 bits on Windows builds and would throw for larger counts; the stream is taken as its lines; the configuration fingerprint is an opaque text.
- Calendar.Formula: years are unbounded; reading the six fields from text is not modelled.
- MarkovModels.ScoresAreFinite: the average of logarithms that a score is made of is not modelled.
