# Verified model of the BBJ Sense gateway

This project models the parts of the gateway whose correctness depends on whole runs: the
store-and-forward queue and its flush thread, the locks and serial handles of the poll and command
threads, the edge alarm evaluator, the register codec and the two small text parsers beside it, the
local historian with its text timestamps, poll scheduling, and the command gate. Verify everything
with `dafny verify dfyconfig.toml`.

## How the model is built

Code that updates a table, a dictionary or a list in place is a class or a method with loops
(`OfflineBuffer.Buffer`, `AlarmEvaluator.Evaluator`, `Historian.History`, `PollSchedule.Poller`,
`TelemetryFlush.FlushPendingBatch`, `CommandGate.ExecuteCommand`, `Overrides.ParseWordOrderOverrides`,
`RegisterCodec.PrepareRegisters`). Each is proved against a specification on values, and the laws are
lemmas about that specification. Concurrency is modelled as step systems: a state, the steps that may
happen in it, and theorems over all finite step sequences.

| file | what it holds |
|---|---|
| `Common.dfy` | Option, Result and Python floats as exact numbers with infinities and not-a-number |
| `OfflineBuffer.dfy` | the `telemetry_queue` table, one method per locked call |
| `TelemetryFlush.dfy` | one flush as the two loops around one POST, against a row-by-row description of its effect |
| `FlushProtocol.dfy` | the queue as a step system: enqueues, every single call of the flush thread, cleanup, stray failure marks and crashes in any order; its invariant |
| `FlushGuarantees.dfy` | order per pair, at-least-once, no loss, conservation, ids |
| `FlushDelivery.dfy` | what the cloud has taken, seen by the gateway or not: no gaps, and how often anything is taken twice |
| `FlushProgress.dfy` | how fast the queue drains, exactly when it does, when it is stuck for good |
| `FlushRefinement.dfy` | the step system left alone does what the flush method promises |
| `FlushDrain.dfy` | the drain laws over runs, with cleanup and stray failure marks beside the flush thread |
| `FlushFailures.dfy` | the drain rate when POSTs stay unanswered and threads or the process crash |
| `StuckQueue.dfy` | a run into the stuck region, and exactly when a state is stuck |
| `SerialBus.dfy` | threads as program counters over device locks, the bus lock and the leaf locks; who takes which in what order; deadlock freedom |
| `SerialHandles.dfy` | who is responsible for each open serial handle |
| `SerialOverlap.dfy` | exactly which handles are open, and so exactly when a second one is opened, noticed or not |
| `AlarmEvaluator.dfy`, `AlarmRuns.dfy` | the evaluator and its runs |
| `AlarmFlapping.dfy` | exactly when a rule changes more often than from current snapshots |
| `Text.dfy`, `WordOrder.dfy`, `Overrides.dfy` | the Python string operations used, the word-order classifier, the override parser |
| `RegisterCodec.dfy` | byte and word swaps, integers and float bit patterns in registers |
| `IsoTime.dfy`, `Historian.dfy` | the calendar, `isoformat()` texts, and the history table that compares them |
| `PollSchedule.dfy` | the tag loop and runs of passes |
| `CommandGate.dfy` | the search for a writable tag, one command, one fetched batch of commands |
| `StoreAgreement.dfy` | one reading in three stores while everything else goes on |
| `SampledReadings.dfy` | the save path and the evaluator together: what a pass samples |

Names like `marked`, `posts`, `samples` or `attempts` in a state are histories: they record what
happened and no step reads them. What the outside world does is an argument: replies of the cloud,
clock readings, message ids, outcomes of Modbus calls, and how long a close takes.

## What the proofs found

- **A full batch of rejected messages blocks the queue for good.** Rejected messages stay pending and
  selection is oldest first, so once 500 rejected messages are the oldest, nothing is ever sent again
  while the cloud goes on rejecting those pairs (`FlushProgress.StuckForever`). With nothing new
  enqueued, everything deliverable is sent in the end if and only if fewer than 500 blocked messages
  are older than the newest deliverable one (`FlushProgress.DrainsExactlyWhen`, over runs
  `FlushDrain.EverythingIsSentExactlyWhen`). A state at rest is stuck, whatever is enqueued, if and only
  if the 500 oldest waiting messages are blocked (`StuckQueue.StuckExactlyWhen`), and
  `StuckQueue.QueueGetsStuck` reaches such a state: 500 readings of a tag the cloud does not know and
  one of a tag it knows.
- **A command can overlap a poll on the serial port without any warning.** `execute_command` closes its
  client after releasing the bus lock. The docstring of `close_client_with_timeout`
  (dynamic_modbus_poller.py:519-530) describes overlap only after a close that timed out, and the check
  made after taking the bus lock sees only abandoned closes. Exactly: a session that is about to open
  finds a handle open if and only if a command that connected is still in its close window or the
  abandoned close of a connected client is still at work (`SerialOverlap.HandleAlreadyOpenExactlyWhen`),
  its own open leaves two handles in just that case (`SerialOverlap.OpensSecondHandleExactlyWhen`), and
  when the check was silent every handle met is that of a command that was in its close window at the
  check (`SerialOverlap.SilentCheckMissesCommandsOnly`). `SerialHandles.CommandOverlapsPoll` is a run
  with two open handles and no abandoned close at all.
- **An alarm can open and close after the last reading.** A pass samples the copies it took, so a pass
  that began before the last reading or rule change can still change the flag, and the next pass change
  it back. `AlarmFlapping.ValueRuleChangesOnceExactlyWhen` and
  `AlarmFlapping.LossRuleClosesThenOpensExactlyWhen` say exactly when;
  `AlarmFlapping.StaleSnapshotOpensAndCloses` and `AlarmFlapping.StaleSnapshotChangesThrice` are such
  runs.
- **Not every command is acknowledged.** An infinite `device_id` or `tag_id`, an unreadable id in the
  configuration before the match, and a device without an id addressed as -1 each raise out of
  `execute_command`; the command gets no acknowledgement and the rest of its batch is dropped.
  `CommandGate.AnsweredExactlyOnce` and `CommandGate.AcknowledgedUpToFirstRaise` give the exact
  conditions, `CommandGate.UnreadableIdSilencesAll` and `CommandGate.MissingIdIsUnanswered` the two
  configuration cases.
- The repository's README.md (lines 18-19) describes buffering only after a failed POST and a retry
  every 10 seconds. The code queues every reading and flushes every 5 seconds
  (dynamic_modbus_poller.py:63, dynamic_modbus_poller.py:264-284). The model follows the code.
- docs/gateway-command-contract.md:76 asks that a command's type match the tag's declared type. The code
  does not enforce this and the model does not claim it.

## Model

| member | source | states |
|---|---|---|
| OfflineBuffer.Buffer.EnqueueTelemetry | offline_buffer.py:146-225 | A reading becomes one pending row with the next id, behind all others; an id beyond 64 bits, a NaN value or a known message id stores nothing |
| OfflineBuffer.Buffer.GetPendingMessages | offline_buffer.py:228-276 | The limit is clamped to 1..1000 and the answer is that many of the oldest pending rows |
| OfflineBuffer.Buffer.MarkMessageSent | offline_buffer.py:279-304 | Exactly the rows of that message turn sent with their error cleared; no other row changes |
| OfflineBuffer.Buffer.MarkMessageFailed | offline_buffer.py:307-332 | One more attempt and the first 1000 characters of the error are recorded; the status never changes, so sent stays sent |
| OfflineBuffer.Buffer.CountPendingMessages | offline_buffer.py:335-347 | The number of positions with a pending row, all less the sent ones |
| OfflineBuffer.Buffer.CountAllMessages | offline_buffer.py:350-361 | The number of rows, pending positions plus sent ones |
| OfflineBuffer.Buffer.DeleteSentMessages | offline_buffer.py:364-400 | Removes exactly the sent rows that have at least k newer sent rows, returns max(0, sent - k), keeps every pending row |
| OfflineBuffer.SelectIsOldestFirst | offline_buffer.py:228-260 | A selection is in id order and passes over no older pending row |
| OfflineBuffer.CountsArePositions | offline_buffer.py:335-361 | The pending and the sent count of any prefix of the table are the numbers of its positions with that status |
| OfflineBuffer.CleanupRemovesOldSent | offline_buffer.py:377-395 | The id list of the newest k sent rows singles out exactly the sent rows with fewer than k newer ones |
| OfflineBuffer.CleanupCounts | offline_buffer.py:372-400 | Cleanup leaves the pending rows as they are and removes max(0, sent - max(0, k)) rows |
| OfflineBuffer.CleanupWellFormed | offline_buffer.py:104-105 | Cleanup keeps ids ascending and below the AUTOINCREMENT mark, and message ids unique |
| TelemetryFlush.CheckAll | dynamic_modbus_poller.py:321-360 | The loop before the POST fails exactly the unreadable messages and keeps the readable ones in order |
| TelemetryFlush.SettleAll | dynamic_modbus_poller.py:375-397 | The loop after the POST settles each message by the verdict on its own pair |
| TelemetryFlush.FlushPendingBatch | dynamic_modbus_poller.py:312-403 | At most one POST, with one item for each readable row among the 500 oldest pending ones, in order; such a row ends pending with the rejection text if and only if some entry of the answer carries exactly its device and tag id, and sent if none does; an unreadable one, a failed POST and an abort as stated row by row; every other row is untouched |
| TelemetryFlush.SelectedIsInBatch | dynamic_modbus_poller.py:314-316 | A row is selected exactly when it is pending and fewer than 500 pending rows are older |
| TelemetryFlush.RejectedPairsMembers | dynamic_modbus_poller.py:382-386 | A pair counts as rejected exactly when some entry, anywhere in the list, carries exactly its two ids |
| TelemetryFlush.ItemsCarryBatch | dynamic_modbus_poller.py:321-360 | The items posted are the payload fields of the readable rows among the 500 oldest pending ones, one each in row order, an empty quality as good |
| TelemetryFlush.FlushedMarksByReply | dynamic_modbus_poller.py:312-397 | The row-by-row effect in terms of the entries of the reply and the texts recorded, with 500 as the number of positions |
| FlushProtocol.StepKeepsInv | dynamic_modbus_poller.py:312-397 | Every single step of any thread keeps the queue invariant, wherever the flush thread is |
| FlushProtocol.RunKeepsInv | dynamic_modbus_poller.py:312-397 | So does every run |
| FlushGuarantees.SentIsPrefixOfEnqueued | dynamic_modbus_poller.py:312-397 | In every reachable state, mid-flush and after crashes, the messages of a pair marked sent are the first n enqueued for it |
| FlushDelivery.CloudTakesPrefix | dynamic_modbus_poller.py:365-397 | What the cloud has taken of a pair - lost replies and crashes after it took a batch included - is a prefix of what was enqueued; so is what it was seen to accept, and both cover what is marked sent |
| FlushDelivery.TakenMembers | dynamic_modbus_poller.py:365-397 | A message counts as taken when some POST of it reached the cloud, answer seen or not, and no entry of the list carries both its ids; as accepted when that POST was answered |
| FlushDelivery.RepeatsAreBounded | dynamic_modbus_poller.py:365-397 | The cloud takes again at most 500 messages for each crash and each batch taken without its answer arriving; it is seen to accept again at most 500 for each crash |
| FlushDelivery.UninterruptedIsExactlyOnce | dynamic_modbus_poller.py:365-397 | Without crashes no message is accepted by two POSTs, and without lost replies none is taken by two |
| FlushGuarantees.MarkedOnlyAfterDelivery | dynamic_modbus_poller.py:365-397 | A message is marked sent only after a POST that carried its own device, tag, value and quality was answered without any entry of both its ids |
| FlushGuarantees.NothingIsLost | offline_buffer.py:279-330 | Every stored message is a pending row, a sent row, or was deleted after being marked sent; the row still holds the message |
| FlushGuarantees.Conservation | offline_buffer.py:335-400 | Rows = enqueued - deleted, pending = enqueued - ever marked sent, and no more is deleted than was marked |
| FlushGuarantees.StepAddsFreshIdOnly | offline_buffer.py:104 | A row only ever appears under the id one above every id handed out before |
| FlushGuarantees.IdsAreNeverReused | offline_buffer.py:104 | Over any continuation an id that left the table never returns, ids keep their messages, and sent is absorbing |
| FlushGuarantees.StoredPayloadsAreReadable | offline_buffer.py:165-177 | Whatever was stored can be read back by the flush with the same fields, so its invalid-payload branches are never taken |
| FlushProgress.FlushOnceIsFlush | dynamic_modbus_poller.py:312-397 | On the waiting messages an answered flush keeps the blocked ones of the batch and everything beyond it |
| FlushProgress.FlushSendsAtLeast | dynamic_modbus_poller.py:64 | With b < 500 blocked messages a flush sends at least min(D, 500 - b) of D deliverable ones and leaves b blocked |
| FlushProgress.FlushSendsExactly | dynamic_modbus_poller.py:64 | The bound is tight: it is met with equality whenever the blocked messages are the oldest |
| FlushProgress.DrainRate | dynamic_modbus_poller.py:64 | After n flushes at most D - n(500 - b) deliverable messages are left |
| FlushProgress.DrainsWithin | dynamic_modbus_poller.py:312-397 | All D deliverable messages are sent within ceil(D / (500 - b)) flushes |
| FlushProgress.DrainsExactlyWhen | dynamic_modbus_poller.py:312-397 | With a fixed rejected set everything deliverable is sent in the end if and only if fewer than 500 blocked messages are older than the newest deliverable one |
| FlushProgress.StuckForever | dynamic_modbus_poller.py:314-397 | Once the 500 oldest waiting messages are of rejected pairs, no continuation under any interleaving and any enqueues marks anything sent while every posted pair of them is rejected |
| FlushRefinement.UninterruptedFlush | dynamic_modbus_poller.py:312-397 | From any reachable state at rest the flush thread's own steps reach the table the flush method promises, every row marked by the entries of the reply |
| FlushRefinement.RepeatedFlushes | dynamic_modbus_poller.py:1070-1108 | The flush thread alone, given the same reply each time, reaches the queue that n flushes leave; the next rows give the law for runs |
| FlushDrain.RunStands | dynamic_modbus_poller.py:1070-1108 | In every run without enqueues and crashes whose replies judge the posted pairs by one set, with cleanup and stray failure marks anywhere, the flush in progress began with exactly what the completed flushes leave of the queue |
| FlushDrain.DrainRateOverRuns | dynamic_modbus_poller.py:1070-1108 | In every such run from a state at rest at most D - n(500 - b) deliverable messages are waiting after n completed flushes |
| FlushDrain.NeverDrained | dynamic_modbus_poller.py:314-397 | Behind 500 blocked messages something deliverable is waiting in every state of every such run |
| FlushDrain.EverythingIsSentExactlyWhen | dynamic_modbus_poller.py:312-397 | Some number of flushes drains every such run if and only if fewer than 500 blocked messages are older than the newest deliverable one |
| FlushFailures.DrainRateDespiteFailures | dynamic_modbus_poller.py:365-397 | With unanswered POSTs and crashes anywhere, after n flushes that settled their batch at most D - n(500 - b) deliverable messages are waiting |
| StuckQueue.StuckExactlyWhen | dynamic_modbus_poller.py:314-397 | At rest no continuation marks anything sent, whatever is enqueued, if and only if the 500 oldest waiting messages are blocked, as long as some storable pair is not rejected |
| StuckQueue.QueueGetsStuck | dynamic_modbus_poller.py:312-397 | 500 readings of a rejected pair and one of another reach a state that no number of flushes drains and from which nothing more is ever marked sent |
| SerialBus.StepKeepsThreads | dynamic_modbus_poller.py:700-842 | Every step keeps the lock table equal to what the threads' positions hold |
| SerialBus.RunKeepsThreads | dynamic_modbus_poller.py:700-842 | So does every run |
| SerialBus.OneThreadOnTheWire | dynamic_modbus_poller.py:747-833 | In every reachable state at most one thread is connecting, reading or writing on the serial bus |
| SerialBus.LockOrder | dynamic_modbus_poller.py:938-958 | Whatever a thread waits for ranks above all it holds: device, then bus, then one leaf lock |
| SerialBus.LockDiscipline | dynamic_modbus_poller.py:707-842 | In every reachable state only a command waits for a device, holding nothing; only serial sessions wait for or hold the bus, each with its own device held; of two clients being closed only the poller's is under the bus |
| SerialBus.PollSessionLocks | dynamic_modbus_poller.py:700-842 | The locks of an undisturbed poll of n tags in order: device, bus, the pending list, for each tag the queue, history and readings locks one after the other, and bus and device dropped after the close |
| SerialBus.CommandSessionLocks | dynamic_modbus_poller.py:936-1002 | The locks of an undisturbed command in order: device, bus, the pending list, bus dropped before the close, whatever the outcome of its checks |
| SerialBus.NoDeadlock | dynamic_modbus_poller.py:707-842 | In every reachable state where a lock is held, a thread holding one can step, for any number of threads and devices |
| SerialBus.LocksCanAlwaysBeFreed | dynamic_modbus_poller.py:831-842 | From every reachable state the threads can run on until every lock is free, even if no close ever finishes |
| SerialBus.EveryScheduleFreesTheLocks | dynamic_modbus_poller.py:831-842 | Whatever the calls return and however threads and close threads take turns, a run that starts no new session is bounded and can go on until all threads rest and every lock is free |
| SerialHandles.RunKeepsHandles | dynamic_modbus_poller.py:480-549 | Every run keeps the handle accounting |
| SerialHandles.EveryHandleHasOneKeeper | dynamic_modbus_poller.py:505-549 | Every open serial handle belongs to exactly one of the bus holder, a command in its close window, or a live abandoned close thread |
| SerialHandles.OneHandleUnderBus | dynamic_modbus_poller.py:753-833 | At most one open handle is kept under the bus lock |
| SerialHandles.CalmRunsHaveOneHandle | dynamic_modbus_poller.py:831-833 | Without commands and abandoned closes at most one handle is open, and only while the bus lock is held |
| SerialOverlap.OpenExactlyWhen | dynamic_modbus_poller.py:505-549 | A handle is open if and only if its client connected and a session has still to close it or its abandoned close thread is alive |
| SerialOverlap.OpenHandlesAreFew | dynamic_modbus_poller.py:480-549 | At most one handle is open for the bus holder, one for each command in its close window and one for each live abandoned close |
| SerialOverlap.HandleAlreadyOpenExactlyWhen | dynamic_modbus_poller.py:753-760 | A bus holder that has not opened yet finds a handle open if and only if a connected command's unfinished close window or a connected client's live abandoned close keeps one; after a silent check, if and only if a command's close window does |
| SerialOverlap.OpensSecondHandleExactlyWhen | dynamic_modbus_poller.py:762-772 | Opening leaves two or more handles open exactly in that case |
| SerialOverlap.SilentCheckMissesCommandsOnly | dynamic_modbus_poller.py:755-772 | Up to the point of opening, every handle met after a silent check is that of a command that had connected and not finished closing at the check |
| SerialHandles.CommandOverlapsPoll | dynamic_modbus_poller.py:1000-1002 | A command and a poll reach two open handles with no abandoned close |
| AlarmEvaluator.Evaluator.SetCurrentAlarmRules | edge_alarm_evaluator.py:41-48 | The rules are replaced, by none when none are given; readings, flags and events stay |
| AlarmEvaluator.Evaluator.RecordLatestReading | edge_alarm_evaluator.py:51-66 | Exactly the reading of that key changes |
| AlarmEvaluator.Evaluator.EvaluateAllRules | edge_alarm_evaluator.py:138-193 | One pass over snapshots of rules and readings leaves the flags and events of its rules taken in order; a rule whose id is its own opens exactly when it was inactive and its type's comparison of the reading with the threshold holds, closes exactly when it was active and it does not, and no other id is touched |
| AlarmEvaluator.PassTreatsEachRule | edge_alarm_evaluator.py:69-193 | The same law of a whole pass: at or above for high types, at or below for low types, 1 and 0 for the digital types, age in seconds for communication_loss, never for any other type or without its threshold, infinite and not-a-number values included |
| AlarmRuns.EventsAreChangePoints | edge_alarm_evaluator.py:138-193 | Under any interleaving of refreshes, readings and passes the events of a rule id are the change points of its sampled condition from false |
| AlarmRuns.OpensAndClosesAlternate | edge_alarm_evaluator.py:160-193 | Opens and closes alternate starting with an open, and their difference is the active flag |
| AlarmRuns.UnsampledRulesKeepState | edge_alarm_evaluator.py:148-152 | A step that does not sample a rule - absent, or without a reading - leaves its flag and events alone |
| AlarmRuns.ValueRulesDoNotFlap | edge_alarm_evaluator.py:86-96 | With the rule unchanged and no new reading a value-based rule adds at most one event over any passes, provided a pass already in progress has no older snapshot of the two left to sample |
| AlarmRuns.LossRulesDoNotFlap | edge_alarm_evaluator.py:98-106 | Likewise, with a clock that never goes back, a communication_loss rule adds at most a close followed by an open |
| AlarmFlapping.ValueRuleChangesOnceExactlyWhen | edge_alarm_evaluator.py:138-193 | Whatever pass is in progress on whatever snapshots, with unique rule ids, every quiet run adds at most one event to a value-based rule if and only if the older snapshot cannot give a sample that differs from the flag, or the current reading differs from it too |
| AlarmFlapping.StaleValueRulesChangeTwice | edge_alarm_evaluator.py:140-158 | It adds two at most: one from the older snapshot, one from the current reading |
| AlarmFlapping.LossRuleClosesThenOpensExactlyWhen | edge_alarm_evaluator.py:98-106 | Likewise a communication_loss rule adds at most a close followed by an open if and only if it is active, or the older snapshot cannot open it, or the current reading is too old by the time it first can |
| AlarmFlapping.LossRuleChangesThriceExactlyWhen | edge_alarm_evaluator.py:98-106 | Three events are reached if and only if that fails and the current reading can age past the threshold |
| AlarmFlapping.StaleLossRulesChangeThrice | edge_alarm_evaluator.py:140-158 | It never adds more than one event from the older snapshot before a close and an open |
| AlarmFlapping.FirstTrueIsFirst | edge_alarm_evaluator.py:86-106 | A condition holds of a reading exactly from its first true time on, worked out from the threshold in seconds |
| AlarmFlapping.StaleSnapshotOpensAndCloses | edge_alarm_evaluator.py:140-193 | Two is reached from the start: for any value-based rule, a reading on which it is true and then one on which it is false give an open and a close after the last reading |
| AlarmFlapping.StaleSnapshotChangesThrice | edge_alarm_evaluator.py:140-193 | Three are reached from the start: for any communication_loss rule, a reading already too old and then a fresh one give open, close and open after the last reading |
| AlarmRuns.UninterruptedPass | edge_alarm_evaluator.py:138-193 | A pass left alone in the step system has the effect of the method |
| WordOrder.NormalizeIsIdempotent | dynamic_modbus_poller.py:144-153 | Normalising twice is normalising once, for every string and every lower-casing with the laws of `str.lower` |
| WordOrder.NormalFormIsTokens | dynamic_modbus_poller.py:145-152 | Two spellings have one normal form exactly when their lower-cased token lists are equal |
| WordOrder.TokensOfJoin | dynamic_modbus_poller.py:145-152 | Splitting the joined tokens restores them |
| WordOrder.RespacingKeepsClass | dynamic_modbus_poller.py:136-153 | Any respacing, re-separation or letter case of the same words has the normal form of the lower-cased words joined by single spaces |
| WordOrder.RespacedAlike | dynamic_modbus_poller.py:136-153 | Two spellings of the same words, however separated, are classified alike |
| WordOrder.LowerIsLowering | dynamic_modbus_poller.py:147 | Lower-casing A to Z has those laws |
| WordOrder.SwappedTokenLists | dynamic_modbus_poller.py:138-141 | Exactly nine token lists have a normal form that means low word first |
| WordOrder.KnownWordOrders | dynamic_modbus_poller.py:136-153 | The nine aliases mean low word first; no order, the empty one, normal, big, abcd and big word do not |
| RegisterCodec.SwapBytesInWords | dynamic_modbus_poller.py:124-133 | Each register's two bytes are exchanged, whatever is above 16 bits is dropped |
| RegisterCodec.PrepareRegisters | dynamic_modbus_poller.py:156-169 | The two optional swaps, word order first |
| RegisterCodec.PreparedIsInvolution | dynamic_modbus_poller.py:156-169 | The two swaps commute and preparing twice gives the registers back, for any length |
| RegisterCodec.BothSwapsReverseBytes | dynamic_modbus_poller.py:124-176 | Both swaps together reverse the byte string |
| RegisterCodec.DecodeAfterEncode | dynamic_modbus_poller.py:179-225 | Decoding undoes encoding for every type, value in range and order |
| RegisterCodec.EncodeAfterDecode | dynamic_modbus_poller.py:179-225 | Encoding undoes decoding for every register list of the right width |
| RegisterCodec.DecodeUsesWindowOnly | dynamic_modbus_poller.py:156-223 | A longer read decodes as its first k registers do, its last k when words are swapped |
| RegisterCodec.DecodeFailsExactlyWhen | dynamic_modbus_poller.py:194-225 | Decoding fails exactly on unknown types and on reads shorter than the type |
| RegisterCodec.OneRegister | dynamic_modbus_poller.py:205-213 | One register of a type given by name is its value, 65536 less from 32768 on for int16, its bytes exchanged for little or swapped |
| RegisterCodec.TwoRegisters | dynamic_modbus_poller.py:195-223 | Two registers of a type given by name are high word times 65536 plus low word, as float bits, unsigned or two's complement, for every byte order, every named word order and none |
| RegisterCodec.FourRegisters | dynamic_modbus_poller.py:200-203 | Four registers of a double are its bits, highest word first unless reversed |
| RegisterCodec.FailsByName | dynamic_modbus_poller.py:194-225 | By the fifteen type names, in any letter case and spacing: how many registers each needs, and that no other text is a type |
| Overrides.ParseWordOrderOverrides | settings.py:23-37 | The loop and the final filter compute the map the next three rows describe |
| Overrides.ParsedIsLastEntry | settings.py:28-37 | The override of k is that of the last entry whose key parses to k, present exactly when it is not empty |
| Overrides.ParseAfterPrintMap | settings.py:23-37 | Printing any map of non-empty, trimmed, comma-free orders and parsing it gives the map back, colons in the orders included |
| Overrides.MalformedEntriesAreIgnored | settings.py:30-35 | Leaving out the malformed entries changes nothing |
| Overrides.OverrideIsTrimmed | settings.py:28-37 | An override is the text behind the first colon of its entry without the spaces around it, trimmed and not empty |
| Overrides.NumeralsParse | settings.py:31-33 | Digits with single underscores between them, at most 4300, with any sign and any spaces around them, read as their number |
| Overrides.OnlyNumeralsParse | settings.py:31-33 | Of ASCII texts only those are read as a key |
| IsoTime.IsoOrderIsTimeOrder | local_historian.py:37-38 | For all UTC datetimes text order of isoformat() is time order although its length varies |
| IsoTime.IsoNamesInstant | local_historian.py:37-38 | Equal texts, equal instants and equal datetimes are the same thing |
| IsoTime.MonthTable | local_historian.py:159-162 | The calendar the days are counted in: length of and days before each month |
| IsoTime.IsoReadsBack | local_historian.py:37-38 | The text is YYYY-MM-DDThh:mm:ss+00:00, with six fractional digits before the offset exactly when there are microseconds, and every field reads back as its number |
| IsoTime.FractionOrder | local_historian.py:37-38 | Fractions compare as numbers because '+' sorts before '.' where the fraction is missing |
| IsoTime.MinusDaysIsExact | local_historian.py:159-162 | Subtracting days is exact on the time line and overflows exactly at the start of the calendar |
| Historian.TextOrderIsInstantOrder | local_historian.py:164-169 | Comparing two timestamp texts compares their instants |
| Historian.KeepFromKeepsSince | local_historian.py:164-169 | Deleting by text comparison leaves exactly what deleting by instants would |
| Historian.CreatedSinceMembers | local_historian.py:164-169 | A row is removed exactly when it was created before the cutoff instant |
| Historian.RecentIsChronological | local_historian.py:191-205 | A query since an instant gives exactly the pair's rows from that instant on, oldest first |
| Historian.History.RecordReading | local_historian.py:121-152 | One row with the next id behind all others, or nothing for an id beyond 64 bits or a NaN value |
| Historian.History.PruneOldHistory | local_historian.py:155-173 | Removes exactly the rows created more than thirty days before now and returns their number |
| Historian.History.GetRecentReadings | local_historian.py:176-205 | The pair's rows not before the given text, each as often as it occurs, in the order of their texts whatever these are; an id beyond 64 bits is an error |
| PollSchedule.Poller.RunTagLoop | dynamic_modbus_poller.py:779-828 | The loop decides tag by tag up to the first that raises; an enabled tag is tried exactly when now minus its last attempt - earlier in the list, as recorded, or 0.0 - is at least its configured interval, 2.0 when none is set, and so for the special values; the times and one attempt per tried tag, with its own interval, are recorded whether or not the read works |
| PollSchedule.SuccessiveAttemptsAreSpaced | dynamic_modbus_poller.py:788-828 | In every run successive attempts on a tag are at least the interval configured at the later one apart, failed reads and duplicates included |
| PollSchedule.AttemptsAreConfigured | dynamic_modbus_poller.py:782-828 | Every recorded attempt is of an enabled tag of one of the passes, at its time and with the interval that tag had there |
| PollSchedule.AllAttemptsAreSpaced | dynamic_modbus_poller.py:788-828 | With a clock that never goes back so are any two attempts |
| PollSchedule.AttemptsTakeTime | dynamic_modbus_poller.py:794-806 | m further attempts take at least m times the least configured interval |
| PollSchedule.SkippedOnlyWhenTooSoon | dynamic_modbus_poller.py:799-806 | An enabled tag a pass reaches is tried exactly when its configured interval allows it so long after its last attempt, 0.0 if none, and skipped otherwise |
| CommandGate.FindWritableTag | gateway_commands.py:72-100 | The nested search with early returns answers from the first position where an id is unreadable or both ids are the numbers asked for, and finds nothing when there is none |
| CommandGate.SearchAnswersFirstStop | gateway_commands.py:88-100 | The search answers from the first position where an id is unreadable or both ids match |
| CommandGate.WriteCommandValue | dynamic_modbus_poller.py:844-879 | Sends exactly the request the command stands for, if any, and succeeds exactly when it is answered without error |
| CommandGate.ExecuteCommand | dynamic_modbus_poller.py:882-1013 | The effects, in order, of one command; a write is among them exactly when permitted on a link that works, and it raises exactly when unanswerable |
| CommandGate.WritesOnlyWhatIsPermitted | dynamic_modbus_poller.py:844-987 | At most one write, sent exactly when the first match of both ids is marked writable with true, the type is valid, the target is no input register, and the link is up; a falsy slave id or function code takes its default, the text "0" does not |
| CommandGate.WriteGoesToNamedTag | gateway_commands.py:88-100 | A write goes to a tag whose own id is the number asked for, on such a device, marked writable, and no earlier tag has both ids |
| CommandGate.PermittedTrace | dynamic_modbus_poller.py:961-1013 | The effects of a permitted command in order: a failure acknowledged before the client is closed, success after it |
| CommandGate.RefusedTrace | dynamic_modbus_poller.py:890-1002 | Any other answerable command is only acknowledged as failed |
| CommandGate.AnsweredExactlyOnce | dynamic_modbus_poller.py:890-1013 | Exactly one acknowledgement unless the command is unanswerable, and then none; success exactly when a write was sent and answered without error |
| CommandGate.ClientIsClosedAfterUse | dynamic_modbus_poller.py:967-1002 | An opened client is closed exactly once, after any write |
| CommandGate.UnreadableIdSilencesAll | gateway_commands.py:88-90 | An unreadable id on the first device leaves every complete command unanswered |
| CommandGate.MissingIdIsUnanswered | dynamic_modbus_poller.py:932 | A writable tag of a device without an id, addressed as -1, raises instead of answering |
| CommandGate.RunPendingCommands | dynamic_modbus_poller.py:1184-1202 | The commands of a batch are executed in turn until one raises |
| CommandGate.AcknowledgedUpToFirstRaise | dynamic_modbus_poller.py:1184-1202 | Command k of a batch is acknowledged exactly once when no command up to it is unanswerable, and never otherwise |
| StoreAgreement.QueueRunsTheProtocol | dynamic_modbus_poller.py:258-309 | Beside saves, history writes, pruning and exceptions of the flush thread the queue still goes through a run of the queue protocol, so all its guarantees hold |
| StoreAgreement.StepKeepsInv | dynamic_modbus_poller.py:258-309 | Every step keeps the map and the history in agreement with the enqueue log |
| StoreAgreement.LatestIsLastEnqueued | dynamic_modbus_poller.py:276-309 | With no save in flight the latest-readings map holds, for every key, exactly the last reading this process enqueued |
| StoreAgreement.HistoryIsSubsequence | local_historian.py:121-173 | The history is a subsequence of the enqueue log despite failures, crashes and pruning |
| StoreAgreement.UndisturbedHistoryMissesNothing | dynamic_modbus_poller.py:286-302 | Without failures, pruning and crashes it has one row for every enqueued message |
| SampledReadings.PassSamplesLastEnqueued | edge_alarm_evaluator.py:143-158 | A pass that takes its readings while no save is in flight samples every rule, for as long as it lasts, on the value last enqueued of its key by this process, and no rule of a key with none |

## Left out

- The queue columns `created_at`, `last_attempt_at` and `sent_at`: no branch reads them.
- The JSON text of a payload: it is kept as what `json.loads` and the field conversions make of it, and the text of a conversion error is dropped from the recorded failure.
- Message ids: numbers instead of UUID texts; that a fresh one has never been used before is assumed of every enqueue.
- SQLite itself (files, WAL, PRAGMAs, connection caching, a locked or full database): one locked call is one atomic step.
- pymodbus, pyserial and requests: every call returns with one of the outcomes the code distinguishes (all but `client.close` carry a timeout). A `client.close` that raises counts as finished, and an acknowledgement counts when it is attempted.
- Handles of TCP clients: only serial handles are accounted for.
- Rounding: reals stand for floats, so `process_tag`'s scaling and rounding and the rounding of `total_seconds` are not modelled; decoded floats stay IEEE 754 bit patterns.
- Case mapping of single characters outside ASCII: the word-order laws hold for every lower-casing with the laws stated in `WordOrder.IsLowering`; the classifiers themselves lower-case A to Z, which is exact because the only other character whose lower case is an ASCII letter is the Kelvin sign and no accepted spelling contains a k.
- Decimal digits of Unicode versions after 15.0 in override keys.
- `json` and `requests` refusing a value: an infinite value in the queue would make every POST that carries it a `NetworkError`, so it would count as deliverable and never be sent; `process_tag` (dynamic_modbus_poller.py:655) keeps such values out of the queue, and the drain laws speak of answered POSTs only.
- A `byte_order`, `word_order` or `data_type` that is not text: the classifiers take text or nothing.
- Delivery of alarm events: an event is the decided transition; in shadow mode it is logged, otherwise its push may fail and is not repeated.
- Configurations that are not shaped as the code expects (a device list that is no list, a rule without an id): such an exception ends a pass or a batch, which the step systems allow as `Abort` and `Aborted` only for passes and flushes.
- `last_poll_times` across processes: a restart begins with no attempts, and time is the monotonic clock of one process.
- `DEVICE_STATUS`, `device_status.py` and `config_cache.py`: single write-then-replace files with easy properties.
- `fetch_pending_commands`, `gateway_health_reporter.py`, `logging_config.py`, `start_gateway.py`, `modbus_gui.py`, `modbus_console.py`, `diagnose_modbus.py` and the scanning scripts: logging, process control, user interface and a copy of the codec.
