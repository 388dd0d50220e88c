# The Modbus polling stack, verified

A Modbus client keeps a table of values live. It turns scattered *poll targets* into
contiguous read requests, keeps a bounded number of them in flight, matches replies to
requests, scatters the values back over the targets, and batches what it tells its user.
This project models that stack in Dafny, layer by layer, and proves what the layers promise
together.

| layer | modules |
|---|---|
| numbers and register types | `Numbers`, `RegisterTypes` |
| read planner | `ReadCoalescer` (loops and the functions they compute), `PlannerCoverage`, `PlannerOrder`, `PlannerOptimality`, `PlannerBridging`, `PlannerSlices` |
| wire | `Bits`, `Crc16`, `CrcDetection`, `CrcExamples`, `RtuFramer`, `TcpFramer`, `PduCodec`, `Decoding` (byte for byte), `MultiWrites` |
| caches | `Caches`, `CoalescedPolling`, `ReplyLengths` |
| transactions, poll engine, one-shots | `Transactions`, `Polling`, `OneShots`, `PollStack` (functions on one combined state and its events), `PollObjects` (the three objects, updated in place) |
| what every run keeps | `Accounting`, `CycleInvariants`, `StackInvariants`, `CycleResults`, `CycleTermination`, `Provenance`, `Housekeeping` |
| what follows | `Reassembly`, `RtuStreams`, `FlushRefinement`, `StrandedRead`, `Isolation`, `Freshness`, `EndToEnd`, `Devices`, `Announcements`, `Configuration`, `Failures` |
| table and text | `Numerals`, `ValueFormatter`, `Displays`, `RegisterTable`, `TableContents`, `RegisterTableObject` |
| session | `Favorites`, `Session`, `SessionStates`, `SessionObject` |

How it fits together:

- Code that changes fields is a class. Each of its methods is proved to do to the object's
  state exactly what a function of the same name does to a value; for every event or call the
  `Perform` of `PollObjects`, `SessionController` and `RegisterTableModel` says so. Properties
  of runs are lemmas about those functions.
- A *run* (`StackInvariants.IsRun`) starts from a fresh stack and follows allowed events in
  any order: arbitrary bytes arrive, any set of deadlines passes, armed timers fire, the user
  retargets, starts, stops, reconfigures, or sends a single read or write. One callback is one
  step; the transport's `write` does not call back.
- Records that only proofs read are kept apart: the `serial` numbers, the log of
  transmissions, how every request ended, the `Record` of the engine.
- Time is the set of requests whose deadlines have passed, chosen by the environment.
- `PollStack.Allowed` lists what runs keep to: options change only while stopped; polling
  starts only after targets were first set, as the controller does it (why that matters is
  `Isolation.OneShotsIgnoredIff`); generation and one-shot counters stay below
  2^32; there are fewer than 2^31 plans.

Main results, in the order in which they build on each other: every offset of every target is
carried exactly once and a gapless plan is the shortest there is; coalesced polling leaves
exactly the device's memory, in any order of replies; in every state of every run targets,
options and running are those last asked for, the counters agree with the requests really
pending, the window is respected, each announced end of a cycle stands for every plan settled
exactly once within its budget of transmissions, and a cycle that nobody stops or retargets
ends after a bounded number of replies and timeouts; each request goes out at least once and
at most as often as allowed; replies are accepted for exactly the bytes the protocol wants,
and whatever is refused or given up is reported to exactly those it concerns; how a stream is
cut into chunks does not matter; batching loses no value; every value sent since a retarget is
an initial zero or was read since, at its own address; and, through all layers at once, from a
call that sets targets and bytes on the wire to the updates sent, after a completed cycle
against devices that answer transmitted frames with their memory, and any number of cycles
after it, every cache holds that memory and the next flush has sent it for the very targets
given. A text shows the one number of its range that the registers hold; after any sequence of
calls each row of the table shows the settings last given for its address; and the state of a
session is decided by what was reported and called last.

Found on the way, each with the exact condition:

- The register decoder accepts replies that are too short for their plan; an accepted reply
  suffices if and only if its byte count reaches the last value a slice needs
  (`ReplyLengths.WordReplySufficesIff`).
- Bridging gaps can cost a request. Coalescing never costs one if and only if nothing is
  bridged or both ceilings are at least 32768 (`PlannerBridging.NeverCostsIff`).
- Stopping can strand values that were not sent yet. In every run, values are stranded if and
  only if polling was stopped with a value unsent and there has been neither a retarget nor
  an armed flush since (`FlushRefinement.StopStrandsUnsentValues`); the shortest such run is
  `StrandedRead.StoppedReadIsStranded`.
- A multi-coil write arrives if and only if it has at most 2040 values, a multi-register
  write if and only if it has at most 127 (`MultiWrites`).
- Started before its first retarget, the engine takes one-shots for polls; it leaves them
  alone if and only if it is not running in generation 0 (`Isolation.OneShotsIgnoredIff`;
  that every run is idle up to its first retarget is `Isolation.EarlyStartMistakesOneShots`).
- The transport closes gracefully, so an attempt still under way can succeed after the user
  has given up, and is then taken for a loss and retried. A disconnect is final if and only
  if no attempt was under way, or closing reported its end (`Session.DisconnectIsFinalIff`).
- A stop while the connection is lost is undone when it comes back. Polling that was stopped
  stays stopped if and only if it is not marked for resuming (`SessionStates.StopIsFinalIff`;
  `SessionStates.StopWhileLostIsUndone` is the shortest such run).
- Resuming after a loss polls the unit and favorites in force at the loss. In register mode
  these are the targets polled before if and only if the unit is still theirs, in favorites
  mode if and only if the list still names the registers it named when polling began, and
  the unit is still theirs unless the list is empty (`Session.RegistersResumeTheSameIff`,
  `Session.FavoritesResumeTheSameIff`; `Session.UnitChangeResumesElsewhere` and
  `Session.EditedFavoritesResumeDifferently` are the failing cases).

## Model

| member | source | states |
|---|---|---|
| ReadCoalescer.MergeByGap | core/poll/ReadCoalescer.cpp:37-60 | the merge loop computes the runs that the planner results are about |
| ReadCoalescer.AppendPlansForRun | core/poll/ReadCoalescer.cpp:66-96 | the split loop appends exactly the plans of a run, chunk by chunk with their slices, and ends because the ceiling is positive |
| ReadCoalescer.Coalesce | core/poll/ReadCoalescer.cpp:100-131 | grouping, sorting, merging and splitting together produce the plan list of all targets |
| PlannerCoverage.ExactCoverage | core/poll/ReadCoalescer.cpp:66-131 | every value of every target is carried by exactly one slice over all plans |
| PlannerCoverage.PlansFit | core/poll/ReadCoalescer.cpp:66-131 | every plan reads 1 to maxCount values; each slice is in bounds of plan and target of the same unit and type, and both sides name one device address |
| PlannerOrder.OrderIndependence | core/poll/ReadCoalescer.cpp:37-131 | permuting the targets leaves the sequence of requests (unit, type, start, quantity) unchanged |
| PlannerOptimality.PlansAscendDisjoint | core/poll/ReadCoalescer.cpp:66-96 | the requests of a group ascend and no address is read twice |
| PlannerOptimality.WasteBounded | core/poll/ReadCoalescer.cpp:37-60 | no block of unwanted addresses inside a merged run is longer than the gap |
| PlannerOptimality.EveryPlanReadsSomethingWanted | core/poll/ReadCoalescer.cpp:66-96 | if the gap is below the ceiling, no request is pure filler |
| PlannerSlices.EveryPlanHasASlice | core/poll/ReadCoalescer.cpp:66-131 | so every plan of the whole list has at least one slice |
| PlannerSlices.PlansAscend | core/poll/ReadCoalescer.cpp:100-131 | the requests of a cycle ascend by unit, then by type, then by address |
| PlannerOptimality.ReadIffWanted | core/poll/ReadCoalescer.cpp:37-131 | without bridging, an address is read if and only if some target wants it |
| PlannerOptimality.FewestRequests | core/poll/ReadCoalescer.cpp:37-131 | without bridging, no set of requests within the ceiling that reads exactly the wanted addresses is smaller than the plan |
| PlannerOptimality.PlansAreExactCover | core/poll/ReadCoalescer.cpp:37-131 | the plan itself is such a set, so the minimum is reached |
| PlannerBridging.NeverMoreThanNaive | core/poll/ReadCoalescer.cpp:37-131 | a group of targets that fit one request each never needs more requests than it has targets, if nothing is bridged or two requests can span all addresses |
| PlannerBridging.CoalescingNeverCosts | core/poll/ReadCoalescer.cpp:100-131 | the same for the whole plan list |
| PlannerBridging.BridgingCostsARequest | core/poll/ReadCoalescer.cpp:37-96 | for every gap of at least 1 and every ceiling c up to 32767, [0,c) and [c+1,2c+1) take three requests although two read exactly what is wanted |
| PlannerBridging.NeverCostsIff | core/poll/CoalescingOptions.h:9-24 | over all target lists coalescing never costs a request if and only if the gap is at most 0 or both ceilings are at least 32768 |
| PlannerBridging.WithinItsCeilingIsOneRequest | core/poll/CoalescingOptions.h:15-23 | a target within the ceiling of its own kind, bits or registers, is one request for exactly its range |
| Crc16.ComputeModbusCrc16 | core/modbus/Crc16.cpp:5-20 | the nested loops compute the shift-register CRC |
| Crc16.FeedLinear | core/modbus/Crc16.cpp:5-20 | the register after the bitwise sum of two inputs is the sum of the registers |
| Crc16.TrailerClears | core/modbus/Crc16.cpp:5-20 | two bytes clear the register if and only if they are its own halves, low half first |
| CrcDetection.FeedIsFeedBits | core/modbus/Crc16.cpp:5-20 | byte-wise and bit-wise processing agree, least significant bit first |
| CrcDetection.BurstLeavesTrace | core/modbus/Crc16.cpp:5-20 | an error within 16 consecutive bits never leaves the register clear |
| CrcDetection.OddErrorLeavesTrace | core/modbus/Crc16.cpp:5-20 | an error in an odd number of bits never leaves the register clear |
| CrcExamples.KnownVector | tests/test_crc16.cpp:16-40 | the specification's example message has CRC 0xCDC5, and the empty one 0xFFFF |
| RtuFramer.EncodeRtuFrame | core/modbus/ModbusRtuFramer.cpp:46-58 | the appends build unit, PDU and CRC with its low byte first |
| RtuFramer.DecodeEncodedRtu | core/modbus/ModbusRtuFramer.cpp:46-76 | every framed PDU is unframed to itself |
| RtuFramer.AcceptedIffCrcZero | core/modbus/ModbusRtuFramer.cpp:60-76 | a frame of at least three bytes is accepted if and only if the CRC over all of it is zero |
| RtuFramer.OddErrorsRejected | core/modbus/ModbusRtuFramer.cpp:60-76 | a frame that differs from an accepted one in an odd number of bits is rejected, at any length |
| RtuFramer.BurstErrorsRejected | core/modbus/ModbusRtuFramer.cpp:60-76 | so is one that differs only within 16 consecutive bits |
| RtuFramer.PredictedLengthIffResponse | core/modbus/ModbusRtuFramer.cpp:78-98 | the predicted length is the encoded length exactly for response-shaped PDUs |
| RtuFramer.PredictionStable | core/modbus/ModbusRtuFramer.cpp:78-98 | once decided, the prediction does not change as bytes arrive |
| TcpFramer.EncodeMbapFrame | core/modbus/ModbusTcpFramer.cpp:20-32 | the appends build the header and the PDU |
| TcpFramer.DecodeEncodedMbap | core/modbus/ModbusTcpFramer.cpp:20-57 | an encoded frame at the front of a buffer is taken off exactly, whatever follows |
| TcpFramer.IncompleteMbapWaits | core/modbus/ModbusTcpFramer.cpp:34-57 | no proper prefix of a frame is taken for a frame |
| Bits.PackBits | core/modbus/ModbusPduCodec.cpp:18-26 | the packing loop |
| Bits.PackedBit | core/modbus/ModbusPduCodec.cpp:18-26 | packed bit i is value i, least significant first, and padding is clear |
| PduCodec.DecodeReadRegistersResponse | core/modbus/ModbusPduCodec.cpp:77-102 | header check, byte count and loop, with every error case |
| PduCodec.DecodeReadBitsResponse | core/modbus/ModbusPduCodec.cpp:104-135 | the same for bits, whose byte count must match the quantity asked for |
| PduCodec.RegistersRoundTrip | core/modbus/ModbusPduCodec.cpp:77-102 | a register response decodes to the registers it was made from |
| PduCodec.BitsRoundTrip | core/modbus/ModbusPduCodec.cpp:104-135 | a bit response decodes to the bits it was made from |
| PduCodec.ReadRequestArrives | core/modbus/ModbusPduCodec.cpp:177-184 | a device reads out of a read request what was put in |
| PduCodec.WriteRoundTrip | core/modbus/ModbusPduCodec.cpp:137-202 | a write echo decodes to address and value, and a single write is its own echo |
| PduCodec.ReadResponsesArePredictable | core/modbus/ModbusRtuFramer.cpp:78-98 | read responses have the shape whose end the RTU reader predicts |
| Decoding.RegistersAcceptedIff | core/modbus/ModbusPduCodec.cpp:41-102 | a register reply is accepted if and only if it has the function code asked for, an even byte count and that many bytes; register i is the i-th pair, high byte first |
| Decoding.BitsAcceptedIff | core/modbus/ModbusPduCodec.cpp:104-135 | a bit reply is accepted if and only if it has that code, the byte count of the quantity asked for and that many bytes; bit i is bit i mod 8 of byte i div 8 |
| Decoding.WritesAcceptedIff | core/modbus/ModbusPduCodec.cpp:137-173 | a write echo is accepted if and only if it has that code and five bytes; address and value are its two words |
| Decoding.ExceptionsIff | core/modbus/ModbusPduCodec.cpp:41-64 | a reply is an exception if and only if its first byte has the high bit and a second follows; they name function and exception |
| Decoding.RegisterRefusals | core/modbus/ModbusPduCodec.cpp:41-102 | what each refusal of a register reply says of its bytes |
| Decoding.BitRefusals | core/modbus/ModbusPduCodec.cpp:41-135 | the same for bits |
| Decoding.MbapAcceptedIff | core/modbus/ModbusTcpFramer.cpp:34-57 | a buffer yields a TCP frame if and only if its header is there, the protocol id is zero, and all declared bytes are there |
| Decoding.MbapDecodeThenEncode | core/modbus/ModbusTcpFramer.cpp:20-57 | what is taken off a buffer encodes to the bytes it was taken from |
| Decoding.RtuDecodeThenEncode | core/modbus/ModbusRtuFramer.cpp:46-76 | an accepted RTU frame is the encoding of what is read out of it |
| Decoding.RtuLengths | core/modbus/ModbusRtuFramer.cpp:78-98 | where a response is expected to end, by the numbers of the function codes |
| Decoding.RequestLayout | core/modbus/ModbusPduCodec.cpp:177-202 | each request is its function code by number, the address, and the quantity or value, high bytes first |
| MultiWrites.EncodeWriteMultipleCoilsRequest | core/modbus/ModbusPduCodec.cpp:204-215 | the appends build the request |
| MultiWrites.EncodeWriteMultipleRegistersRequest | core/modbus/ModbusPduCodec.cpp:217-227 | the append loop builds the request |
| MultiWrites.CoilsArriveUpToCount | core/modbus/ModbusPduCodec.cpp:204-215 | a device reads the coils back if and only if there are at most 2040 |
| MultiWrites.RegistersArriveUpToCount | core/modbus/ModbusPduCodec.cpp:217-227 | a device reads the registers back if and only if there are at most 127 |
| CoalescedPolling.CoalescedRefinesNaive | core/poll/PollEngine.cpp:202-240 | once every plan has been answered with the device's memory, in any order and possibly repeatedly, every target's cache is the memory of its own range |
| CoalescedPolling.PlanAnswered | core/poll/PollEngine.cpp:202-240 | encoding a plan's request, answering it and decoding gives exactly the memory the plan covers |
| ReplyLengths.AcceptedBitsSuffice | core/poll/PollEngine.cpp:204-222 | whatever a device sends, an accepted bit reply has a value for every slice |
| ReplyLengths.WordReplySufficesIff | core/poll/PollEngine.cpp:224-239 | an accepted register reply has a value for every slice of a planned request if and only if its byte count is at least twice the greatest slice end |
| ReplyLengths.AllAskedForIsNeeded | core/poll/ReadCoalescer.cpp:66-96 | without bridging that greatest slice end is the quantity asked for |
| ReplyLengths.ShortWordReplyIsAccepted | core/modbus/ModbusPduCodec.cpp:77-102 | a one-register reply to the plan of a two-register target is accepted though a slice reads behind its end |
| PollObjects.TransactionManager.SendRequest | core/modbus/ModbusTransactionManager.cpp:73-101 | a request gets the next id, is appended, arms the timer and is transmitted |
| PollObjects.TransactionManager.CancelAll | core/modbus/ModbusTransactionManager.cpp:66-71 | every pending request is cancelled, the buffer emptied, the timer stopped |
| PollObjects.TransactionManager.HandleDataReceived | core/modbus/ModbusTransactionManager.cpp:119-130 | data is dropped with nothing pending, and otherwise buffered and consumed |
| PollObjects.TransactionManager.ConsumeTcpFrames | core/modbus/ModbusTransactionManager.cpp:132-158 | the loop consumes all complete frames, matching by transaction id, and ends because the buffer shrinks |
| PollObjects.TransactionManager.ConsumeRtuFrames | core/modbus/ModbusTransactionManager.cpp:160-179 | the loop consumes all complete frames, answering the oldest request and dropping bad checksums |
| PollObjects.TransactionManager.CompleteRequest | core/modbus/ModbusTransactionManager.cpp:181-187 | the request leaves the list before engine and controller hear of the reply |
| PollObjects.TransactionManager.SweepExpired | core/modbus/ModbusTransactionManager.cpp:189-210 | the backward loop keeps, retries or gives up each expired request |
| PollObjects.TransactionManager.HandleTimeout | core/modbus/ModbusTransactionManager.cpp:189-224 | sweep, then retransmissions, then failures one by one |
| Transactions.TransactionIdsDistinct | core/modbus/ModbusTransactionManager.cpp:73-88 | ids of pending requests among the last 65536 sent are pairwise distinct |
| Transactions.ReplyMatchesItsRequest | core/modbus/ModbusTransactionManager.cpp:132-158 | the search finds the request a reply answers if it is pending, and otherwise none |
| Transactions.OutcomesAreFinal | core/modbus/ModbusTransactionManager.cpp:66-71 | cancelling, answering and giving up never change how another request ended |
| PollObjects.PollEngine.SetTargets | core/poll/PollEngine.cpp:25-49 | a new generation, old requests cancelled, plans and caches rebuilt, and a new cycle if running |
| PollObjects.PollEngine.SetCoalescingOptions | core/poll/PollEngine.cpp:56-65 | options adopted and plans rebuilt |
| PollObjects.PollEngine.Start | core/poll/PollEngine.cpp:99-105 | starting begins a cycle at once |
| PollObjects.PollEngine.Stop | core/poll/PollEngine.cpp:107-114 | both timers stopped, requests cancelled, nothing outstanding |
| PollObjects.PollEngine.BeginCycle | core/poll/PollEngine.cpp:121-129 | a cycle starts from the first plan, unless stopped or without plans |
| PollObjects.PollEngine.PumpRequests | core/poll/PollEngine.cpp:131-142 | the loop issues plans while the window allows |
| PollObjects.PollEngine.HandleResponse | core/poll/PollEngine.cpp:159-169 | only replies of the current generation are used and settled |
| PollObjects.PollEngine.HandleFailure | core/poll/PollEngine.cpp:171-186 | a failure is reported, for every slice's target too, and settled |
| PollObjects.PollEngine.NoteRequestSettled | core/poll/PollEngine.cpp:188-200 | settle, pump, and finish the cycle when all is done |
| PollObjects.PollEngine.ApplyPlanResponse | core/poll/PollEngine.cpp:202-240 | decode, then scatter value by value over the caches, all writes in bounds |
| PollObjects.PollEngine.MarkDirty | core/poll/PollEngine.cpp:242-247 | the target is dirty and the flush timer armed |
| PollObjects.PollEngine.FlushPendingUpdates | core/poll/PollEngine.cpp:249-262 | one update for each dirty target in ascending order, and every cache clean |
| PollObjects.OneShotController.ReadRegisters | app-lib/ConnectionController.cpp:371-392 | the operation is remembered and sent under a new id |
| PollObjects.OneShotController.WriteSingleRegister | app-lib/ConnectionController.cpp:394-400 | the same for a register write |
| PollObjects.OneShotController.WriteSingleCoil | app-lib/ConnectionController.cpp:402-408 | the same for a coil write |
| PollObjects.OneShotController.HandleResponseReceived | app-lib/ConnectionController.cpp:488-562 | only the latest one-shot's reply is decoded, as the operation that asked |
| PollObjects.OneShotController.HandleRequestFailed | app-lib/ConnectionController.cpp:564-576 | only the latest one-shot's timeout is reported |
| PollObjects.Perform | app-lib/ConnectionController.cpp:60-63 | for every event the objects do to the stack what its step function says |
| PollObjects.Create | core/poll/PollEngine.cpp:9-23 | the objects start where runs start |
| StackInvariants.RunsAreValid | core/poll/PollEngine.cpp:25-200 | every state of every run is consistent: counters, attribution, per-plan accounts, budget, timers |
| CycleResults.WindowRespected | core/poll/PollEngine.cpp:84-142 | the outstanding count is the number of polls really pending and at most the window; over RTU at most one; while plans are left the window is full |
| CycleResults.GivenUpAfterAllAttempts | core/modbus/ModbusTransactionManager.cpp:198-210 | a timeout gives a request up only when its attempts stand at max(1, retryCount + 1), and otherwise keeps them within |
| CycleResults.TransmissionsPerRequest | core/modbus/ModbusTransactionManager.cpp:73-101 | in every run each request sent, poll or one-shot, is on the wire at least once and at most max(1, retryCount + 1) times, a pending one as often as its attempts say, and a timed-out one exactly that often |
| CycleResults.TimerMeansIdle | core/poll/PollEngine.cpp:188-200 | an armed interval timer means every plan issued and none in flight |
| CycleResults.NeverStalls | core/poll/PollEngine.cpp:131-200 | a running engine with plans waits either for the interval timer or for a poll whose timeout is armed, never for nothing |
| CycleResults.CyclesAreExact | core/poll/PollEngine.cpp:188-200 | there are as many announced ends of cycles as recorded cycles, and each of these settled every plan exactly once within its budget of transmissions |
| CycleResults.CycleWithinBudget | core/modbus/ModbusTransactionManager.cpp:189-210 | a running cycle has sent at most max(1, retryCount + 1) requests for each plan, whatever the device does |
| CycleResults.ReplyIsProgress | core/poll/PollEngine.cpp:159-200 | every reply to a poll, well-formed or not, lowers twice the unissued plans plus the outstanding requests |
| CycleResults.TimeoutIsProgress | core/poll/PollEngine.cpp:171-200 | so does giving a poll up |
| CycleResults.RemainingMeasuresTheCycle | core/poll/PollEngine.cpp:188-200 | that measure is never negative, and zero exactly when the cycle is over |
| CycleTermination.StepPatience | core/modbus/ModbusTransactionManager.cpp:181-224 | no event other than a stop or retarget restores the patience of a cycle, and every reply to a poll and every timeout that hits one, even if it only sends it again, uses some up |
| CycleTermination.PatienceIsBounded | core/poll/PollEngine.cpp:121-142 | a cycle has at most 2 * max(1, retryCount + 1) * plans of it, and at least one until the interval timer is armed |
| CycleTermination.CyclesEnd | core/poll/PollEngine.cpp:188-200 | in any stretch of any run without stop or retarget, after that many replies to polls or timeouts of polls the interval timer has been armed |
| CycleResults.TransactionsAccounted | core/modbus/ModbusTransactionManager.cpp:66-95 | in every run each request sent is pending or has ended, never both, and how it ended is never revised |
| CycleResults.RtuPairsInOrder | core/modbus/ModbusTransactionManager.cpp:160-187 | over RTU the k-th reply ends the k-th oldest request |
| Housekeeping.TimeoutArmedIffPending | core/modbus/ModbusTransactionManager.cpp:103-117 | in every run the timeout is armed exactly while a request is pending |
| Housekeeping.BufferHoldsUnusedBytes | core/modbus/ModbusTransactionManager.cpp:66-179 | in every run the buffer is the unused end of what arrived, with something pending, since the last retarget or stop |
| Housekeeping.StoppedIsIdle | core/poll/PollEngine.cpp:107-114 | in every run, not started or stopped since, no poll is pending or counted and neither timer of the engine is armed |
| Housekeeping.FlushArmedForNews | core/poll/PollEngine.cpp:242-262 | in every run, once the flush timer has run out or was stopped since the last retarget, it is armed only for a value not sent, and without a stop exactly for one |
| Reassembly.EncodedIsFramed | core/modbus/ModbusTcpFramer.cpp:20-32 | what devices send says where it ends |
| Reassembly.FrontFrame | core/modbus/ModbusTransactionManager.cpp:132-179 | the arrival at the front of a buffer is that of its first frame |
| Reassembly.PrefixWaits | core/modbus/ModbusTransactionManager.cpp:132-179 | a proper prefix of a frame is left in the buffer |
| Reassembly.ChunkingDoesNotMatter | core/modbus/ModbusTransactionManager.cpp:119-187 | every way of cutting a stream of frames into chunks ends in the state of delivering the frames one by one |
| Reassembly.GarbledFramesAreDropped | core/modbus/ModbusTransactionManager.cpp:160-179 | a complete RTU frame whose CRC is wrong changes nothing but the buffer it is taken from |
| Reassembly.SoundFramesAnswerTheOldest | core/modbus/ModbusTransactionManager.cpp:160-187 | one whose CRC is right answers the oldest request with everything between unit and CRC |
| Reassembly.UnknownIdsAreDropped | core/modbus/ModbusTransactionManager.cpp:132-158 | a complete TCP frame with the id of no pending request changes nothing but the buffer |
| RtuStreams.RtuStreamPairsInOrder | core/modbus/ModbusTransactionManager.cpp:160-187 | over RTU the k-th frame of a byte stream ends the k-th oldest request, however the stream is cut |
| FlushRefinement.FlushRefinesImmediateEmission | core/poll/PollEngine.cpp:202-262 | in every run, right after a flush, the last values sent for each target are those an engine without batching has sent last |
| FlushRefinement.OneUpdatePerFlush | core/poll/PollEngine.cpp:249-262 | a flush sends each target one update if it has news and none if not |
| FlushRefinement.UnsentValuesHaveAFlushComing | core/poll/PollEngine.cpp:242-247 | unless polling was stopped since the last retarget, an unsent value has its flush timer armed |
| FlushRefinement.StopStrandsUnsentValues | core/poll/PollEngine.cpp:107-114 | in every run values are stranded, unsent without a flush coming, if and only if some stop found a value unsent and neither a retarget nor an armed flush has come since |
| StrandedRead.StoppedReadIsStranded | core/poll/PollEngine.cpp:107-119 | a run that strands a value: a target is set, polling starts, the answer arrives, polling stops |
| Provenance.RunsAreTraced | core/poll/PollEngine.cpp:131-146 | in every run all pending requests were sent since the last retarget, and every poll carries its plan's request |
| Provenance.FramesMeetSoundStates | core/modbus/ModbusTransactionManager.cpp:119-179 | in every run, whatever chunk arrives, the state each of its frames meets is as sound as the states between events, and the rest of the chunk leads from there to where the whole chunk leads |
| Isolation.EndedRequestsAreDeaf | core/modbus/ModbusTransactionManager.cpp:132-158 | over TCP, in every state a frame can meet, a reply to a request that has ended, late, repeated or reordered, changes nothing at all |
| Isolation.OldRepliesChangeNothing | core/poll/PollEngine.cpp:25-49 | in every state a frame can meet, no reply to a request from before the retarget has any effect |
| Isolation.CachesTakeOnlyFreshReplies | core/poll/PollEngine.cpp:159-169 | what enters a cache was decoded from a reply to a request sent after the retarget for a current plan |
| Isolation.CorrelationRoundTrip | core/poll/PollEngine.cpp:144-157 | packing generation and plan index loses nothing |
| Isolation.PollsLeaveOneShotsAlone | app-lib/ConnectionController.cpp:488-495 | neither a reply to a poll nor its timeout touches the controller |
| Isolation.OneShotsLeavePollingAlone | core/poll/PollEngine.cpp:159-186 | a one-shot's reply or timeout touches no cache, count or cycle |
| Isolation.OnlyTheLatestOneShotAnswers | app-lib/ConnectionController.cpp:488-495 | at most one pending request is the latest one-shot, and no other is taken for it |
| Isolation.OneShotsIgnoredIff | core/poll/PollEngine.cpp:144-186 | a one-shot's reply leaves the engine alone if and only if the engine is not running in generation 0, and so does its timeout |
| Isolation.EarlyStartMistakesOneShots | core/poll/PollEngine.cpp:99-186 | in every run the engine is idle up to its first retarget; started then, it would take the reply to every one-shot, and its timeout, for one of a poll |
| Isolation.GenerationZeroMistakesOneShots | core/poll/PollEngine.cpp:144-169 | before targets were ever set, a one-shot's reply would complete a cycle that never was |
| Freshness.UpdatesAreFresh | core/poll/PollEngine.cpp:25-49 | in every run, every update emitted since the last retarget names a current target with its address, length and kind, and each of its values is 0 or false or stands, at the place of its own address, in the decoded answer to a request sent after the retarget that had asked for that range |
| EndToEnd.CompletedCycleReadsMemory | core/poll/PollEngine.cpp:121-240 | in any stretch of any run that begins with a cycle, with honest devices and no poll given up, the completed cycle leaves every target with the device's memory |
| EndToEnd.SingleReadReportsMemory | app-lib/ConnectionController.cpp:371-539 | a single read answered by the device reports its memory and leaves polling as it was |
| EndToEnd.SingleWriteReportsEcho | app-lib/ConnectionController.cpp:394-548 | a single write that is echoed reports address and value written |
| EndToEnd.SingleCoilWriteReportsEcho | app-lib/ConnectionController.cpp:402-557 | a switched coil that is echoed reports address and state |
| EndToEnd.OneShotGoesOut | app-lib/ConnectionController.cpp:371-408 | a one-shot puts one frame on the wire, which unframes to the unit set, cut to 8 bits, and the request |
| Devices.TcpWireIsHonest | core/modbus/ModbusTransactionManager.cpp:73-158 | in every state a frame can meet, the frame of a pending poll, decoded and answered by a device, comes back as the reply to exactly that poll with the device's memory |
| Devices.TcpBufferIsHonest | core/modbus/ModbusTransactionManager.cpp:119-158 | a buffer of any number of replies to any transmitted frames, in any order, repeated, late, and with part of another behind them, those to polls being devices' answers and those to one-shots any replies, is taken for nothing but the device's answer to each poll it ends |
| Devices.RtuWireIsHonest | core/modbus/ModbusTransactionManager.cpp:73-179 | the same over RTU for the oldest pending poll |
| Devices.RtuBufferIsHonest | core/modbus/ModbusTransactionManager.cpp:160-179 | the same for a buffer of replies in the order of the pending requests |
| Devices.ServicedCycleReadsMemory | core/poll/PollEngine.cpp:121-240 | in any stretch of any run that begins with a cycle, in which the bytes that arrive are devices' answers to transmitted frames and no poll is given up, the completed cycle leaves every target with the devices' memory |
| Announcements.ServicedCycleIsSent | core/poll/PollEngine.cpp:121-262 | after that cycle, and any number of cycles served in the same way, the last update sent since the retarget for every target with a value, unless one waits for the flush, holds the devices' memory |
| Announcements.ServicedCycleIsFlushed | core/poll/PollEngine.cpp:249-262 | so right after the next flush it does so for every target with a value |
| Configuration.SetupFollowsCalls | core/poll/PollEngine.cpp:25-119 | in every state of every run the targets are those of the latest retarget, none before the first, the options those last set, the engine runs exactly if it was started and not stopped since, and the generation counts the retargets; nothing else changes them |
| Configuration.RetargetedCycleIsFlushed | core/poll/PollEngine.cpp:25-49 | a retarget to given targets while polling, a serviced cycle, a flush: the last update since the call, for each of these targets with a value, holds the devices' memory over its range |
| Configuration.StartedCycleIsFlushed | core/poll/PollEngine.cpp:99-105 | the same for a start after a retarget |
| Failures.RepliesReported | core/poll/PollEngine.cpp:202-232 | a reply to a poll without the bytes its plan accepts changes no value and is reported once, and once for each slice to its target; an acceptable one is reported to nobody as a failure |
| Failures.OtherFunctionCodeChangesNothing | core/modbus/ModbusPduCodec.cpp:66-71 | in every state a frame can meet, a reply to a poll with another function code than the request's changes no value and is reported |
| Failures.FailuresAreReported | core/poll/PollEngine.cpp:171-186 | in every run, apart from replies, failures are reported for the polls given up, each once and once for each slice to its target, and for nothing else |
| Failures.OneShotReplyReported | app-lib/ConnectionController.cpp:488-562 | the latest one-shot's reply ends it with one result: a failure if and only if its bytes do not answer the operation, and otherwise what they say |
| Failures.OneShotTimeoutReported | app-lib/ConnectionController.cpp:564-576 | in every run a timeout ends the latest one-shot with one failure if it gives it up, and leaves the controller alone if not |
| ValueFormatter.PackThenUnpack | core/format/ValueFormatter.cpp:13-47 | unpacking undoes packing for every byte order |
| ValueFormatter.UnpackThenPack | core/format/ValueFormatter.cpp:13-47 | packing undoes unpacking |
| ValueFormatter.ByteOrdersAreSwaps | core/format/ValueFormatter.cpp:13-28 | the orders are big-endian, with registers swapped, bytes swapped, or both |
| ValueFormatter.ParseUndoesFormat | core/format/ValueFormatter.cpp:75-207 | reading the text shown gives back the registers, for six formats, every byte order, unit and content |
| Numerals.NumeralRoundTrip | core/format/ValueFormatter.cpp:75-123 | a number printed in base 2, 10 or 16 is read back |
| Displays.IntegersShowTheirNumber | core/format/ValueFormatter.cpp:75-123 | without scaling each integer format shows, plainly and before the unit, the one number of its range congruent to what the registers hold, signed from -2^15 or -2^31, unsigned from 0 |
| Displays.HexAndBinaryShowTheRegister | core/format/ValueFormatter.cpp:79-85 | hex shows 0x and four upper-case digits, binary sixteen digits, worth the register, and no unit |
| Displays.DefaultShowsTheRegister | core/format/ValueFormatter.cpp:75-123 | the default settings show a register as itself |
| Displays.TypedIntegerIsStored | core/format/ValueFormatter.cpp:149-207 | a typed integer, with or without sign and unit, stores registers that hold it modulo 2^16 or 2^32 |
| Displays.TypedNumberIsRounded | core/format/ValueFormatter.cpp:184-205 | any typed number that is read stores, unscaled, the nearest integer, halves away from zero, modulo 2^16 or 2^32 |
| Displays.TypedDigitsAreStored | core/format/ValueFormatter.cpp:161-182 | typed hexadecimal or binary digits, the former with or without prefix, store their low 16 bits, and are refused beyond 32 |
| Displays.ScaledShowAndReadBack | core/format/ValueFormatter.cpp:75-207 | floats and scaled integers show scale times the number plus offset, and are read back where the number library is exact |
| RegisterTable.LayoutTiles | app-lib/models/RegisterTableModel.cpp:277-315 | the rows tile exactly the range of the values |
| RegisterTable.IndexNamesContainingRow | app-lib/models/RegisterTableModel.cpp:277-315 | the index names the row that contains a register, and ascends |
| RegisterTable.FastPathIsRebuild | app-lib/models/RegisterTableModel.cpp:68-111 | updating in place reaches the state of a full rebuild |
| RegisterTable.FastBitPathIsRebuild | app-lib/models/RegisterTableModel.cpp:113-148 | the same for bits |
| RegisterTable.HistoriesAgree | app-lib/models/RegisterTableModel.cpp:68-315 | over any sequence of calls the table shows what rebuilding every time would show |
| RegisterTable.WordTablesAreSafe | app-lib/models/RegisterTableModel.cpp:86-104 | in a laid-out table of a word type every index that the in-place update reads is defined |
| RegisterTable.DataChangedCoversChanges | app-lib/models/RegisterTableModel.cpp:86-104 | the announced rows include every row with a changed register, and both end rows have one |
| RegisterTable.NoChangeNoSignal | app-lib/models/RegisterTableModel.cpp:86-104 | rows are announced if and only if some register changed |
| RegisterTable.FormatEditIsLocal | app-lib/models/RegisterTableModel.cpp:202-223 | editing a format alters no row before the edited one |
| RegisterTable.CommittingShownTextWritesTheSame | app-lib/models/RegisterTableModel.cpp:150-165 | committing the text a row shows requests writes of exactly its registers at its addresses |
| TableContents.ContentsFollowCalls | app-lib/models/RegisterTableModel.cpp:68-275 | after any sequence of calls the type, the start, the values and their staleness are those the calls last set |
| TableContents.RowsShowLatestSettings | app-lib/models/RegisterTableModel.cpp:202-315 | after any sequence of calls each row of a word type shows the settings last given for its address, the default ones if none were or if the range ends inside them, and the rows tile the range last set |
| TableContents.FormatEditIsShown | app-lib/models/RegisterTableModel.cpp:202-223 | an edited row shows exactly the settings given if they fit, and every other address keeps the format stored for it |
| TableContents.RowsShowTheirRegisters | app-lib/models/RegisterTableModel.cpp:277-315 | a row shows the registers at its own addresses |
| TableContents.BitsHaveTheirRows | app-lib/models/RegisterTableModel.cpp:277-293 | after any sequence of calls a bit type has one row for each bit last set, at its address |
| TableContents.ChangesAreAnnounced | app-lib/models/RegisterTableModel.cpp:68-275 | for every call: without an announced reset the rows stay and each row that shows something else is announced; changes of staleness and type are announced, and only they |
| TableContents.ResetsIff | app-lib/models/RegisterTableModel.cpp:79-111 | a reset is announced if and only if values come in another number or place, a format is edited or the type changes |
| TableContents.BitRowsAreTight | app-lib/models/RegisterTableModel.cpp:113-148 | both ends of announced bit rows have changed |
| TableContents.CommittingWritesWhatIsHeld | app-lib/models/RegisterTableModel.cpp:150-165 | committing what a row shows requests one write for each of its addresses, of the register held there |
| TableContents.CommittedTextIsWritten | app-lib/models/RegisterTableModel.cpp:150-165 | a committed text writes, at consecutive addresses from its row's on, the registers it is read as, and nothing exactly if there is no such row, its type is a bit type or the text cannot be read |
| TableContents.SwitchingWritesTheCoil | app-lib/models/RegisterTableModel.cpp:167-175 | switching a row writes the coil at its place, and only coils are written |
| RegisterTableObject.RegisterTableModel.SetRegisters | app-lib/models/RegisterTableModel.cpp:68-111 | diff in place and announce, or lay out anew |
| RegisterTableObject.RegisterTableModel.SetBits | app-lib/models/RegisterTableModel.cpp:113-148 | the same for bits |
| RegisterTableObject.RegisterTableModel.SetFormatAt | app-lib/models/RegisterTableModel.cpp:202-223 | the format is kept by the row's address and the rows laid out anew |
| RegisterTableObject.RegisterTableModel.SetRegisterType | app-lib/models/RegisterTableModel.cpp:258-275 | a new type clears values and formats |
| RegisterTableObject.RegisterTableModel.SetValueAt | app-lib/models/RegisterTableModel.cpp:150-165 | a text that parses requests one write per register, and any other text none |
| RegisterTableObject.RegisterTableModel.SetBitAt | app-lib/models/RegisterTableModel.cpp:167-175 | only coils can be written |
| RegisterTableObject.RegisterTableModel.RebuildLogicalRows | app-lib/models/RegisterTableModel.cpp:277-315 | the greedy loop builds rows and index |
| RegisterTableObject.RegisterTableModel.Perform | app-lib/models/RegisterTableModel.cpp:68-275 | every call keeps rows and index those of the values, and does to the table what its function says, so the results on histories are the object's |
| Session.RecoveriesMatchLosses | app-lib/ConnectionController.cpp:418-486 | in every run recoveries never exceed losses, and a lost connection means a loss without its recovery |
| Session.OneLossCountsOnce | app-lib/ConnectionController.cpp:445-486 | one loss, reported in whatever mixture of errors and disconnects, is announced once |
| Session.DisconnectIsFinalIff | app-lib/ConnectionController.cpp:198-218 | after a disconnect the transport is never opened before the user connects, if and only if no attempt was under way or closing reported its end |
| Session.EstablishedDisconnectIsFinal | app-lib/ConnectionController.cpp:198-210 | so in every run a disconnect from an established connection is final |
| Session.GivingUpWhileConnectingReopens | core/transport/TcpTransport.cpp:38-55 | connecting and giving up before the outcome is known: the attempt succeeds, its connection closes, and the retry opens the transport again |
| Session.LossThenRecoveryResumes | app-lib/ConnectionController.cpp:418-486 | after a loss while polling and any number of failed retries, recovery polls again in the same mode, with one loss and one recovery announced |
| Session.UneditedRunsResumeTheSame | app-lib/ConnectionController.cpp:220-249 | at the end of any run without a change of unit or favorites, a loss and a recovery resume the very targets polled |
| Session.RegistersResumeTheSameIff | app-lib/ConnectionController.cpp:220-237 | in register mode, in every run, they are the same if and only if the unit set at the loss is that of the target polled |
| Favorites.BuildPollTargets | app-lib/models/FavoritesModel.cpp:216-229 | the loop builds one target for each entry, for the unit given |
| Favorites.SameTargetsIff | app-lib/models/FavoritesModel.cpp:216-229 | two lists give the same targets if and only if they name the same registers in the same order, and for the same unit unless they are empty |
| Favorites.EditKeepsTargetsIff | app-lib/models/FavoritesModel.cpp:83-199 | an edit keeps the targets if and only if it misses the list, clears an empty one, or changes a format to one of the same span |
| Favorites.TargetsNameTheirEntries | app-lib/models/FavoritesModel.cpp:216-229 | target k is for the unit given, the type and address of entry k, and one value or, for a wide format of a register, two |
| Favorites.EditedEntries | app-lib/models/FavoritesModel.cpp:83-199 | where each entry of an edited list comes from: entries are appended, taken out in order, or changed in their format alone |
| Session.FavoritesResumeTheSameIff | app-lib/ConnectionController.cpp:237-249 | in favorites mode, in every run, they are the same if and only if the list still names the registers it named when polling began, and the unit is still the one set then unless the list is empty |
| Session.OneEditResumesTheSameIff | app-lib/models/FavoritesModel.cpp:83-199 | after one edit of the polled list, a loss and a recovery resume the same targets exactly for those edits |
| Session.UnitChangeResumesElsewhere | app-lib/ConnectionController.cpp:133-139 | polling unit 1, then setting unit 2: the recovery polls unit 2 |
| Session.EditedFavoritesResumeDifferently | app-lib/models/FavoritesModel.cpp:182-199 | the one entry polled is given a format of two registers: the recovery polls two registers instead of one |
| SessionStates.FailedIff | app-lib/ConnectionController.cpp:463-486 | in every run a session has failed if and only if an error was reported with no connection established or lost, or at once by a call to connect, and nothing was started or ended since |
| SessionStates.ConnectingIff | app-lib/ConnectionController.cpp:191-196 | it is connecting if and only if the user connected without an error at once, and since then came no error, no success and no other such call |
| SessionStates.ConnectedIff | app-lib/ConnectionController.cpp:418-443 | it is connected if and only if a connection came up and was neither lost nor ended since |
| SessionStates.LostIff | app-lib/ConnectionController.cpp:445-461 | the connection is lost if and only if it was reported gone when established, and neither came back nor was given up or started anew since |
| SessionStates.DisconnectedIff | app-lib/ConnectionController.cpp:198-210 | it is disconnected if and only if from the beginning, or since the user disconnected, nothing was started and no error reported |
| SessionStates.ErrorsFailUnlessEstablished | app-lib/ConnectionController.cpp:463-486 | in every run an error takes a connected or lost session to lost, and any other to failed |
| SessionStates.QuietAfterDisconnect | app-lib/ConnectionController.cpp:198-210 | after a disconnect nothing polls before the user asks for it, whatever the transport does |
| SessionStates.ConnectingForgets | app-lib/ConnectionController.cpp:191-196 | a call to connect resumes nothing of what was polled before |
| SessionStates.LossesAreRetried | app-lib/ConnectionController.cpp:445-486 | in every run a lost connection is being retried or has its retry timer armed, and only a lost one is marked for resuming |
| SessionStates.RetryTimerNext | app-lib/ConnectionController.cpp:191-218 | what every event does to the retry timer: losses of an established connection arm it, firing spends it, success and disconnecting stop it |
| SessionStates.StopIsFinalIff | app-lib/ConnectionController.cpp:251-257 | in every run a stop is final if and only if polling is not marked for resuming |
| SessionStates.StopWhileLostIsUndone | app-lib/ConnectionController.cpp:424-443 | a polled connection is lost, the user stops polling, the retry succeeds: it polls |
| SessionStates.PollsWhatWasAsked | app-lib/ConnectionController.cpp:220-235 | in every run, in register mode, the one target polled has the type, address and quantity last asked for, the numbers cut to 16 bits |
| SessionStates.TransportFollowsCalls | app-lib/ConnectionController.cpp:191-218 | in every run the transport is opened once for each connect and each retry of a lost connection, and closed once for each disconnect |
| SessionObject.SessionController.ConnectToDevice | app-lib/ConnectionController.cpp:191-196 | connecting forgets any resume and opens the transport |
| SessionObject.SessionController.DisconnectFromDevice | app-lib/ConnectionController.cpp:198-210 | disconnecting stops everything, whatever closing reports meanwhile |
| SessionObject.SessionController.HandleReconnectTimeout | app-lib/ConnectionController.cpp:212-218 | the single-shot timer is spent and a retry begins |
| SessionObject.SessionController.BeginReconnectAttempt | app-lib/ConnectionController.cpp:212-218 | a retry opens the transport only while the connection is lost |
| SessionObject.SessionController.StartPolling | app-lib/ConnectionController.cpp:220-249 | one target from the parameters, which are remembered |
| SessionObject.SessionController.HandleTransportConnectionStateChanged | app-lib/ConnectionController.cpp:418-461 | coming up restores and resumes; going down loses and arms the retry |
| SessionObject.SessionController.HandleTransportError | app-lib/ConnectionController.cpp:463-486 | an error on an established connection is a loss, while lost a retry, and otherwise a failure |
| SessionObject.SessionController.Perform | app-lib/ConnectionController.cpp:191-257 | for every event the object does to its state what the step function says, so the results on runs are the object's |

## Left out

- ApplyPlanResponse: a word reply that is too short makes the program read behind the end of the decoded list, which is undefined; the model reads zero there, and ReplyLengths says exactly which replies lead to it.
- SetCoalescingOptions: in runs it happens only while stopped, because the program rebuilds the plans under requests that are in flight without giving them a new generation.
- WindowRespected: like all counting results it is about plan lists that are not empty; retargeting a running engine to no targets leaves the counters as they were until the next non-empty retarget.
- OldRepliesChangeNothing: holds while the old request is among the last 65536 sent, since ids have 16 bits; over RTU, where replies carry no id, it is not claimed.
- RtuPairsInOrder: attribution of late replies over RTU after a timeout or a cancel, where matching by position misattributes them.
- ChunkingDoesNotMatter: is about streams of frames that say where they end; after a non-zero protocol id, a declared length of zero or an unknown RTU function code the program does not find its way back.
- ParseUndoesFormat: Float32 and scaled values, whose printed digits round; printing of reals, float bit patterns and texts other than plain integers are parameters, ScaledShowAndReadBack says what follows where they are exact, and the fuzzy comparison with the default scaling is exact.
- DisconnectIsFinalIff: is about one transport; that an attempt under way outlives a graceful close follows Qt's sockets, which are not part of this model; whether disconnecting announces a loss depends on what closing reports and is not claimed.
- SetRegisters: calls under a bit type that differ from the values shown at a place the bit index does not reach, where the program reads behind the index; word tables are always safe, and the program's own callers set registers only for them.
- CyclesEnd: counts replies and timeouts; that deadlines pass in time is up to the environment, and NeverStalls says that one is always armed.
- UpdatesAreFresh: speaks of the answer the manager has matched with a request; over TCP that is a reply to this very request as ReplyMatchesItsRequest says, over RTU it is the next reply that came.
- ExactCoverage: needs positive ceilings below 65536, since a ceiling of zero makes the split loop run for ever.
- The list sorts of the planner are modelled as functions that return a sorted permutation, the stable one keeping equal starts in order.
- The transports, their inter-frame pauses and the reconnect of the manager to another transport: an abstract transport takes frames and delivers bytes.
- Timer lengths, `setIntervalMs`, `setTimeoutMs` and the order in which deadlines pass: the environment chooses what expires.
- The log of raw frames, error texts and the translation of addresses for display.
- Poll interval, connection parameters and other plain properties of the controller; its forwarding of updates to the favorites model, and all of that model but the registers its entries name.
- Importers, tag database, themes, dialogs, session logging and sparklines.
