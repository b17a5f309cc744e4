# EnerSentry: a verified model of the wire path, control, alarms and data hub

EnerSentry is a Modbus monitoring host for battery storage (`ens_app`) with a slave simulator
(`device_simulator`). This project models the parts in which its guarantees are made and proves them for all
inputs, all runs and, where threads meet, all interleavings.

- **Wire path** (`Bytes`, `Crc16`, `Framing`, `Accumulator`, `Noise`, `ModbusFrame`, `Mbap`, `SlaveValues`,
  `RegisterBank`, `WirePath`, `GeneratorTicks`). Both ends are modelled: request builder, 4 KB ring with
  resynchronisation and check sum, response parsers, MBAP codec, the dispatcher for FC01-06, 0F and 10, and
  the copy-on-write register bank. The main results go all the way round: a request built on the host,
  served by the slave, framed, cut into arbitrary chunks, re-assembled and parsed tells the host exactly the
  slave's cells or exactly the exception the range checks dictate, and a write followed by a read returns
  what was written, unless a data tick of the simulator comes between. Frame layouts and exception codes are
  those of the MODBUS Application Protocol V1.1b3 (sections 6.1-6.6, 6.11, 6.12 and 7), MODBUS Messaging on
  TCP/IP V1.0b (section 3.1.3) and MODBUS over Serial Line V1.02 (sections 2.5.1 and 6.2.2), as the code
  implements them.
- **Transaction pairing** (`Pairing`, `Engine`, `Reconnect`). The in-flight table as a function of the
  history of registrations, answers and disconnects; ring and table together across a disconnect.
- **Read planning and polling** (`Planner`, `Polling`, `PollRuns`, `PointDecoding`, `PolledValues`). The
  greedy planner covers every enabled point once and uses the fewest possible gap-free reads; a poll,
  followed from the request through pairing and slave to the samples, gives every point the value that the
  slave shows; over whole runs, when the response that ends a poll is its own and when polling stands still.
- **Select before operate** (`SboProtocol`, `SboTraces`, `SboStateMachine`). Any number of machines that
  share one lock: mutual exclusion, which Selects are accepted, commands only as selected and once, from the
  inputs to the signals, timers alone return every machine to idle, which acknowledgements count, which
  locks are never given back.
- **Alarms** (`Storm`, `AlarmRules`, `AlarmTiming`, `AlarmMerging`, `AlarmSignals`, `AlarmEngine`). Every
  alarm and recovery signalled, traced to its sample, its rule and the alarm it ends; hysteresis, on- and
  off-delays, suppression, reload and storm merging over whole runs.
- **Data hub** (`RingBufferSteps`, `RingBuffer`, `DataBus`, `DownSampler`, `HistoryFiles`, `HistoryStore`,
  `AlarmQuery`). The lock-free ring under every interleaving, swap-remove subscriptions, window aggregation,
  bounded write buffer, month-partitioned query with the limit pushed down.

Objects that the code updates in place are classes with the code's fields, and its loops are loops; each
method is proved against a definition on plain values (`Framing`, `SlaveValues`, `Pairing`, `SboProtocol`,
`AlarmRules`, `RingBufferSteps` and so on), and the theorems over runs are proved about those definitions.

## Where the code does less than its comments say

These are theorems of the model, with the exact condition where there is one.

- The storm ring holds 128 times, so a threshold of 128 or more can never be exceeded; the default of 200
  never merges anything (`Storm.DecisionExact`, `AlarmRules.DefaultNeverStorms`).
- A sample below the recovery threshold does not cancel a running on-delay, nor the reverse; only a value
  between the thresholds does (`AlarmTiming.OnDelaySurvives`, `AlarmTiming.OffDelaySurvives`, with the run
  `AlarmTiming.OppositeSideRun`).
- A point that was never raised, or not since its rule changed, is suppressed as if it had been raised at
  clock zero (`AlarmTiming.FirstRaise`); a suppressed raise is lost until the point has fully recovered or
  lost its rule (`AlarmTiming.LostUntilRecovered`).
- The expiry of a point's suppression is not kept: it ends only by a later request
  (`AlarmTiming.SuppressedExactly`).
- Nothing starts the flush timer. An alarm that is not critical and is raised in storm mode is merged and
  never leaves the engine (`AlarmMerging.AnnouncedExactly`, `AlarmMerging.MergedForGood`, with the run
  `AlarmMerging.SilencedRun`), and storm mode ends only with a sample (`AlarmMerging.StormModeMoves`).
- A key is locked for good, under a rejected id, if and only if a Select for it, while it was free, reached
  a busy machine (`SboProtocol.StrandedExactly`, `SboProtocol.StrandedForEver`, with the run
  `SboProtocol.StrandingRun`); a taken key has an armed holder exactly when it is not one of these
  (`SboProtocol.TakenExactly`).
- A link found down after the command went out makes the machine refuse its own command's acknowledgement
  and accept an empty id (`SboProtocol.AckCounts`, `SboProtocol.ForgetfulExactly`).
- A disconnect leaves an unfinished frame buffered: the next connection's frames come out exactly if and
  only if there is none (`Reconnect.CleanExactly`), and a stitched frame can pass for an answer
  (`Reconnect.StitchedRun`).
- A frame that the channel refuses keeps its id (`Pairing.HeldUntilAnswered`).
- A poll can be ended by an earlier poll's answer, of the same slave and function code, if and only if one
  is still unanswered (`PollRuns.TakesOwnExactly`, `PollRuns.StrayExactly`, with the run
  `PollRuns.MalformedRun`). A poll whose answer is lost stops all polling until a malformed frame or a
  reset, which the application makes on a disconnect only: there is no time-out
  (`PollRuns.OutstandingExactly`, `PollRuns.SilentWhileOutstanding`).
- The data tick publishes the generator's own image: an acknowledged write is read back if and only if no
  tick of its slave lies between, or the tick happens to carry the same values
  (`GeneratorTicks.WriteSurvives`).
- Stray bytes cost one received chunk each before the next frame comes out (`Noise.NoiseCosts`), and over
  TCP three of them can make the stream wait for bytes that never come (`Noise.StrayBytes`).
- A consumer exactly one ring behind does not skip and can be overtaken while it reads
  (`RingBufferSteps.OvertakenRead`); extraction of a time range is exact only until the ring wraps
  (`RingBuffers.ExtractionExact`).
- Addresses wrap at 65536: a slave with more registers answers an accepted read past the end with register 0
  (`WirePath.WindowExact`, `WirePath.WindowWraps`).
- Order CDAB writes nothing for a single register (`PointDecoding.AllWritten`,
  `PointDecoding.SingleRegisterLost`); a Bool point in a register looks at one of its bytes
  (`PointDecoding.BoolSeesOneByte`).
- An alarm batch is filed in the month of its first record (`AlarmQuery.BatchPlacement`,
  `AlarmQuery.MisfiledIsHidden`), and a query range that touches the month of the epoch, or a month after
  2100, skips it (`AlarmQuery.WalkExact`).
- A window is rolled up twice if and only if a reading comes for it after its roll-up while it is not open
  (`DownSampling.RepeatsExactly`, `DownSampling.TwiceExactly`, with the run `DownSampling.LateRepeats`). The
  second record has the key of the first, so its month refuses the whole batch it comes in, and the drop
  count does not show it (`HistoryStores.LateReadingsRefused`). A window with more than 65535 samples
  reports its count modulo 65536 (`DownSampling.ReportedConserved`).
- `popFront` beyond the buffered bytes leaves read and write position apart
  (`StreamAccumulator.Accumulator.PopFront`); no caller does that.

## Model

| member | source | states |
|---|---|---|
| `Crc16.TableEntry` | apps/ens_app/src/protocol/Crc16.h:23-29 | the entry for a byte is what eight shifts of the reflected polynomial make of it |
| `Crc16.BuildTable` | apps/ens_app/src/protocol/Crc16.h:34-39 | all 256 entries, each the shift of its index |
| `Crc16.TableStep` | apps/ens_app/src/protocol/Crc16.h:45-50 | one table look-up does what exclusive or and eight shifts do, for every check sum and byte |
| `Crc16.Crc16Modbus` | apps/device_simulator/src/core/crc16.cpp:12-33 | the table-driven check sum of host and simulator is the bit-by-bit check sum on every byte sequence |
| `Crc16.CheckValue` | apps/ens_app/src/protocol/Crc16.h:23-50 | the worked example of MODBUS over Serial Line V1.02, section 6.2.2: 02 07 is sealed with 41 12 |
| `Crc16.SealVerifies` | apps/ens_app/src/protocol/Crc16.h:54-60 | a body followed by its check sum, low byte first, verifies |
| `Crc16.ShiftsInjective` | apps/ens_app/src/protocol/Crc16.h:23-29 | any number of shifts keeps different check sums different |
| `Crc16.StepInjective` | apps/ens_app/src/protocol/Crc16.h:45-50 | an update step is injective in the byte for a fixed check sum and in the check sum for a fixed byte |
| `Crc16.OneByteChangesCrc` | apps/ens_app/src/protocol/Crc16.h:45-50 | two sequences of one length that differ in exactly one byte have different check sums, whatever their length |
| `Crc16.SingleByteErrorDetected` | apps/ens_app/src/protocol/Crc16.h:54-60 | a frame that differs from a verifying one in exactly one byte, wherever it is, does not verify |
| `StreamAccumulator.Accumulator.Append` | apps/ens_app/src/protocol/ModbusStreamAccumulator.h:20-30 | for data of any length, also beyond a ringful and across the wrap, the buffered bytes become the last 4096 of old bytes plus data |
| `StreamAccumulator.Accumulator.Advance` | apps/ens_app/src/protocol/ModbusStreamAccumulator.h:68-71 | moving by no more than is buffered drops exactly that many oldest bytes |
| `StreamAccumulator.Accumulator.PopFront` | apps/ens_app/src/protocol/ModbusStreamAccumulator.h:36-41 | drops the oldest bytes and counts them, or empties everything once the hunt budget is spent; read and write position stay consistent if and only if no more is dropped than is buffered, or the excess is a whole ring, or the budget clears the ring |
| `StreamAccumulator.Accumulator.Clear` | apps/ens_app/src/protocol/ModbusStreamAccumulator.h:46-50 | back to the empty queue with both counters zero |
| `StreamAccumulator.Accumulator.Pop` | apps/ens_app/src/protocol/ModbusStreamAccumulator.h:61-66 | hands out exactly the oldest bytes and leaves the rest |
| `StreamAccumulator.Accumulator.CrcValid` | apps/ens_app/src/protocol/ModbusStreamAccumulator.cpp:10-22 | the bit loop over the ring, across the wrap, decides the same as the host's check-sum verification of those bytes |
| `StreamAccumulator.Accumulator.ExpectedLength` | apps/ens_app/src/protocol/ModbusStreamAccumulator.cpp:24-82 | the header alone decides between waiting, taking 5 to 4096 bytes, and resynchronising |
| `StreamAccumulator.Accumulator.TryExtractFrame` | apps/ens_app/src/protocol/ModbusStreamAccumulator.cpp:24-82 | one attempt on the ring does on the byte queue what the framing rules say: returns and removes a frame, waits, slides one byte, or clears; the stale eighth byte is the only other input |
| `StreamAccumulator.Accumulator.Receive` | apps/ens_app/src/protocol/ModbusEngine.cpp:75-95 | append and extract until an attempt fails is one drain of the byte queue |
| `Framing.GoodIsTaken` | apps/ens_app/src/protocol/ModbusStreamAccumulator.cpp:24-82 | a complete well-formed frame at the front is taken whole, whatever follows it and whatever stale byte lies behind |
| `Framing.PrefixWaits` | apps/ens_app/src/protocol/ModbusStreamAccumulator.cpp:25-30 | every strict prefix of a well-formed frame is waited on; the stale byte the TCP branch looks at never matters |
| `Framing.DrainDelivers` | apps/ens_app/src/protocol/ModbusEngine.cpp:80-95 | draining any prefix of a stream of well-formed frames delivers exactly the complete ones in order, slides nothing and keeps the unfinished prefix |
| `Framing.Reassembly` | apps/ens_app/src/protocol/ModbusEngine.cpp:80-95 | for every list of well-formed frames and every cutting into chunks that never overfills the ring: exactly the completed frames in order, no byte slid, no loss of synchronisation counted, the unfinished prefix buffered |
| `Framing.EveryFrameDelivered` | apps/ens_app/src/protocol/ModbusEngine.cpp:80-95 | frames that arrive completely at an empty ring, in any pieces, are all delivered and nothing stays buffered |
| `Framing.SmallChunksNeverOverfill` | apps/ens_app/src/protocol/ModbusStreamAccumulator.h:20-30 | with frames of at most m bytes, chunks of at most 4097 - m bytes never overfill the ring |
| `Noise.NoiseCosts` | apps/ens_app/src/protocol/ModbusEngine.cpp:80-95 | stray bytes in front of a good frame, each refused when its turn comes, cost exactly one chunk each: so many chunks deliver nothing and slide one byte, the next delivers the frame first |
| `Noise.ZerosRefused` | apps/ens_app/src/protocol/ModbusStreamAccumulator.cpp:24-82 | on a serial line any number of zero bytes in front of a reply is refused, unless the unit id reads like a function code |
| `Noise.StrayBytes` | apps/ens_app/src/protocol/ModbusStreamAccumulator.cpp:24-82 | over TCP one or two stray bytes in front of a short reply are refused; three are if and only if the low byte of the transaction id is 0 or above 15, and otherwise the stream waits for as many bytes as the id reads as a length |
| `ModbusFrame.BuildRequest` | apps/ens_app/src/protocol/ModbusFrame.cpp:64-139 | the bytes pushed one by one are the specified request: big-endian fields, quantity-derived byte counts, MBAP length or check sum; refused requests give nothing |
| `ModbusFrame.ReadWords` | apps/ens_app/src/protocol/ModbusFrame.cpp:143-203 | register values are the big-endian words of the data bytes |
| `ModbusFrame.ParseTcpResponse` | apps/ens_app/src/protocol/ModbusFrame.cpp:143-203 | the step-by-step parser yields exactly the parse of the frame, or nothing on every malformed one |
| `ModbusFrame.ParseRtuResponse` | apps/ens_app/src/protocol/ModbusFrame.cpp:207-247 | the same for RTU, check sum included; FC05/06 report the value field where TCP reports the address |
| `Bytes.WordInverse` | apps/ens_app/src/protocol/ModbusFrame.cpp:33-41 | splitting a word into two bytes and joining them are inverse |
| `MbapCodec.EmitMbap` | apps/device_simulator/src/core/mbap.cpp:20-28 | writes the seven header bytes in place and touches nothing behind them |
| `MbapCodec.HeaderRoundTrip` | apps/device_simulator/src/core/mbap.cpp:7-28 | a protocol-0 header is read back whatever follows it; any other protocol is refused |
| `MbapCodec.ParsedIsEmitted` | apps/device_simulator/src/core/mbap.cpp:7-28 | whatever parses is the emission of what it parses to |
| `SlaveValues.WriteWordsAt` | apps/device_simulator/src/sim/modbus_dispatch.cpp:188-208 | a register range write changes exactly the addressed registers that exist, around the 16-bit address space |
| `SlaveValues.WriteBitsAt` | apps/device_simulator/src/sim/modbus_dispatch.cpp:165-185 | a coil range write changes exactly the addressed coils that exist |
| `SlaveValues.PackRoundTrip` | apps/device_simulator/src/sim/modbus_dispatch.cpp:60-78 | packed coils unpack to the same bits |
| `SlaveValues.PackedIsUnique` | apps/device_simulator/src/sim/modbus_dispatch.cpp:60-78 | the packed bytes are the only ones with those bits and nothing else set, padding included |
| `SlaveValues.RejectedOrReadKeeps` | apps/device_simulator/src/sim/modbus_dispatch.cpp:50-213 | every rejected request and every read leaves all four register images as they were |
| `RegisterBanks.SlaveRegset.Allocate` | apps/device_simulator/src/sim/register_bank.h:98-112 | four separate zeroed images of the requested sizes, coils packed eight to a byte |
| `RegisterBanks.SetWord` | apps/device_simulator/src/sim/register_bank.h:51-66 | changes one register if it exists and nothing otherwise |
| `RegisterBanks.SetBit` | apps/device_simulator/src/sim/modbus_dispatch.cpp:33-39 | changes one packed bit if it exists and nothing else |
| `RegisterBanks.PackCells` | apps/device_simulator/src/sim/modbus_dispatch.cpp:60-78 | setting single bits of a zeroed answer gives the packed cells |
| `RegisterBanks.BitsResponse` | apps/device_simulator/src/sim/modbus_dispatch.cpp:60-100 | coil and discrete reads answer as specified or with the dictated exception, and change nothing |
| `RegisterBanks.WordsResponse` | apps/device_simulator/src/sim/modbus_dispatch.cpp:102-134 | holding and input reads likewise |
| `RegisterBanks.StoreBits` | apps/device_simulator/src/sim/modbus_dispatch.cpp:165-185 | the write loop over packed request bits stores exactly those bits in the addressed range |
| `RegisterBanks.StoreWords` | apps/device_simulator/src/sim/modbus_dispatch.cpp:188-208 | the write loop stores exactly the carried words in the addressed range |
| `RegisterBanks.WriteSingleCoil` | apps/device_simulator/src/sim/modbus_dispatch.cpp:136-149 | stores FF00/0000 and echoes, or refuses without touching the images |
| `RegisterBanks.WriteSingleRegister` | apps/device_simulator/src/sim/modbus_dispatch.cpp:152-162 | stores and echoes, or refuses without touching the images |
| `RegisterBanks.WriteMultipleCoils` | apps/device_simulator/src/sim/modbus_dispatch.cpp:165-185 | checks quantity, byte count and range before touching anything, then stores all |
| `RegisterBanks.WriteMultipleRegisters` | apps/device_simulator/src/sim/modbus_dispatch.cpp:188-208 | checks quantity, byte count and range before touching anything, then stores all |
| `RegisterBanks.DispatchFull` | apps/device_simulator/src/sim/modbus_dispatch.cpp:50-213 | the dispatcher on arrays gives the reply and the new register contents of its value-level definition; a non-writable dispatch changes nothing |
| `RegisterBanks.RegisterBank.Publish` | apps/device_simulator/src/sim/register_bank.cpp:25-28 | replaces one slave's snapshot and no other |
| `RegisterBanks.RegisterBank.WriteHolding` | apps/device_simulator/src/sim/register_bank.cpp:66-74 | copy, modify, publish: one register of one slave differs, existing snapshots keep their contents |
| `RegisterBanks.RegisterBank.ServeRead` | apps/device_simulator/src/sim/modbus_dispatch.cpp:215-247 | a read leaves the bank and its snapshots as they were |
| `RegisterBanks.RegisterBank.ServeWrite` | apps/device_simulator/src/sim/modbus_dispatch.cpp:215-247 | a successful write replaces the slave's snapshot by an updated copy; a refused one replaces nothing |
| `RegisterBanks.RegisterBank.DispatchBySlaveId` | apps/device_simulator/src/sim/modbus_dispatch.cpp:215-247 | routing by unit id; only a successful write replaces anything, and no register set that existed before is ever modified |
| `WirePath.RequestArrives` | apps/device_simulator/src/sim/modbus_tcp_server.cpp:215-265 | the serial server, and the TCP server up to its PDU limit, hand the PDU the host built, unchanged, to the addressed slave and frame its answer |
| `WirePath.ReplyUnderstood` | apps/ens_app/src/protocol/ModbusFrame.cpp:143-247 | every reply a slave may send, framed for either transport, is a frame the accumulator takes and parses to its meaning |
| `WirePath.ReadReplyMeans` | apps/device_simulator/src/sim/modbus_dispatch.cpp:50-133 | a slave's answer to a read PDU tells the host exactly the addressed cells, or the exception the range checks dictate |
| `WirePath.ReadEndToEnd` | apps/device_simulator/src/sim/modbus_dispatch.cpp:50-133 | for every bank and every FC01-04 request: build, serve, frame, parse gives exactly the slave's cells or exactly the dictated exception, over TCP and RTU, bank untouched |
| `WirePath.ReadsThroughTheStream` | apps/ens_app/src/protocol/ModbusEngine.cpp:75-130 | the replies to any series of reads, cut anywhere into chunks of at most 3833 bytes, come out of the accumulator one per request, in order, each with the right contents |
| `WirePath.UnknownSlave` | apps/device_simulator/src/sim/modbus_slave_emulator.cpp:100-110 | a slave that is not listed or has no registers answers exception 1 and the bank stays as it was |
| `WirePath.WindowExact` | apps/device_simulator/src/sim/modbus_dispatch.cpp:102-116 | for an accepted range the answer is the plain window of registers, for every content, if and only if the range ends within the 16-bit address space |
| `WirePath.WindowWraps` | apps/device_simulator/src/sim/point_generator.cpp:48-57 | a reachable register count for which an accepted read wraps to register 0 |
| `WirePath.WriteRequestBuilt` | apps/ens_app/src/protocol/ModbusFrame.cpp:80-125 | within the slave's limits every write the host builds is well-formed, byte counts included |
| `WirePath.WriteDispatch` | apps/device_simulator/src/sim/modbus_dispatch.cpp:136-208 | an admissible write in range changes exactly the addressed cells to the carried values and is echoed; out of range it gets exception 2 and changes nothing |
| `WirePath.WriteEndToEnd` | apps/device_simulator/src/sim/modbus_dispatch.cpp:136-247 | the same through both wires: the host is told the truth, other cells and all other slaves are unchanged |
| `WirePath.WriteThenRead` | apps/device_simulator/src/sim/modbus_dispatch.cpp:50-247 | after an acknowledged FC05/06/0F/10 the next read of that range, with no tick of the generator between, gives the host exactly what it wrote |
| `GeneratorTicks.WriteSurvives` | apps/device_simulator/src/sim/point_generator.cpp:99-179 | with any ticks between: the host is told what it wrote if and only if no tick of that slave lies between or the last one publishes the same values |
| `Pairing.LowestFree` | apps/ens_app/src/protocol/TransactionIdAllocator.h:25-34 | the smallest id of 1..65535 that is not in use, 0 exactly when all are |
| `Pairing.RunAgrees` | apps/ens_app/src/protocol/ModbusEngine.cpp:50-138 | in every run: an id is allocated exactly while it is in the table, the table is exactly the unanswered registrations, and every delivered response carries the link and slave of the unanswered request that holds its id |
| `Pairing.AnsweredAtMostOnce` | apps/ens_app/src/protocol/ModbusEngine.cpp:101-122 | between two deliveries under one id that id was registered again |
| `Pairing.NothingSurvivesLinkDown` | apps/ens_app/src/protocol/ModbusEngine.cpp:132-138 | after a disconnect every response is spurious until its id is registered again |
| `Pairing.RouteTells` | apps/ens_app/src/protocol/ModbusEngine.cpp:97-130 | over every run what an arriving frame signals: over TCP a reply to an unanswered request goes on with that request's link and slave, any other is spurious; on a serial line every reply goes on with its own slave; an exception is reported after it; what does not parse is malformed |
| `Pairing.RoutedInOrder` | apps/ens_app/src/protocol/ModbusEngine.cpp:80-95 | the frames of a chunk are routed one after the other, none skipped, and signalled in that order |
| `ProtocolEngine.TransactionIdAllocator.Allocate` | apps/ens_app/src/protocol/TransactionIdAllocator.h:25-34 | the bitmap search takes the lowest free id and marks it, or returns 0 |
| `ProtocolEngine.TransactionIdAllocator.Release` | apps/ens_app/src/protocol/TransactionIdAllocator.h:36-39 | frees one id, ignoring 0 |
| `ProtocolEngine.TransactionIdAllocator.ClearInFlight` | apps/ens_app/src/protocol/TransactionIdAllocator.h:41-41 | frees all ids |
| `ProtocolEngine.ModbusEngine.WriteRequest` | apps/ens_app/src/protocol/ModbusEngine.cpp:50-73 | draws the lowest free id and registers it; the registration is undone when no frame can be built, and stays when the channel refuses the frame |
| `Pairing.HeldUntilAnswered` | apps/ens_app/src/protocol/ModbusEngine.cpp:50-73 | in every run a registration stands, and its id is taken, until the id is answered or the link goes down: for good when the channel refused the frame and the link stays up |
| `ProtocolEngine.ModbusEngine.RouteFrame` | apps/ens_app/src/protocol/ModbusEngine.cpp:97-130 | a frame is parsed, paired and signalled as the pairing table says |
| `ProtocolEngine.ModbusEngine.OnBytesReceived` | apps/ens_app/src/protocol/ModbusEngine.cpp:75-130 | a chunk is drained by the framing rules and every completed frame is routed, in order |
| `ProtocolEngine.ModbusEngine.OnConnectionChanged` | apps/ens_app/src/protocol/ModbusEngine.cpp:132-138 | going down empties the table and frees every id; the bytes still buffered stay |
| `Reconnect.CleanExactly` | apps/ens_app/src/protocol/ModbusEngine.cpp:75-138 | in every run of chunks, requests and disconnects: the frames of the next connection come out one by one, for every traffic and every cutting of it, if and only if nothing is buffered when the link goes down |
| `Reconnect.StitchedRun` | apps/ens_app/src/protocol/ModbusEngine.cpp:75-138 | a run in which the beginning of an old reply, joined to the first bytes of a new one, is delivered as the answer to the new request, whose id is the same, with a value that was never read |
| `Planner.PlanGroup` | apps/ens_app/src/app/EnerSentryApp.cpp:254-289 | the greedy loop yields proper segments that hold the group's points in order, each started only at a gap or at the quantity limit |
| `Planner.BuildSegments` | apps/ens_app/src/app/EnerSentryApp.cpp:247-290 | the segments hold every enabled point as often as it occurs and no disabled one, are proper, and no two of them could be one read |
| `Planner.EveryPointPlannedOnce` | apps/ens_app/src/app/EnerSentryApp.cpp:247-290 | each enabled point lies in exactly one segment, wholly inside its range, with its slave and type; disabled points lie in none |
| `Planner.StartsApart` | apps/ens_app/src/app/EnerSentryApp.cpp:262-281 | no gap-free read within the limit holds the starting points of two segments of one group |
| `Planner.NoPlanIsSmaller` | apps/ens_app/src/app/EnerSentryApp.cpp:247-290 | any set of gap-free reads within the limits that holds every enabled point has at least as many reads as there are segments |
| `Planner.PlanIsSensible` | apps/ens_app/src/app/EnerSentryApp.cpp:247-290 | the planner's own segments are such reads, so the bound is met |
| `Polling.PollDriver.OnPollTick` | apps/ens_app/src/app/EnerSentryApp.cpp:116-144 | at most one request per tick, none while one is outstanding, segments in rotation |
| `Polling.PollDriver.OnResponseParsed` | apps/ens_app/src/app/EnerSentryApp.cpp:147-218 | a response whose link, slave and function code agree ends the outstanding poll, and no other does; unless it is an exception each point of the segment is then given its bit or its raw registers, or is counted as dropped |
| `Polling.PollDriver.OnFrameError` | apps/ens_app/src/app/EnerSentryApp.cpp:223-241 | a frame error ends the outstanding poll unless it is an exception or a spurious reply, and only under the poll's own link and slave or under slave 0; of what the engine emits that leaves malformed frames |
| `Polling.PollDriver.ResetPending` | apps/ens_app/src/app/EnerSentryApp.cpp:113-113 | the outstanding poll is forgotten, its position in the rotation kept |
| `Polling.PolledPointsToldTruth` | apps/ens_app/src/app/EnerSentryApp.cpp:173-218 | a planned segment answered under any transaction id: within the slave's registers every one of its points is told the truth and none is dropped; otherwise the answer is exception 2 and never 3 |
| `Polling.PollCycle` | apps/ens_app/src/app/EnerSentryApp.cpp:116-218 | request, id, frame, slave, reply, pairing and sampling in one: whenever the slave's reply comes back while its registration stands, the driver gets it with the segment's link and slave, and its points are told the truth |
| `Polling.SerialRead` | apps/ens_app/src/protocol/ModbusEngine.cpp:123-129 | every serial read of a known slave is served, framed, parsed and handed on with the slave's own address and contents, whatever is in flight |
| `Polling.LimitIsTheSlaves` | apps/device_simulator/src/sim/modbus_dispatch.cpp:60-134 | a segment is refused with exception 3 if and only if it is longer than the planner's limit |
| `PolledValues.PolledValue` | apps/ens_app/src/app/EnerSentryApp.cpp:116-218 | from the request to the engineering values: for every point of a polled segment, whenever the raw value the slave shows (a bit, one raw register for a float, a byte of a register for a Bool, an integer in a complete byte order) times the scale is an engineering value less the offset, that value is published |
| `PolledValues.TruthPublished` | apps/ens_app/src/protocol/PointTable.cpp:220-330 | a sample that holds the slave's cells is published as the engineering value those cells stand for |
| `PollRuns.TakesOwnExactly` | apps/ens_app/src/app/EnerSentryApp.cpp:147-161 | in every run, while a poll is outstanding: whatever response ends it answers that poll's own request, the one of the segment that is sampled, if and only if no earlier poll of that slave and function code is still unanswered |
| `PollRuns.StrayExactly` | apps/ens_app/src/app/EnerSentryApp.cpp:113-241 | in every run a poll is left unanswered if and only if it was at some point abandoned (refused by the channel, reset, ended by a malformed frame or by another request's answer) and since then neither its answer came nor the link went down |
| `PollRuns.TakesOwnInCleanRuns` | apps/ens_app/src/app/EnerSentryApp.cpp:147-161 | in a run where no poll was ever abandoned, every poll is ended by its own answer only |
| `PollRuns.MalformedRun` | apps/ens_app/src/app/EnerSentryApp.cpp:223-241 | a run of two segments of one slave and type in which a malformed frame ends the first poll and the first one's answer is taken for the second |
| `PollRuns.OutstandingExactly` | apps/ens_app/src/app/EnerSentryApp.cpp:116-241 | over every run a poll is outstanding if and only if some tick sent one and since then came no response that the driver took for it, no malformed frame and no reset: there is no time-out |
| `PollRuns.SilentWhileOutstanding` | apps/ens_app/src/app/EnerSentryApp.cpp:116-119 | until then no tick does anything: no request goes out and the rotation stands still |
| `PointDecoding.SourceInvolution` | apps/ens_app/src/protocol/PointTable.cpp:235-267 | each byte order is its own inverse on the positions it writes |
| `PointDecoding.AllWritten` | apps/ens_app/src/protocol/PointTable.cpp:240-253 | every output byte is written if and only if the order is not CDAB or the number of registers is even |
| `PointDecoding.ReassemblyDefinite` | apps/ens_app/src/protocol/PointTable.cpp:240-253 | the registers alone determine the bytes under the same condition and no other |
| `PointDecoding.LayoutRoundTrip` | apps/ens_app/src/protocol/PointTable.cpp:220-269 | bytes that a device lays out in an order are read back in it unchanged |
| `PointDecoding.OrderLaw` | apps/ens_app/src/protocol/PointTable.cpp:235-267 | register by register, for any number of them: ABCD as transmitted, BADC with the bytes of each exchanged, DCBA with all bytes reversed, CDAB with the halves exchanged and the last of an odd number not written |
| `PointDecoding.FourBytes` | apps/ens_app/src/protocol/PointTable.cpp:235-267 | two registers a b, c d read as a b c d, b a d c, c d a b and d c b a |
| `PointDecoding.ReassembleBytes` | apps/ens_app/src/protocol/PointTable.cpp:220-269 | the loops fill exactly the specified positions of the buffer, leave the rest, and refuse too many registers or too small a buffer |
| `PointDecoding.SwapHalves` | apps/ens_app/src/protocol/PointTable.cpp:240-253 | the CDAB loop exchanges the halves in place and leaves an odd last register unwritten |
| `PointDecoding.ValueRoundTrip` | apps/ens_app/src/protocol/PointTable.cpp:271-330 | an engineering value whose raw Int16, Uint16 or Int32 value is laid out in a complete byte order is decoded as itself |
| `PointDecoding.SingleRegisterLost` | apps/ens_app/src/protocol/PointTable.cpp:240-330 | every point of a one-register type in order CDAB decodes to raw zero whatever the register holds |
| `PointDecoding.BoolSeesOneByte` | apps/ens_app/src/protocol/PointTable.cpp:271-330 | a Bool point in a register is on if and only if the high byte is not zero (ABCD), the low byte is not zero (BADC, DCBA), and never in CDAB |
| `SboProtocol.ReachableInv` | apps/ens_app/src/business/SboStateMachine.cpp:54-220 | in every reachable state of any number of machines sharing one guard: every machine is Idle, or Armed with its timer and its own lock, or Executed with its timer; every bucket belongs to one armed machine or to a rejected probe |
| `SboProtocol.LockMeansArmed` | apps/ens_app/src/business/DeviceSboGuard.cpp:23-60 | a bucket carries a machine's own sequence id if and only if that machine is armed on that key |
| `SboProtocol.MutualExclusion` | apps/ens_app/src/business/DeviceSboGuard.cpp:23-47 | at most one machine is armed on a device register |
| `SboProtocol.TimersReturnToIdle` | apps/ens_app/src/business/SboStateMachine.cpp:190-220 | a machine that is not idle has the timer running that returns it to idle, and an armed one then gives back its lock |
| `SboProtocol.BusySelectProbes` | apps/ens_app/src/business/SboStateMachine.cpp:57-63 | a Select on a busy machine takes the lock under a rejected id exactly when the key is free, and moves no machine |
| `SboProtocol.StrandsExactly` | apps/ens_app/src/business/SboStateMachine.cpp:54-220 | one event leaves a key locked under a rejected id if and only if it already was, or the event is a Select for the free key on a busy machine |
| `SboProtocol.StrandedExactly` | apps/ens_app/src/business/SboStateMachine.cpp:54-220 | over every run a key is so locked if and only if a Select for it, while it was free, ever reached a busy machine |
| `SboProtocol.TakenExactly` | apps/ens_app/src/business/DeviceSboGuard.cpp:23-67 | in every reachable state a key has an occupant if and only if a machine is armed on it or it is stranded, never both |
| `SboProtocol.StrandingRun` | apps/ens_app/src/business/SboStateMachine.cpp:57-63 | the shortest such run: one machine, a Select and a second Select for another register |
| `SboProtocol.StrandedForEver` | apps/ens_app/src/business/SboStateMachine.cpp:57-63 | a lock under a rejected id is never released: no machine is ever armed on that key again |
| `SboTraces.CommandsExactly` | apps/ens_app/src/business/SboStateMachine.cpp:54-104 | over every run, from inputs to signals: an input sends a command if and only if it operates a sequence still armed, and then exactly one, with link, slave, register and value of the Select that armed it |
| `SboTraces.OncePerSelect` | apps/ens_app/src/business/SboStateMachine.cpp:89-104 | over every run one Select gives at most one command |
| `SboTraces.IdsUnique` | apps/ens_app/src/business/SboStateMachine.cpp:54-87 | over every run no two Selects, on whatever machines, are accepted under one id |
| `SboTraces.ArmedExactly` | apps/ens_app/src/business/SboStateMachine.cpp:54-209 | over every run a machine is armed under an id if and only if a Select on it was accepted under that id and since then it was neither operated nor cancelled under it, nor did its countdown end, nor was its link found down; it then holds that Select's command, operator, countdown (3 s in an emergency, else 5 s) and lock |
| `SboTraces.CountdownExactly` | apps/ens_app/src/business/SboStateMachine.cpp:132-141 | over every run the flapping countdown of a machine runs if and only if its link went down and neither came back nor was found down since |
| `SboTraces.SelectExactly` | apps/ens_app/src/business/SboStateMachine.cpp:54-87 | over every run a Select is accepted if and only if its machine has a guard and is at rest, and its key is neither held by an armed machine nor stranded; a refused one signals nothing |
| `SboTraces.EndIsTold` | apps/ens_app/src/business/SboStateMachine.cpp:163-209 | over every run a sequence that ends otherwise than by its command is reported as cleared with the reason (cancelled, timed out, link down), and its key is free again |
| `SboTraces.CompletionsExactly` | apps/ens_app/src/business/SboStateMachine.cpp:113-130 | over every run an input reports the end of a command if and only if its machine still executes one and the input is the acknowledgement it awaits or the end of the wait; success is reported for a positive acknowledgement only, and a refusal without a reason as unknown |
| `SboProtocol.CommandsLawful` | apps/ens_app/src/business/SboStateMachine.cpp:66-104 | over every run the history is in order: an emission has its own acceptance before it, and nothing went out or ended under its id before |
| `SboProtocol.EmittedOnce` | apps/ens_app/src/business/SboStateMachine.cpp:89-104 | before an emission its sequence id occurs only in its own acceptance: at most one emission per Select, none after cancel, time-out or abort |
| `SboProtocol.AckCounts` | apps/ens_app/src/business/SboStateMachine.cpp:113-130 | in every run an acknowledgement counts if and only if the machine is executed and the id is that of its last command, or the empty id once the command's own id has been lost |
| `SboProtocol.ForgetfulExactly` | apps/ens_app/src/business/SboStateMachine.cpp:163-209 | the id is lost if and only if the flapping countdown ended with the link down while the machine was executed, and it has been executed since |
| `SboMachines.SequenceSource.Draw` | apps/ens_app/src/business/SboStateMachine.cpp:54-66 | each draw gives the next number of one process-wide sequence, so no sequence id occurs twice |
| `SboMachines.DeviceSboGuard.TryAcquire` | apps/ens_app/src/business/DeviceSboGuard.cpp:23-47 | takes a free key, reports the holder of a taken one, changes no other key |
| `SboMachines.DeviceSboGuard.Release` | apps/ens_app/src/business/DeviceSboGuard.cpp:49-60 | frees the key only for the sequence id that holds it |
| `SboMachines.SboStateMachine.SubmitSelect` | apps/ens_app/src/business/SboStateMachine.cpp:54-87 | machine, lock and counter end as the protocol step says, in every state |
| `SboMachines.SboStateMachine.SubmitOperate` | apps/ens_app/src/business/SboStateMachine.cpp:89-104 | only the armed sequence's own id operates; the lock is given back on the way to Executed |
| `SboMachines.SboStateMachine.SubmitCancel` | apps/ens_app/src/business/SboStateMachine.cpp:106-111 | only the armed sequence's own id cancels |
| `SboMachines.SboStateMachine.ForceAbort` | apps/ens_app/src/business/SboStateMachine.cpp:163-184 | an armed machine ends idle with timers stopped and its lock given back; any other loses its sequence id, and the flapping countdown stops |
| `SboMachines.SboStateMachine.OnDeviceAck` | apps/ens_app/src/business/SboStateMachine.cpp:113-130 | an acknowledgement counts only for the executed sequence |
| `SboMachines.SboStateMachine.OnLinkStatusChanged` | apps/ens_app/src/business/SboStateMachine.cpp:132-141 | link loss starts the flapping countdown, link return stops it |
| `SboMachines.SboStateMachine.OnArmedTimeout` | apps/ens_app/src/business/SboStateMachine.cpp:190-202 | an armed machine ends idle and unlocked |
| `SboMachines.SboStateMachine.OnFlappingTimeout` | apps/ens_app/src/business/SboStateMachine.cpp:204-209 | an armed machine is aborted |
| `SboMachines.SboStateMachine.OnExecutingTimeout` | apps/ens_app/src/business/SboStateMachine.cpp:211-220 | an executed machine ends idle |
| `RingBufferSteps.RunKeeps` | apps/ens_app/src/datahub/RingBuffer.h:71-125 | under every interleaving of the producer's and four consumers' atomic steps: published never passes stored, cursors never pass published, every value read at position x is a pushed item k at or after x, congruent to x, and item x itself unless position x + capacity has been stored |
| `RingBufferSteps.CountersMonotone` | apps/ens_app/src/datahub/RingBuffer.h:71-168 | no step moves a counter or a cursor back, or changes a pushed item |
| `RingBufferSteps.UndisturbedRead` | apps/ens_app/src/datahub/RingBuffer.h:102-125 | a finished read whose start was not overtaken is exactly the items from its start, in order |
| `RingBufferSteps.ReaderStarts` | apps/ens_app/src/datahub/RingBuffer.h:102-118 | under every interleaving a read starts at the first position of its consumer that had not been overwritten when it loaded the published count, for as many items as asked for or all there are |
| `RingBufferSteps.JumpToOldest` | apps/ens_app/src/datahub/RingBuffer.h:110-114 | skipping leads to the first position not overwritten, and to no other |
| `RingBufferSteps.SlotExact` | apps/ens_app/src/datahub/RingBuffer.h:113-120 | with distinct items the slot of a published position holds that position's item if and only if the position one ring further has not been stored |
| `RingBufferSteps.OvertakenRead` | apps/ens_app/src/datahub/RingBuffer.h:107-120 | a reachable run in which a consumer exactly one ring behind reads item 2 before item 1 |
| `RingBuffers.RingBuffer.Create` | apps/ens_app/src/datahub/RingBuffer.h:52-60 | a ring exists only for a power-of-two capacity of 2 to 65536 |
| `RingBuffers.RingBuffer.Push` | apps/ens_app/src/datahub/RingBuffer.h:71-77 | one item is added to the history; no cursor moves |
| `RingBuffers.RingBuffer.PushBatch` | apps/ens_app/src/datahub/RingBuffer.h:80-89 | the whole batch is added, published only at the end |
| `RingBuffers.RingBuffer.ReadRecent` | apps/ens_app/src/datahub/RingBuffer.h:102-125 | the items from the first position of the consumer that has not been overwritten, as many as asked for and at most a ringful; its cursor ends behind them and no other moves |
| `RingBuffers.RingBuffer.EvictSlowConsumer` | apps/ens_app/src/datahub/RingBuffer.h:153-168 | false exactly when the consumer lags by a ring or more; its cursor ends at the first position from it on that has not been overwritten, which at a lag of exactly one ring is where it was |
| `RingBuffers.RingBuffer.ExtractRange` | apps/ens_app/src/datahub/RingBuffer.h:131-147 | the scan over positions from 0, wrapped slots included, up to the first later timestamp |
| `RingBuffers.ExtractionBeforeWrap` | apps/ens_app/src/datahub/RingBuffer.h:138-145 | until the ring wraps, and with timestamps that never fall, the result is the requested part of the history |
| `RingBuffers.ExtractionExact` | apps/ens_app/src/datahub/RingBuffer.h:138-145 | with ascending timestamps this holds for every request if and only if no more than a ringful was ever pushed |
| `RingBuffers.WindowExactly` | apps/ens_app/src/datahub/RingBuffer.h:131-147 | a window holds the samples with a time stamp in it, both ends included, as often as they occur and in their order |
| `Storm.RecordFollows` | apps/ens_app/src/business/AlarmEngine.cpp:305-312 | the ring always holds the last 128 evaluation times, across the wrap |
| `Storm.WithinCounts` | apps/ens_app/src/business/AlarmEngine.cpp:315-318 | the count is the number of entries no older than the window, its first millisecond included |
| `Storm.RingCount` | apps/ens_app/src/business/AlarmEngine.cpp:315-318 | the count over ring slots is the count over those times, whatever their order |
| `Storm.RecentCount` | apps/ens_app/src/business/AlarmEngine.cpp:315-318 | with a clock that never goes back it is min(128, all evaluations in the window) |
| `Storm.DecisionExact` | apps/ens_app/src/business/AlarmEngine.h:101-102 | the ring's decision equals the full-history one for every history if and only if the threshold is below 128 |
| `AlarmRules.RunInv` | apps/ens_app/src/business/AlarmEngine.cpp:102-354 | over every run of samples, acknowledgements, suppressions, reloads and flushes: raises and clears alternate per point, a clear ends the alarm that was raised, ids are never reused, raises keep the suppression window apart unless the rule changed in between, no state outlives its rule, reported plus reported drops plus pending plus unreported drops are the raises made in storm mode, and at most 2000 are pending |
| `AlarmRules.ActiveCount` | apps/ens_app/src/business/AlarmEngine.cpp:374-380 | the number of active points is raises minus clears |
| `AlarmRules.StormDecision` | apps/ens_app/src/business/AlarmEngine.cpp:300-323 | each storm decision on an on-side evaluation is the full-history one when the threshold is below 128, and no storm otherwise |
| `AlarmRules.DefaultNeverStorms` | apps/ens_app/src/business/AlarmEntities.h:49 | the default threshold of 200 never enters storm mode in any run |
| `AlarmRules.ReloadKeys` | apps/ens_app/src/business/AlarmEngine.cpp:113-137 | after a reload exactly the points that still have a rule keep a state, in whatever order the table is walked |
| `AlarmRules.EvaluateKeepsTable` | apps/ens_app/src/business/AlarmEngine.cpp:172-229 | latches stay consistent and active alarms keep distinct ids |
| `AlarmRules.AcknowledgeOne` | apps/ens_app/src/business/AlarmEngine.cpp:357-368 | the first hit of the table walk is the only one, so the walk order does not matter |
| `AlarmSignals.RaiseIsTold` | apps/ens_app/src/business/AlarmEngine.cpp:172-276 | over every run an event that raises an alarm is a sample beyond the threshold of its point's rule, above it or below it as the rule looks; the alarm has the next id, the point, the value and the rule's level and threshold, and is signalled once, with a black-box request if critical, or merged while fewer than 2000 are pending |
| `AlarmSignals.NoFalseAlert` | apps/ens_app/src/business/AlarmEngine.cpp:172-276 | over every run an event that raises no alarm signals none |
| `AlarmSignals.RecoveriesExactly` | apps/ens_app/src/business/AlarmEngine.cpp:278-297 | over every run the recoveries that a sample or a reload signals carry, in order and as often, the ids of the alarms it clears |
| `AlarmSignals.RecoveryEndsRaise` | apps/ens_app/src/business/AlarmEngine.cpp:278-297 | over every run an alarm that is cleared was raised by an earlier event for the same point under the same id |
| `AlarmSignals.RecoveryIsTrue` | apps/ens_app/src/business/AlarmEngine.cpp:194-228 | over every run a sample that clears an alarm is beyond the recovery threshold of its point's rule, below it or above it as the rule looks |
| `AlarmSignals.RuleMapExactly` | apps/ens_app/src/business/AlarmEngine.cpp:102-112 | the rule that a list puts in force for a point is its last enabled one |
| `AlarmSignals.RulesInForce` | apps/ens_app/src/business/AlarmEngine.cpp:102-141 | over every run the rules in force are those of the last list loaded |
| `AlarmSignals.ReloadExactly` | apps/ens_app/src/business/AlarmEngine.cpp:113-137 | over every run what a reload makes of a point's state: without a rule it goes, with another threshold or level its delays and suppression timer restart, otherwise it is as before |
| `AlarmSignals.HysteresisRun` | apps/ens_app/src/business/AlarmEngine.cpp:172-297 | from samples to signals, for rules of either direction: raised beyond the alarm threshold, kept between the thresholds, cleared under its id beyond the recovery threshold |
| `AlarmSignals.DelayRun` | apps/ens_app/src/business/AlarmEngine.cpp:198-228 | from samples to signals: with two samples beyond the alarm threshold the alarm goes out with the second if and only if the on-delay lies between them, and likewise the recovery |
| `AlarmTiming.RaiseIsDelayed` | apps/ens_app/src/business/AlarmEngine.cpp:198-213 | over every run: a sample that is due to raise is on the alarm side, and an on-side sample of the point lies at least the on-delay back with nothing between that cancels a delay: no sample between the thresholds, no raise, clear or changed rule |
| `AlarmTiming.ClearIsDelayed` | apps/ens_app/src/business/AlarmEngine.cpp:214-228 | over every run: the same for a sample that clears, with the off-delay and the recovery side |
| `AlarmTiming.NotesAreDecided` | apps/ens_app/src/business/AlarmEngine.cpp:172-229 | every raise, and every clear by a sample, comes from such a decision, at that sample's time |
| `AlarmTiming.OnDelaySurvives` | apps/ens_app/src/business/AlarmEngine.cpp:198-228 | a running on-delay outlives a sample that is not yet due if and only if the sample is not between the thresholds; the opposite side does not cancel it |
| `AlarmTiming.OffDelaySurvives` | apps/ens_app/src/business/AlarmEngine.cpp:198-228 | the same for a running off-delay |
| `AlarmTiming.OppositeSideRun` | apps/ens_app/src/business/AlarmEngine.cpp:198-228 | a run in which the value is below the recovery threshold within the on-delay, and the alarm goes out as if it had stayed above |
| `AlarmTiming.DueRaise` | apps/ens_app/src/business/AlarmEngine.cpp:232-240 | over every run and for every delay: a due raise goes out if and only if the suppression window has passed since the point's last raise, or since clock zero when there was none or its rule changed; otherwise the point is lost |
| `AlarmTiming.FirstRaise` | apps/ens_app/src/business/AlarmEngine.cpp:232-240 | the first alarm of a point, or the first since its rule changed, goes out if and only if the clock has passed the window |
| `AlarmTiming.LostUntilRecovered` | apps/ens_app/src/business/AlarmEngine.cpp:198-240 | a suppressed raise is lost, not deferred: through every event but a full recovery or the loss of its rule the point is not raised, however long its value stays high |
| `AlarmTiming.SuppressedExactly` | apps/ens_app/src/business/AlarmEngine.cpp:143-157 | over every run a point is suppressed if and only if some request with a future expiry silenced it and no later request lifted it; the passing of the expiry does not |
| `AlarmMerging.TimerNeverRuns` | apps/ens_app/src/business/AlarmEngine.cpp:43-56 | over every run the flush timer, which the constructor creates and does not start, is never started, so its slot is never called; setting the storm configuration only sets its interval |
| `AlarmMerging.AnnouncedExactly` | apps/ens_app/src/business/AlarmEngine.cpp:242-276 | over every run, however long: an alarm that was raised ever leaves the engine, by itself or in a storm report, if and only if it is critical or the sample that raised it left the engine outside storm mode |
| `AlarmMerging.NoStormReport` | apps/ens_app/src/business/AlarmEngine.cpp:325-354 | over every run neither a storm report nor the end of a storm is ever signalled |
| `AlarmMerging.FlushReports` | apps/ens_app/src/business/AlarmEngine.cpp:325-354 | of the flush slot by itself: in storm mode with something merged it reports the whole batch and empties it, otherwise it does nothing |
| `AlarmMerging.MergedForGood` | apps/ens_app/src/business/AlarmEngine.cpp:256-354 | over every run merged alarms stay merged, in order; nothing of them is reported, and with those dropped for lack of room they are all the raises made in storm mode |
| `AlarmMerging.SilencedRun` | apps/ens_app/src/business/AlarmEngine.cpp:242-276 | a run at a threshold of one alarm a second: the second alarm is raised and merged, and in no continuation does it leave the engine |
| `AlarmMerging.StormModeMoves` | apps/ens_app/src/business/AlarmEngine.cpp:300-323 | over every run storm mode begins and ends only with an on-side evaluation |
| `AlarmMerging.EndedByASample` | apps/ens_app/src/business/AlarmEngine.cpp:300-354 | a sample that ends storm mode leaves the batch as it is, and the flush slot would then do nothing |
| `AlarmEngines.AlarmEngine.CountInWindow` | apps/ens_app/src/business/AlarmEngine.cpp:315-318 | the slot loop counts the recorded times within the window |
| `AlarmEngines.AlarmEngine.RecordTime` | apps/ens_app/src/business/AlarmEngine.cpp:305-312 | the ring write is the ring step of the storm model |
| `AlarmEngines.AlarmEngine.IsStormTriggered` | apps/ens_app/src/business/AlarmEngine.cpp:300-323 | records the time and re-decides storm mode; a zero window does neither |
| `AlarmEngines.AlarmEngine.Evaluate` | apps/ens_app/src/business/AlarmEngine.cpp:172-229 | one sample does exactly what the rules say: delays, suppression, raise, recovery, signals |
| `AlarmEngines.AlarmEngine.RaiseAlarm` | apps/ens_app/src/business/AlarmEngine.cpp:232-276 | suppressed, merged, dropped or sent, with the next id; critical alarms always go out |
| `AlarmEngines.AlarmEngine.RecoverAlarm` | apps/ens_app/src/business/AlarmEngine.cpp:278-297 | an active point is recovered and its id signalled as it was before, any other is left alone |
| `AlarmEngines.AlarmEngine.AcknowledgeAlarm` | apps/ens_app/src/business/AlarmEngine.cpp:357-368 | confirms the one active alarm with this id and nothing else, and is signalled even without a hit |
| `AlarmEngines.AlarmEngine.DoReloadRules` | apps/ens_app/src/business/AlarmEngine.cpp:102-141 | enabled rules replace the old ones, the last per point winning; removed points are cleared and forgotten, changed ones restart their delays |
| `AlarmEngines.AlarmEngine.OnStormFlush` | apps/ens_app/src/business/AlarmEngine.cpp:325-354 | the slot by itself: a non-empty batch in storm mode is reported with its drops and emptied; storm mode ends when the window has calmed |
| `AlarmEngines.AlarmEngine.DoSetStormConfig` | apps/ens_app/src/business/AlarmEngine.cpp:159-164 | replaces the configuration and starts nothing |
| `AlarmEngines.AlarmEngine.ActiveAlarmCount` | apps/ens_app/src/business/AlarmEngine.cpp:374-380 | the number of active points |
| `DataBuses.RemovalBijection` | apps/ens_app/src/datahub/DataBus.cpp:29-50 | swap-remove keeps handles and slots in bijection |
| `DataBuses.RemovalLive` | apps/ens_app/src/datahub/DataBus.cpp:29-50 | swap-remove forgets one handle and leaves every other handle's subscription as it was |
| `DataBuses.TargetsAreListeners` | apps/ens_app/src/datahub/DataBus.cpp:62-70 | the table walk meets each subscriber as often as it has live handles that hear the point |
| `DataBuses.DataBus.Subscribe` | apps/ens_app/src/datahub/DataBus.cpp:15-23 | a new handle, never issued before, under which the call is recorded; a missing subscriber gets 0 |
| `DataBuses.DataBus.SubscribeWildcard` | apps/ens_app/src/datahub/DataBus.cpp:25-27 | likewise for all points |
| `DataBuses.DataBus.Repoint` | apps/ens_app/src/datahub/DataBus.cpp:36-44 | whatever the walk order, exactly the handle of the last slot is moved |
| `DataBuses.DataBus.SwapRemove` | apps/ens_app/src/datahub/DataBus.cpp:29-50 | table, index and owners after the exchange with the last slot |
| `DataBuses.DataBus.Unsubscribe` | apps/ens_app/src/datahub/DataBus.cpp:52-56 | true exactly for a handle that was given out and not unsubscribed since, which is the only one to go |
| `DataBuses.DataBus.Broadcast` | apps/ens_app/src/datahub/DataBus.cpp:58-76 | after any calls: each subscriber is called as often as there are earlier subscriptions of it to the point or to all points whose handle has not been unsubscribed since |
| `DataBuses.DataBus.SubscriberCount` | apps/ens_app/src/datahub/DataBus.cpp:78-81 | the number of subscriptions made and not unsubscribed since |
| `DataBuses.ListeningCount` | apps/ens_app/src/datahub/DataBus.cpp:62-70 | live handles that hear a point are as many as the calls that ask for it and still stand |
| `DownSampling.RunInv` | apps/ens_app/src/datahub/DownSampler.cpp:27-77 | with no late reading: each window is rolled up once and with exactly its readings, each open window holds exactly its readings, every reading is in one of them |
| `DownSampling.ClockedIsPunctual` | apps/ens_app/src/datahub/DownSampler.h:64-68 | a clock that never goes back makes no reading late |
| `DownSampling.RecordsAreTrue` | apps/ens_app/src/datahub/DownSampler.cpp:27-71 | in every run without late readings, each record field by field: its time stamp is the window's start; with the values fed for that window, average times number is their sum, minimum and maximum are among them and bound them, min <= avg <= max, and the count is right if and only if it fits 16 bits |
| `DownSampling.RolledUpTruly` | apps/ens_app/src/datahub/DownSampler.cpp:44-77 | the records that a roll-up hands out in such a run, one for each window it closes, are true in these fields |
| `DownSampling.SummaryDescribes` | apps/ens_app/src/datahub/DownSampler.cpp:27-42 | a bucket is the number, sum, minimum and maximum of its window's readings |
| `DownSampling.AverageBetween` | apps/ens_app/src/datahub/DownSampler.cpp:62-71 | the average lies between minimum and maximum |
| `DownSampling.RepeatsExactly` | apps/ens_app/src/datahub/DownSampler.cpp:27-77 | in every run some window was rolled up twice, or is open again after its roll-up, if and only if some reading came for a window that had been rolled up and was not open |
| `DownSampling.TwiceExactly` | apps/ens_app/src/datahub/DownSampler.cpp:27-77 | once everything has been rolled up, some window was rolled up twice in exactly those runs |
| `DownSampling.LateRepeats` | apps/ens_app/src/datahub/DownSampler.cpp:27-77 | the shortest such run: the window is rolled up a second time, with only the late part |
| `DownSampling.CountsConserved` | apps/ens_app/src/datahub/DownSampler.cpp:27-77 | in every run, late readings included, counts rolled up plus counts in open windows are the valid readings fed |
| `DownSampling.ReportedConserved` | apps/ens_app/src/datahub/DownSampler.cpp:69-69 | the counts as reported account for every reading if and only if no rolled-up window held more than 65535 |
| `DownSampling.CloseWindows` | apps/ens_app/src/datahub/DownSampler.cpp:59-76 | exactly the windows before the current one leave the table, each giving one record |
| `DownSampling.DownSampler.FeedSample` | apps/ens_app/src/datahub/DownSampler.cpp:27-42 | one point's windows change as specified, other points not at all; a zero time stamp is ignored |
| `DownSampling.DownSampler.RollUp` | apps/ens_app/src/datahub/DownSampler.cpp:44-77 | the windows before the current one leave the table as the records of RolledUpTruly, in whatever order the table is walked; no other window and no other point changes |
| `HistoryStores.RunKeeps` | apps/ens_app/src/datahub/L2HistoryStore.cpp:25-52 | in every run every record offered is handed over, pending or dropped, as a multiset; the drop counter is exact; what is pending is the end of what came in since the last flush |
| `HistoryStores.PendingIsNewest` | apps/ens_app/src/datahub/L2HistoryStore.cpp:25-37 | with a fixed capacity the buffer is exactly the newest records since the last flush, in order |
| `HistoryStores.FiledOnce` | apps/ens_app/src/datahub/L2HistoryStore.cpp:62-67 | each record goes to the file of its month as often as it was in the batch, and to no other |
| `HistoryStores.FileByMonth` | apps/ens_app/src/datahub/L2HistoryStore.cpp:62-67 | one bucket per month that occurs, each in batch order |
| `HistoryStores.L2HistoryStore.EnqueueSample` | apps/ens_app/src/datahub/L2HistoryStore.cpp:25-37 | appends and drops the oldest excess |
| `HistoryStores.L2HistoryStore.FlushBuffer` | apps/ens_app/src/datahub/L2HistoryStore.cpp:39-77 | swaps the buffer out; every month that occurs takes all its records or refuses them all; true exactly when none refuses; without a database nothing is taken |
| `HistoryStores.StoreBuckets` | apps/ens_app/src/datahub/L2HistoryStore.cpp:69-75 | one bucket after the other, in whatever order, each month for itself |
| `HistoryFiling.HistoryFiles.BatchInsert` | apps/ens_app/src/datahub/SQLiteDataAccess.cpp:214-278 | a batch goes in if and only if nothing is broken and no key of point and time stamp occurs twice, in the batch or with the rows there; otherwise the table is as it was |
| `HistoryFiling.InsertRows` | apps/ens_app/src/datahub/SQLiteDataAccess.cpp:254-267 | the first row whose key is taken undoes the rows before it |
| `HistoryStores.MonthExactly` | apps/ens_app/src/datahub/L2HistoryStore.cpp:39-77 | in every run a month keeps distinct keys; while it has refused nothing it holds exactly its records among those handed over; with no broken file it has refused a batch if and only if two of those have the same key |
| `HistoryStores.RefusedExactly` | apps/ens_app/src/datahub/L2HistoryStore.cpp:39-77 | in every run without a broken file some month refuses a whole batch if and only if two records handed over have the same point id and time stamp |
| `HistoryStores.LateReadingsRefused` | apps/ens_app/src/datahub/DownSampler.cpp:27-77 | the windows of a point, all rolled up and filed without a loss: some month refuses a whole batch if and only if a reading came for a window that had been rolled up and was not open; the drop count does not show it |
| `AlarmQuery.AnswersAgree` | apps/ens_app/src/datahub/SQLiteDataAccess.cpp:634-641 | the answer is unique up to ties: same length, same times, same records above the cut |
| `AlarmQuery.SufficesJoin` | apps/ens_app/src/datahub/SQLiteDataAccess.cpp:593-593 | limits pushed into two months keep enough records for the limit over both |
| `AlarmQuery.CutIsAnswer` | apps/ens_app/src/datahub/SQLiteDataAccess.cpp:634-641 | sorting what was collected and cutting at the limit gives the answer over everything |
| `AlarmQuery.PartsAreSelected` | apps/ens_app/src/datahub/SQLiteDataAccess.cpp:553-562 | on a well-placed history the clipped month ranges together select what the whole range selects |
| `AlarmQuery.WalkSeesAll` | apps/ens_app/src/datahub/SQLiteDataAccess.cpp:553-556 | months outside the walk contribute nothing |
| `AlarmQuery.WalkExact` | apps/ens_app/src/datahub/SQLiteDataAccess.cpp:553-581 | the walk sees exactly the matching records of every well-placed history if and only if the range keeps clear of the epoch's month and of months after 2100 |
| `AlarmQuery.BatchPlacement` | apps/ens_app/src/datahub/SQLiteDataAccess.cpp:424-440 | a batch filed in the month of its first record leaves every record in its own month if and only if it does not span months |
| `AlarmQuery.MisfiledIsHidden` | apps/ens_app/src/datahub/SQLiteDataAccess.cpp:553-626 | a record filed in another month is not found when its own month is queried |
| `AlarmQuery.AppendRows` | apps/ens_app/src/datahub/SQLiteDataAccess.cpp:458-487 | rows go in all together or not at all, by key and value constraints |
| `AlarmQuery.AlarmHistory.InsertAlarmRecords` | apps/ens_app/src/datahub/SQLiteDataAccess.cpp:424-489 | succeeds exactly for a sane first time stamp and admissible rows; all rows go to the first record's month, or none |
| `AlarmQuery.AlarmHistory.SelectMonth` | apps/ens_app/src/datahub/SQLiteDataAccess.cpp:583-614 | newest first, within the month's limit, ties in any order |
| `AlarmQuery.AlarmHistory.QueryAlarms` | apps/ens_app/src/datahub/SQLiteDataAccess.cpp:543-643 | on a well-placed history and a searchable range the walk with limits pushed down, merged, sorted and truncated equals filter, sort and take over the whole history, up to ties |
| `AlarmQuery.AnswerTold` | apps/ens_app/src/datahub/SQLiteDataAccess.cpp:543-643 | that answer, record by record: newest first, only stored records within the range (its end now when none is given) that agree with every field that restricts, as often as stored; none left out unless the limit is reached, and then none newer than a reported one |

## Left out

- WirePath.WriteEndToEnd: writes of at most 1968 coils or 123 registers, the slave's limits; beyond them the host truncates the byte count of its own request (apps/ens_app/src/protocol/ModbusFrame.cpp:97-118).
- WirePath.WriteThenRead: the same limits as for the write.
- WirePath.ReadsThroughTheStream: chunks of at most 3833 bytes, which is the guard that keeps a 4096-byte ring with an unfinished frame of up to 264 bytes from overflowing; the condition for any chunk size is in Framing.Reassembly.
- Framing.Reassembly: about streams of well-formed frames; noise is hunted through byte by byte as StreamAccumulator.Accumulator.TryExtractFrame says, at the cost stated by Noise.NoiseCosts; noise that reads like the beginning of a frame is taken for one.
- RingBufferSteps.RunKeeps: atomic steps in a single order; C++ memory orders weaker than that are not modelled, and counters do not wrap at 64 bits.
- RingBuffers.RingBuffer.EvictSlowConsumer: called from the consumer's own thread, between its reads.
- AlarmQuery.AlarmHistory.QueryAlarms: a month whose file cannot be opened or whose statement fails is treated like a month without a file; time stamps stay below 2^63; ties in time may come in any order, as in the code.
- AlarmRules.RunInv: values and thresholds are reals; the not-a-number and rounding cases of IEEE floats are not modelled.
- DownSampling.RecordsAreTrue: sums and averages over reals, one granularity per point.
- Polling.PollDriver.OnResponseParsed: samples are bits and raw registers; how registers become values is stated by PolledValues.PolledValue, Float64 left out; the circuit breaker's success counts are parameters of the scheduler, which is not part of this model.
- HistoryFiling.HistoryFiles.BatchInsert: whether a file can be opened and a transaction begun and committed is a parameter; the store files everything at one granularity, as in the code.
- PollRuns.TakesOwnExactly: over TCP, with write requests of the control side in between; a response is one with the function code of the request its id belongs to.
- Reconnect.CleanExactly: bytes that a new connection delivers before the engine hears of the disconnect are not modelled.
- AlarmRules.DefaultNeverStorms: the storm configuration does not change within a run.
- PointDecoding.ValueRoundTrip: integer types only; Float32 and Float64 decoding stops at the bytes.
- SboProtocol.ReachableInv: each slot is one atomic step; a handler that calls back into the machine while it signals is not modelled. Sequence ids are numbers of one counter, so the printed form of an id is not part of the model.
- Bitwise operators, shifts and casts are written as arithmetic on integers with explicit ranges; 32-bit and 16-bit wrap-around is explicit where the code depends on it.
- Clocks, the file system, SQL text, sockets, serial ports, timers as Qt objects (whether one runs is part of the model), thread hand-over and logging are parameters or are not part of this model; emitted signals are results.
- Hash tables are walked in an arbitrary order, which is a parameter or a free choice.
- `queryRange` of the history store: the same month walk as the alarm query without a limit.
- Updates of single alarm rows (`setAlarmRecovered`, `setAlarmConfirmed`): single statements by key.
- `writeControl`/`readControl` of the register bank and `PointGenerator`: only easy members.
- `FaultInjector` and its scenario scripts: slave-scoped faults are stored under the global key, so table and sessions do not agree.
- `BusinessStateMachine`: a device may run while its station does not, so the cross-level invariant does not hold.
- `AuthManager`, `TcpChannel` back-off, `SampleBridge`, `AlarmRecordStore`, the reduced dispatcher `modbus_slave`: only easy members.
- The user interface, start-up, configuration loading and `3rdparty/qcustomplot`.
