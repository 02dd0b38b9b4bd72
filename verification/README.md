# Verification of the cRIO command library

The library drives telescope actuator boards (ILCs) over Modbus. This project models six parts of it in Dafny and
proves what they are for:

- **Codec** (`Crc`, `CrcPolynomial`, `ModbusCodec`): the bit-serial CRC-16, the typed big-endian writer and the
  cursor-based reader. The CRC is tied to polynomial division over GF(2): a frame passes exactly when its polynomial
  is a multiple of the generator x^16 + x^15 + x^2 + 1, and an error pattern passes exactly when it is one.
- **Bus** (`BusList`, `Fpga`, `Delay`): commands turned into FIFO words, reply words cut into frames, and the loop that
  skips boards which do not answer. Its result is a statement about subsequences of keys, both ways.
- **MPU and transport** (`Mpu`, `MpuCoherence`, `MpuDevice`, `MpuReplies`, `Transport`, `TransportRuns`): the list of
  commanded registers, the cache of registers and inputs, the device at the other end of the line, which replies are
  taken, the chunked read of one reply, and sequences of batches.
- **Scheduler** (`Scheduler`, `SchedulerRuns`, `SchedulerTasks`, `SchedulerProgress`, `TaskQueue`, `ControllerThread`):
  the controller thread with its lock, its condition variable, its clients and start/stop, as a transition system over all
  interleavings; and the heap of tasks and one pass of the controller as sequential code.
- **PID** (`Pid`): the two-step recurrence against the textbook controller, over exact reals.
- **Firmware and tables** (`IntelHex`, `Firmware`, `Csv`): records to a memory image, the image to pages and back through
  the bootloader, and the printing and parsing of comma-separated tables.

Classes of the source that update themselves are Dafny classes whose methods are proved against functions on values;
the theorems are about those functions. The Modbus frame format is that of the MODBUS over Serial Line Specification
and Implementation Guide V1.02, sections 2.5.1.2 and 6.2.2; the device's answers are those of the MODBUS Application
Protocol Specification V1.1b3, sections 6.2, 6.3, 6.6 and 6.12; the record kinds are those of the Intel Hexadecimal
Object File Format Specification Rev. A, sections 2, 3 and 5.

## Where the code does less than its description

Each of these is proved, by a concrete input or run where one is enough, together with a condition under which the
promise holds; "exactly" marks those where it holds under no other.

- Stops of one thread that overlap in time can join through a null pointer: `stop` reads the thread pointer before its
  wait and not after it (src/LSST/cRIO/Thread.cpp:53-60). Without overlap every stop is safe (`SchedulerRuns.StopSafety`);
  from every overlap a crash can be reached (`SchedulerRuns.OverlappingStopsCanCrash`).
- A start that timed out, followed by a stop, can deadlock for good, because the join is made with the lock held
  (`SchedulerRuns.FailedStartDeadlocks`); after a start that returned, a join never blocks
  (`SchedulerRuns.JoinBlocksOnlyAfterFailedStart`).
- A task that asks to run again after 0 ms can keep one pass from ending (`SchedulerRuns.PassNeedNotEnd`). A pass that
  ends ran the entries due at its start, each once, exactly when every task it ran that asked to run again asked for a
  time after the pass began (`ControllerThread.PassRunsDueIff`); otherwise it ran more.
- `TaskQueue::remove` erases from the heap without restoring its order. With p_0 < p_1 < ... the positions kept, what is
  left is a heap, whatever the times, exactly when p_((k-1)/2) was above p_k for every k >= 1
  (`TaskQueue.RemoveKeepsHeapIff`), and has its earliest entry in front exactly when p_0 was above all others
  (`TaskQueue.RemoveKeepsFrontIff`): so always when the front entry is kept, but then the entries behind it may still be
  out of order (`TaskQueue.RemoveCanBreakHeap`).
- An error reply, or one that belongs to another command, leaves the MPU's list of commanded registers out of step with
  its commands, and no command, reply or missing response repairs it (`MpuCoherence.RunKeepsLockstepIff`); the
  next values read are then filed under the wrong registers, even after the caller cleared the commands
  (`Transport.MisfiledAfterErrorReply`).
- A missing response leaves the index behind: without a call of `next_message` no reply to the next command is accepted
  (`Transport.AfterMissingResponse`).
- A reply to a read of registers with an odd byte count is taken when it is one byte shorter than the count says, and
  only then (`MpuReplies.OddByteCountTaken`, `MpuReplies.OddByteCountExists`).
- The cache is written before the CRC of a reply is checked: a damaged reply is refused, but what it holds is cached
  (`MpuReplies.RegistersStored`, `MpuReplies.InputsStored`, `MpuReplies.PresetStored` say exactly what).
- A read of inputs from address 0 is refused although the protocol allows it (`MpuDevice.AnsweredDelivers`).
- A record that runs past address 0xFFFF is followed by fillers for almost the whole address space
  (`IntelHex.PastEndWraps`).
- Overlapping records are appended, not overwritten: the image has the right length exactly for disjoint records
  (`IntelHex.AssembledLength`).
- Dropping every fourth byte loses no information exactly when those bytes are zero (`Firmware.RestoredIff`). Padding
  that runs past address 0xFFFF overwrites the lowest addresses, never the image.
- The CSV writer does not quote cells that begin with a quote but hold neither a separator nor a space; which of them
  come back is stated exactly (`Csv.RoundTripIff`).
- The index goes back to the first command after every one that is executed, so a batch on the MPU's transport works
  exactly when all its commands have the same function code (`Transport.BatchIff`). A batch that fails before its last
  command, or at it by an exception reply or one with another function code, leaves commands in the list that no later
  batch takes out;
  every other leaves the MPU ready for the next one, exactly (`TransportRuns.RoundsEndIdleIff`).
- Data words behind the last timestamp or end-of-frame word of a reply are dropped without an error
  (`Fpga.CutKeepsData`); this happens exactly when the last word is a data word (`Fpga.DroppedIff`).
- The CSV parser takes a file to have carriage returns when there are more of them than half the line feeds, rounded
  down, not, as its comment says, at least half; which tables get their flag back is stated exactly
  (`Csv.FlagRoundTripIff`).
- The length of an image that fills the whole 16-bit address space is sent as 0 (`Firmware.ProgrammedIsVerified`).
- FIFO waits of 4095 ms and more wrap to shorter ones (`Fpga.WaitBound`, `Delay.DelayBound`).

## Assumptions

Tasks do not throw, the controller is the only one that waits on the run condition, `start` is called once, and a
`stop` begins only once that call has returned or timed out. In the transition system `remove` has its documented
contract (all entries of the task leave the queue). The clock is an input that never goes back. Deadlines are steps of
the environment: a time-out may or may not happen, and the number of reads a deadline allows is a parameter.

The bootloader is not part of the repository. After the note at include/cRIO/PrintILC.h:103-108 it is taken to expand
each page and to write it from the page's address on, with addresses 16 bits wide as in the frames; what erased memory
reads plays no part in the results.

Host byte order is little-endian. Floats of the codec are their bit patterns. In `get_offset`, `abs` is the absolute
value of a real number.

## Model

| member | source | states |
|---|---|---|
| Crc.CRC.Add | src/Modbus/CRC.cpp:27-37 | the eight-turn loop is the byte step of the specification |
| Crc.CRC.FromBytes | include/Modbus/CRC.h:52-57 | the folding constructor leaves the CRC of all the bytes |
| Crc.CRC.Reset | include/Modbus/CRC.h:75 | the register is back at its initial value |
| Crc.CRC.Get | include/Modbus/CRC.h:89 | the register |
| Crc.RegisterAppend | include/Modbus/CRC.h:52-70 | feeding a message in two parts is feeding it whole |
| CrcPolynomial.CrcIsRemainder | src/Modbus/CRC.cpp:27-37 | for every message and initial value the register is the remainder of the polynomial division by the generator, bits reflected |
| CrcPolynomial.QuotientUnique | src/Modbus/CRC.cpp:27-37 | a quotient that agrees with the dividend above the remainder's places is the only one |
| CrcPolynomial.SealedIffDivisible | src/Modbus/Parser.cpp:46-56 | a frame ends with its own CRC exactly when its polynomial is a multiple of the generator |
| CrcPolynomial.ResidueZeroIffSealed | src/Modbus/Buffer.cpp:56-60 | the register over a whole frame is 0 exactly when the frame ends with its own CRC, low byte first |
| CrcPolynomial.ErrorsPassIffDivisible | src/Modbus/Parser.cpp:46-56 | after flipping any set of bits a good frame passes again exactly when that set is a multiple of the generator |
| CrcPolynomial.BurstDetected | src/Modbus/Parser.cpp:46-56 | every non-empty error within 16 consecutive bits is noticed, in frames of any length |
| CrcPolynomial.BurstBoundIsSharp | src/Modbus/CRC.cpp:27-37 | at 17 bits, at every position, some error pattern passes |
| CrcPolynomial.OddErrorsDetected | src/Modbus/Parser.cpp:46-56 | every odd number of flipped bits is noticed |
| ModbusCodec.DecodeEncode | include/Modbus/Buffer.h:206-260 | a value comes back from its bytes exactly when it is not a 24-bit value out of range |
| ModbusCodec.ReadAllOfEncodeAll | include/Modbus/Parser.h:202-254 | a mixed list of values written one after the other is read back, cursor included, exactly when all are in range |
| ModbusCodec.RoundTrip | include/Modbus/Buffer.h:174-180 | arguments of a frame come back, and the CRC check then succeeds with the cursor at the end |
| ModbusCodec.FrameIsSealed | src/Modbus/Buffer.cpp:56-60 | appending the CRC makes a frame whose own register is 0 |
| ModbusCodec.CheckSucceedsIff | src/Modbus/Parser.cpp:46-56 | the check succeeds only with exactly two bytes left that are the CRC of everything before |
| ModbusCodec.CheckFailsIff | src/Modbus/Parser.cpp:46-56 | which error the check throws, with what in it, and where it leaves the cursor: a wrong CRC goes before bytes left over, and with fewer than two bytes nothing is read |
| ModbusCodec.ErrorsDetected | src/Modbus/Parser.cpp:46-56 | the check at the same cursor throws the CRC error for every burst within 16 bits and every odd number of flipped bits |
| ModbusCodec.Buffer.Write | include/Modbus/Buffer.h:222-260 | a typed write appends the value's bytes, most significant first |
| ModbusCodec.Buffer.WriteI24 | src/Modbus/Buffer.cpp:50-54 | a 24-bit write appends the three low bytes |
| ModbusCodec.Buffer.GetCalcCrc | src/Modbus/Buffer.cpp:39-42 | the CRC of the contents |
| ModbusCodec.Buffer.WriteCRC | src/Modbus/Buffer.cpp:56-60 | the buffer becomes a frame that passes and whose register is 0 |
| ModbusCodec.Buffer.CallFunction | include/Modbus/Buffer.h:174-180 | appends address, function, arguments in order and the CRC of the whole buffer |
| ModbusCodec.Parser.Parse | src/Modbus/Parser.cpp:34-44 | refuses fewer than four bytes, otherwise puts the cursor behind address and function |
| ModbusCodec.Parser.ReadBuffer | include/Modbus/Parser.h:132-140 | takes the next bytes and moves the cursor, or throws and leaves it |
| ModbusCodec.Parser.Read | include/Modbus/Parser.h:202-254 | a typed read decodes the next bytes and moves the cursor, or throws and leaves it |
| ModbusCodec.Parser.CheckCRC | src/Modbus/Parser.cpp:46-56 | compares, then refuses bytes left over; the cursor as the code leaves it in each case |
| BusList.BusList.CallFunction | include/Modbus/BusList.h:247-250 | appends the encoded command with its timing |
| BusList.BusList.AddResponse | src/Modbus/BusList.cpp:79-82 | registers a callback; a second registration for the function is ignored |
| BusList.BusList.SetErrorResponse | src/Modbus/BusList.cpp:86-88 | sets the error callback of a registered function, throws for others |
| BusList.BusList.MissingResponse | src/Modbus/BusList.cpp:84 | moves to the next command |
| BusList.BusList.NextMessage | include/Modbus/BusList.h:208 | back to the first command |
| BusList.BusList.Parse | src/Modbus/BusList.cpp:48-77 | index, error records, callbacks run and outcome of one reply, in every case |
| BusList.BusList.RunCallback | src/Modbus/BusList.cpp:62-74 | which callback runs with what, and where the index ends up when it throws |
| BusList.OutcomeIff | src/Modbus/BusList.cpp:48-77 | what one reply throws, if anything, in terms of its address, function and error bit and of the callbacks: each case if and only if |
| BusList.ProgressIff | src/Modbus/BusList.cpp:48-77 | the index moves on except for short replies, without a command open, and for error replies whose function is unknown or whose callback throws; a callback is told once, with these arguments |
| BusList.RecordedIff | src/Modbus/BusList.cpp:33-60 | exactly replies for other commands are recorded, under the address passed over, with the reply's function, code 0xFF and one more than before |
| BusList.RetryStopsAtFirstMatch | src/LSST/cRIO/FPGA.cpp:138-153 | the retry loop stops at the first command the reply belongs to, recording one error for each command passed |
| BusList.RetryDelivers | src/LSST/cRIO/FPGA.cpp:138-153 | the loop delivers exactly when such a command is left and its callback accepts, and then changes just this |
| BusList.AllDeliveredIff | src/LSST/cRIO/FPGA.cpp:116-164 | all replies are delivered exactly when every callback accepts and the replies' keys are a subsequence of the commands' keys |
| BusList.OnlyFailureIsRunningOut | src/LSST/cRIO/FPGA.cpp:116-164 | with accepting callbacks the only failure is running out of commands, and it happens exactly without such a subsequence |
| BusList.GreedyEmbeds | src/LSST/cRIO/FPGA.cpp:138-153 | the commands matched form an embedding of the replies |
| BusList.GreedyIsLeftmost | src/LSST/cRIO/FPGA.cpp:138-153 | no embedding matches any reply earlier |
| BusList.RepliesCalls | src/Modbus/BusList.cpp:62-74 | each reply was handed over once and in order, and the index is behind the last one's command |
| BusList.RepliesErrors | src/Modbus/BusList.cpp:55-60 | each command passed over before the last match adds exactly one error to its address, and nothing else does |
| Fpga.CommandStreamRoundTrip | src/LSST/cRIO/FPGA.cpp:55-77 | the FPGA's reading of the word stream gives back every command byte for byte with its wait; length word, header and trigger are right |
| Fpga.WaitBound | src/LSST/cRIO/FPGA.cpp:70-71 | waits are exact up to 4095 us, then rounded up by at most 1 ms exactly below 4095 ms, and shorter from there on |
| Fpga.CommandWordBits | src/LSST/cRIO/FPGA.cpp:66-68 | of a command word's bits 9 and 12 are set, 1 to 8 are the byte's, the others are clear |
| Fpga.WordsAreReplies | src/LSST/cRIO/FPGA.cpp:120-164 | whatever words come, the machine hands over the frames cut from them in turn: the first that is not delivered ends it, else the words do |
| Fpga.AnyReplyCompletesIff | src/LSST/cRIO/FPGA.cpp:106-169 | for every word stream the call completes exactly when the words are read to their end, the frames' keys are a subsequence of the commands' and the callbacks accept |
| Fpga.CutKeepsData | src/LSST/cRIO/FPGA.cpp:122-164 | words read to their end give every data byte to a frame, once and in order, except those behind the last timestamp or end-of-frame word; no frame is empty |
| Fpga.DroppedIff | src/LSST/cRIO/FPGA.cpp:122-164 | bytes are dropped exactly when the last word is a data word |
| Fpga.DataWordBits | src/LSST/cRIO/FPGA.cpp:124-127 | bit i of the byte a reply's data word carries is bit i + 1 of the word |
| Fpga.BoardWordsCut | include/cRIO/SimulatedILC.h:35-56 | the words boards send for any replies that are not empty are cut into exactly those frames, byte for byte |
| Fpga.BoardRepliesCompleteIff | src/LSST/cRIO/FPGA.cpp:106-169 | so the call on what boards sent completes exactly when the frames' keys are a subsequence of the commands' and the callbacks accept, and else fails as the first frame not delivered does |
| Fpga.ReplyCompletesIff | src/LSST/cRIO/FPGA.cpp:106-169 | for a stream of whole reply blocks, each with eight timestamp words and an end word, the call completes exactly when the frames embed, the callbacks accept, and the two orders of end words do not clash |
| Fpga.BlocksAreReplies | src/LSST/cRIO/FPGA.cpp:122-164 | the word machine hands over exactly the frames of the blocks, in order |
| Fpga.FPGA.CommandData | src/LSST/cRIO/FPGA.cpp:55-77 | the words pushed are the command stream |
| Fpga.FPGA.IlcCommands | src/LSST/cRIO/FPGA.cpp:50-169 | nothing without commands, a missing response for a short reply, otherwise the reply machine from a reset index, of which the rows above tell what it makes of the words |
| Fpga.FPGA.HandleReply | src/LSST/cRIO/FPGA.cpp:116-164 | the pointer loop is the word machine, whose frames are those of `Fpga.BoardWordsCut` |
| Fpga.FPGA.RetryParse | src/LSST/cRIO/FPGA.cpp:138-153 | the exception loop is the retry function; it ends |
| Delay.DelayBound | src/LSST/cRIO/ModbusBuffer.cpp:108-148 | a delay read back is exact up to 4095 us, rounded up by at most 1 ms exactly below 4095 ms |
| Delay.ModbusBuffer.WriteDelay | src/LSST/cRIO/ModbusBuffer.cpp:145-148 | appends the delay word |
| Delay.ModbusBuffer.WriteWaitForRx | src/LSST/cRIO/ModbusBuffer.cpp:150-153 | appends the wait word |
| Delay.ModbusBuffer.ReadDelay | src/LSST/cRIO/ModbusBuffer.cpp:108-124 | decodes a delay word and moves on, or throws and stays |
| Mpu.MPU.ReadInputStatus | src/LSST/cRIO/MPU.cpp:153-156 | appends the command and what its reply is about |
| Mpu.MPU.ReadHoldingRegisters | src/LSST/cRIO/MPU.cpp:158-161 | appends the command and what its reply is about |
| Mpu.MPU.PresetHoldingRegister | src/LSST/cRIO/MPU.cpp:163-166 | appends the command and its register, with length 0 |
| Mpu.MPU.PresetHoldingRegisters | src/LSST/cRIO/MPU.cpp:168-173 | appends the command with its counts truncated to 16 and 8 bits, and what its reply is about |
| Mpu.MPU.NextMessage | include/Modbus/BusList.h:208 | back to the first command |
| Mpu.MPU.MissingResponse | src/LSST/cRIO/MPU.cpp:148-151 | pops and moves on; undefined on an empty list |
| Mpu.MPU.Parse | src/Modbus/BusList.cpp:48-77 | whole state and outcome of one reply: what moves the index, what pops, what records an error; delivered as in `MpuReplies.DeliveredIff` |
| Mpu.ParsesAsBusList | src/Modbus/BusList.cpp:48-77 | the MPU parses as any bus list with its handlers for callbacks: same index, error records and outcome, unless nothing is commanded when a handler runs |
| Mpu.MPU.RunHandler | src/LSST/cRIO/MPU.cpp:33-119 | the handler of the function code; the cache is written before the CRC is checked |
| Mpu.MPU.InputsHandler | src/LSST/cRIO/MPU.cpp:33-58 | the shifting loop over input bits and its refusals |
| Mpu.MPU.RegistersHandler | src/LSST/cRIO/MPU.cpp:60-77 | the loop over registers, which keeps what it stored when a later read runs out |
| MpuCoherence.SendKeepsLockstep | src/LSST/cRIO/MPU.cpp:153-173 | after every command call the list is that of the open commands, read back from their bytes |
| MpuCoherence.MissingKeepsLockstep | src/LSST/cRIO/MPU.cpp:148-151 | so it is after a missing response |
| MpuCoherence.ParseKeepsLockstepIff | src/Modbus/BusList.cpp:48-77 | so it is after a reply exactly when the reply is too short to be looked at or has the next command's address and function; the list is never popped empty |
| MpuCoherence.BreakingReplyDrifts | src/Modbus/BusList.cpp:48-77 | any other reply leaves one entry too many in the list |
| MpuCoherence.DriftNeverShrinks | src/LSST/cRIO/MPU.cpp:148-173 | once there are too many, no command, reply or missing response lessens the surplus or restores the step |
| MpuCoherence.RunKeepsLockstepIff | src/LSST/cRIO/MPU.cpp:148-173 | over every run of commands, replies and missing responses the list ends in step exactly when each reply was short, came with no command open, or answered the next command |
| MpuCoherence.StoreRegistersPuts | src/LSST/cRIO/MPU.cpp:68-75 | the register loop stores the big-endian words of the reply under consecutive addresses |
| MpuCoherence.StoreInputsPuts | src/LSST/cRIO/MPU.cpp:50-56 | the shifting loop stores, as input i, bit i mod 8 of data byte i / 8 |
| MpuCoherence.InputsDelivered | src/LSST/cRIO/MPU.cpp:33-58 | an accepted reply has exactly the bytes needed, stores each input's bit and changes nothing else |
| MpuDevice.RequestDecodes | src/LSST/cRIO/MPU.cpp:153-173 | the device reads back each legal request from the bytes of the command |
| MpuDevice.PresetsCounts | src/LSST/cRIO/MPU.cpp:168-173 | for any number of values the counts in the command are truncated to 16 and 8 bits, and all values are sent |
| MpuDevice.AnsweredDelivers | src/LSST/cRIO/MPU.cpp:33-119 | the device's reply to the next command is delivered, except to inputs read from address 0, and leaves exactly what it says in the cache |
| MpuDevice.CacheCoherence | src/LSST/cRIO/MPU.cpp:32-173 | over every run of commands, answers and lost messages between two calls of clear: lockstep, and every cached register equals the device's unless function 16, or a preset whose reply was lost, wrote it since its last read or preset |
| MpuDevice.InputsCached | src/LSST/cRIO/MPU.cpp:33-58 | after an answered read of inputs those are as the device has them, the others as before |
| MpuReplies.DeliveredIff | src/LSST/cRIO/MPU.cpp:32-119 | a reply is delivered exactly when it has the next command's address and function, its own CRC, the length its function calls for, and echoes what the command named |
| MpuReplies.RegistersCached | src/LSST/cRIO/MPU.cpp:60-77 | a delivered reply caches the big-endian numbers of its words, from the commanded address on and wrapping at 65536, and nothing else |
| MpuReplies.InputsCached | src/LSST/cRIO/MPU.cpp:33-58 | so for inputs, bit p mod 8 of data byte p / 8 for the p-th |
| MpuReplies.PresetCached | src/LSST/cRIO/MPU.cpp:79-119 | so for the value a preset of one register echoes; a preset of many caches nothing |
| MpuReplies.RegistersStored | src/LSST/cRIO/MPU.cpp:60-77 | whatever comes of it, a reply to the next read of registers caches exactly the registers it holds |
| MpuReplies.InputsStored | src/LSST/cRIO/MPU.cpp:33-58 | so for inputs, if the byte count fits what was asked for and this is not from address 0 |
| MpuReplies.PresetStored | src/LSST/cRIO/MPU.cpp:79-119 | so for a preset of one register that is echoed |
| MpuReplies.ForeignLeavesCache | src/LSST/cRIO/MPU.cpp:32-119 | a reply with another address caches nothing |
| MpuReplies.DamagedIsNotDelivered | src/LSST/cRIO/MPU.cpp:32-119 | a delivered reply with an odd number of bits flipped, or bits within 16 consecutive ones, is not delivered to any command |
| MpuReplies.OddByteCountTaken | src/LSST/cRIO/MPU.cpp:60-77 | a delivered reply to a read of registers is as long as its byte count says exactly when the count is even |
| MpuReplies.OddByteCountExists | src/LSST/cRIO/MPU.cpp:60-77 | and one with byte count 3 and two data bytes is delivered to every such read |
| Transport.SimulatedTransport.Write | src/Transports/SimulatedTransport.cpp:29-32 | the reply joins the buffer and the written bytes are counted |
| Transport.SimulatedTransport.Read | src/Transports/SimulatedTransport.cpp:34-50 | takes the asked number of bytes, at least one, or all there are; bytes read and bytes buffered are always all bytes generated, in order |
| Transport.SimulatedTransport.ExecuteCommand | src/Transports/Transport.cpp:27-68 | time-out, unknown function, missing response or a parsed reply, with the MPU's and the buffer's state in each; what comes of whole, refused and unknown replies is stated below |
| Transport.GatherSplits | src/Transports/Transport.cpp:42-59 | what was gathered and what is left are the bytes that were there |
| Transport.ResponseLengthStable | src/LSST/cRIO/MPU.cpp:122-146 | a length once known, or a refusal, holds for every extension |
| Transport.CompleteIff | src/LSST/cRIO/MPU.cpp:122-146 | the predicted length is the length of exactly the whole replies of the protocol: counted data for reads, eight bytes for presets, five for errors |
| Transport.UnknownIff | src/LSST/cRIO/MPU.cpp:122-146 | it throws exactly for function codes below 128 that are not the MPU's four |
| Transport.ExactFraming | src/Transports/Transport.cpp:35-59 | with a complete reply in front, exactly it is consumed and the rest left if and only if the deadline allows the three or four reads it needs; with fewer, a prefix |
| Transport.ServeComplete | src/LSST/cRIO/MPU.cpp:122-146 | the predicted length of every reply of the device is its length |
| Transport.RefusalFramed | src/Transports/Transport.cpp:42-59 | an exception reply of any reason to any of the four functions, in front of any bytes, is gathered alone exactly when the deadline allows three reads |
| Transport.RefusalExecuted | src/Transports/Transport.cpp:35-67 | then it is reported as an error reply, the index is one further, and the bytes behind are left |
| Transport.UnknownExecuted | src/Transports/Transport.cpp:35-59 | a reply with an unknown function throws after two reads, changes nothing in the MPU and leaves the bytes behind |
| Transport.SimulatedTransport.Commands | src/Transports/SimulatedTransport.cpp:52-61 | the commands of the list in turn, up to the first that throws; the list is cleared only if none does |
| Transport.BatchIff | include/cRIO/MPU.h:51-54 | over an idle transport and an answering device a batch is delivered exactly when all its commands have the function of the first and none reads inputs from address 0; everything is then learnt and every list empty; a single command is such a batch unless it reads inputs from address 0 |
| TransportRuns.ExchangedIsBatch | src/Transports/SimulatedTransport.cpp:52-61 | with any request of a batch refused and any message lost, the commands executed one by one are what commands() does with the device's replies |
| TransportRuns.RoundIsIdleIff | src/Transports/Transport.cpp:61-67 | a batch, clear and next_message leave the MPU ready exactly when the batch is delivered or fails only at its last command and not by an exception reply or another function code; the cache keeps agreeing with the device in either case |
| TransportRuns.RoundsEndIdleIff | src/Transports/Transport.cpp:61-67 | after any sequence of batches the MPU is ready exactly when every one of them was of that kind |
| TransportRuns.CoherentRounds | src/LSST/cRIO/MPU.cpp:32-173 | over every sequence of batches that each start ready, with any requests refused and messages lost, every cached register equals the device's unless function 16, or a preset that was not delivered, wrote it since its last read or preset |
| Transport.AfterMissingResponse | src/Transports/Transport.cpp:61-67 | after a missing response clearing restores order only together with next_message |
| Transport.MisfiledAfterErrorReply | src/Modbus/BusList.cpp:62-70 | after an error reply, and clearing, the next values are filed under the old command's address |
| Scheduler.LockAct | src/LSST/cRIO/ControllerThread.cpp:46-67 | a client's critical section keeps who holds the lock |
| Scheduler.LockWork | src/LSST/cRIO/ControllerThread.cpp:86-149 | so does every step of the controller |
| Scheduler.PassWork | src/LSST/cRIO/ControllerThread.cpp:123-149 | the entry a pass looks at is one with the least time, and its clock reading is not in the future |
| Scheduler.SleepWork | src/LSST/cRIO/ControllerThread.cpp:90-97 | the controller goes to sleep only with nothing due before its deadline and keepRunning set |
| Scheduler.SleepAct | src/LSST/cRIO/ControllerThread.cpp:46-60 | a client that gives a sleeper something to do owes a notification |
| Scheduler.ThreadWork | src/LSST/cRIO/Thread.cpp:81-90 | the started flag is set exactly while run is executed |
| Scheduler.LedgerAct | src/LSST/cRIO/ControllerThread.cpp:46-67 | pushing, clearing and removing keep the account of all entries |
| Scheduler.LedgerWork | src/LSST/cRIO/ControllerThread.cpp:123-149 | so do starting a task, never before its time, and rescheduling it |
| Scheduler.StopStage | src/LSST/cRIO/Thread.cpp:51-62 | check, wake-up and join of a stop keep lock and thread state |
| Scheduler.OverlapStage | src/LSST/cRIO/Thread.cpp:51-62 | while stops do not overlap, one that waits finds the thread when it wakes |
| SchedulerRuns.InvStep | src/LSST/cRIO/ControllerThread.cpp:46-149 | every step of every participant keeps the whole invariant |
| SchedulerRuns.NoLostWakeup | src/LSST/cRIO/ControllerThread.cpp:86-99 | in every reachable state a sleeper to whom no notification is owed has keepRunning set and nothing queued before its deadline, and can time out as soon as an entry is due |
| SchedulerRuns.Conservation | src/LSST/cRIO/ControllerThread.cpp:113-149 | over every run each entry pushed is queued, started once, or dropped, and none is started before its time |
| SchedulerRuns.StopSafety | src/LSST/cRIO/Thread.cpp:45-63 | at most one join; none through a null pointer unless stops overlapped; the join after a good start only when the worker left and released the lock; a stop that returned leaves no thread and the flag cleared |
| SchedulerRuns.JoinBlocksOnlyAfterFailedStart | src/LSST/cRIO/Thread.cpp:52-60 | a join can finish exactly when the worker ever got the lock, which a start that returned guarantees |
| SchedulerRuns.FailedStartDeadlocks | src/LSST/cRIO/Thread.cpp:31-63 | a time-out of start and a stop can reach a state no run ever leaves |
| SchedulerRuns.WorkerLeaves | src/LSST/cRIO/ControllerThread.cpp:86-99 | from every reachable state, once keepRunning is false, the worker can leave by its own steps |
| SchedulerRuns.OverlappingStopsCanCrash | src/LSST/cRIO/Thread.cpp:51-62 | from every reachable state in which a stop is about to check, or sleeps, while another sleeps, a join through a null pointer can be reached |
| SchedulerRuns.TwoStopsCanCrash | src/LSST/cRIO/Thread.cpp:45-63 | and two stops after a good start do reach such a state |
| SchedulerRuns.PassNeedNotEnd | src/LSST/cRIO/ControllerThread.cpp:130-148 | a reachable pass in which, with waits of 0 ms and a clock that stands still, one task is started any number of times |
| SchedulerTasks.PushedExactly | src/LSST/cRIO/ControllerThread.cpp:123-149 | in every reachable state what was pushed is what clients enqueued and what tasks asked for, each start but a running one answered once, in order, and not before it |
| SchedulerTasks.RequeuedIff | src/LSST/cRIO/ControllerThread.cpp:137-140 | an entry is one asked for exactly when a start was answered with a wait: it has that task and is so many milliseconds after the answer |
| SchedulerTasks.TasksComeFromClients | src/LSST/cRIO/ControllerThread.cpp:46-149 | no task is queued, started or dropped that no client enqueued |
| SchedulerTasks.StartsApart | src/LSST/cRIO/ControllerThread.cpp:123-149 | over every run in which no client enqueues it, a task started with no other entry queued is not started again before it has returned and its requested wait is over |
| SchedulerTasks.ClientEffect | src/LSST/cRIO/ControllerThread.cpp:46-120 | enqueue, clear and remove change the queue as they say, for every entry; nothing else a client does touches it |
| SchedulerTasks.RemovedStaysAway | src/LSST/cRIO/ControllerThread.cpp:62-120 | a task removed, or cleared, while it is not running is neither queued nor started again over any run in which no client enqueues it |
| SchedulerProgress.SleepsUntilEarliest | src/LSST/cRIO/ControllerThread.cpp:90-95 | the wait ends at the earliest time in the queue, and has no end exactly when the queue is empty |
| SchedulerProgress.DueCanStart | src/LSST/cRIO/ControllerThread.cpp:86-149 | from every reachable state of the running controller an entry that is due can be started with no time passing and no spurious wake-up |
| SchedulerProgress.StopOutcomeIff | src/LSST/cRIO/Thread.cpp:45-63 | a stop returns, waits, joins or throws exactly according to whether there is a thread and whether it is in run |
| SchedulerProgress.StartOutcomeIff | src/LSST/cRIO/Thread.cpp:31-43 | a start returns or throws exactly according to whether the worker is in run |
| TaskQueue.TaskQueue.Remove | src/LSST/cRIO/TaskQueue.cpp:25-37 | the erasing loop leaves the other entries in their order and reports whether there was one to remove |
| TaskQueue.OthersRemoves | src/LSST/cRIO/TaskQueue.cpp:25-37 | exactly the task's entries leave the queue, as remove is documented to do |
| TaskQueue.RemoveKeepsHeapIff | src/LSST/cRIO/TaskQueue.cpp:25-37 | for a layout of tasks, a removal leaves a heap whatever the times exactly when each kept entry's new parent was above it |
| TaskQueue.RemoveKeepsFrontIff | src/LSST/cRIO/TaskQueue.cpp:25-37 | the earliest entry is in front, whatever the times, exactly when the first kept position was above all the others; so it is whenever the front entry is kept |
| TaskQueue.RemoveKeepsTop | src/LSST/cRIO/TaskQueue.cpp:25-37 | the entry in front stays there and is the next to run when it is not removed |
| TaskQueue.RemoveCanBreakTop | src/LSST/cRIO/TaskQueue.cpp:25-37 | when it is removed a later entry can come before an earlier one |
| TaskQueue.RemoveCanBreakHeap | src/LSST/cRIO/TaskQueue.cpp:25-37 | when it is not, a later entry can still come to stand above an earlier one |
| ControllerThread.ControllerThread.EnqueueAt | src/LSST/cRIO/ControllerThread.cpp:46-60 | a task that validates joins the queue |
| ControllerThread.ControllerThread.Clear | src/LSST/cRIO/ControllerThread.cpp:113-120 | empties the queue |
| ControllerThread.ControllerThread.ProcessTasks | src/LSST/cRIO/ControllerThread.cpp:123-149 | followed for any number of tasks, the loop runs the entry with the least time while that is due, puts back what asks to run again as `ControllerThread.AskedIff` says, and stops when nothing due is left; followed for as many tasks as were due at its start it ends, if none of those it ran is due again |
| ControllerThread.PassKeepsEntries | src/LSST/cRIO/ControllerThread.cpp:123-149 | over every pass, what ran and what is left is what was queued and what was asked for |
| ControllerThread.AskedIff | src/LSST/cRIO/ControllerThread.cpp:137-140 | an entry is asked for exactly when some task that ran returned a wait: it has that task and the clock reading after the run plus 1 000 000 ns a millisecond |
| ControllerThread.PassKeepsTasks | src/LSST/cRIO/ControllerThread.cpp:123-149 | a pass runs, and leaves queued, only tasks that were queued at its start |
| ControllerThread.PassRunsDueIff | src/LSST/cRIO/ControllerThread.cpp:123-149 | a pass that ends ran exactly the entries due at its start, each as often as queued, if and only if every task it ran that asked to run again asked for a time after the pass began; it never ran fewer, and then leaves the others and the rescheduled ones |
| ControllerThread.PassIsSorted | src/LSST/cRIO/ControllerThread.cpp:123-149 | with a clock that does not go back every pass runs its tasks in nondecreasing time order |
| ControllerThread.PassEnds | src/LSST/cRIO/ControllerThread.cpp:130-148 | as long as nothing is due again, a pass runs no more tasks than were due and ends having run them |
| ControllerThread.MillisecondWaits | src/LSST/cRIO/ControllerThread.cpp:137-140 | a wait of at least 1 ms and a clock that does not go back meet that condition |
| Pid.PID.CalculateIntermediateValues | src/LSST/PID/PID.cpp:84-96 | the five coefficients, and a reset history |
| Pid.PID.ResetPreviousValues | src/LSST/PID/PID.cpp:43-50 | the history of an empty error sequence |
| Pid.PID.UpdateParameters | src/LSST/PID/PID.cpp:36-39 | new parameters from a reset history; freezing untouched |
| Pid.PID.RestoreInitialParameters | src/LSST/PID/PID.cpp:41 | back to the initial parameters, from a reset history |
| Pid.PID.Process | src/LSST/PID/PID.cpp:52-63 | control is the textbook controller of all errors since the reset; the output adds the offset |
| Pid.PID.Freeze | src/LSST/PID/PID.cpp:65-68 | the offset is the current control |
| Pid.PID.Thaw | include/PID/PID.h:78 | the ramp may begin |
| Pid.PID.GetOffset | src/LSST/PID/PID.cpp:70-82 | one step of the ramp; the caller's flag, if there is one, is set when it moved and otherwise left alone |
| Pid.RunIsTextbook | src/LSST/PID/PID.cpp:52-63 | for all parameters and errors the recurrence is Kp e + I + D with the accumulated integral and the filtered derivative |
| Pid.StabilityBound | src/LSST/PID/PID.cpp:52-63 | with 0 < N Ts <= 1 and errors within E the control stays within Kp E + Ki Ts times the sum of the earlier errors + 2 Kd E / Ts, in absolute values |
| Pid.ThawRamp | src/LSST/PID/PID.cpp:70-82 | frozen, the offset is constant; thawed, it keeps its sign, never grows and is 0 after exactly the stated number of calls |
| Pid.RampIs | src/LSST/PID/PID.cpp:70-82 | each call before the last takes exactly 50 off the offset's size, and the last the rest |
| IntelHex.IntelHex.Load | src/LSST/cRIO/IntelHex.cpp:40-72 | the data records kept, also those before a line that is refused, and that line |
| IntelHex.KeptAre | src/LSST/cRIO/IntelHex.cpp:40-72 | the lines kept are those of the data records, in order, before an end of file or a refused line and behind no extended address or a zero one; refused is the first extended address that is not two bytes long |
| IntelHex.WindowPermuted | src/LSST/cRIO/IntelHex.cpp:45-71 | any permutation of the records within one extended-address window: same records kept, as a multiset, and the same line refused or none |
| IntelHex.IntelHex.SortByAddress | src/LSST/cRIO/IntelHex.cpp:147-150 | the same records, in order of address |
| IntelHex.IntelHex.GetData | src/LSST/cRIO/IntelHex.cpp:74-96 | start address and assembled bytes, with the 16-bit position; nothing without records |
| IntelHex.AssembledLength | src/LSST/cRIO/IntelHex.cpp:79-95 | never fewer bytes than addresses spanned, and as many exactly for disjoint records |
| IntelHex.AssembledImage | src/LSST/cRIO/IntelHex.cpp:83-93 | record bytes in place, 0x00 at addresses 3 mod 4 and 0xFF elsewhere in gaps |
| IntelHex.PastEndWraps | src/LSST/cRIO/IntelHex.cpp:83-93 | behind a record that runs past address 0xFFFF the position is taken modulo 65536 |
| IntelHex.ImageIff | src/LSST/cRIO/IntelHex.cpp:74-96 | from lowest address to highest end: right length exactly for disjoint records, and then the image of the records in any order |
| IntelHex.OrderIrrelevant | src/LSST/cRIO/IntelHex.cpp:147-150 | disjoint records have one sorted order, whatever the sort does with ties and wherever they came from |
| IntelHex.PermutedFileGivesSame | src/LSST/cRIO/IntelHex.cpp:40-96 | for disjoint records such a permutation of the file gives the same start address and bytes from getData, and no others |
| Firmware.PrintILC.CopyThree | src/LSST/cRIO/PrintILC.cpp:298-302 | the innermost loop copies three bytes and leaves the rest of the page |
| Firmware.PrintILC.FillPage | src/LSST/cRIO/PrintILC.cpp:295-305 | the inner loops copy a block without every fourth byte, reading nothing outside it |
| Firmware.PrintILC.WritePages | src/LSST/cRIO/PrintILC.cpp:288-311 | one page for every 256 bytes, at consecutive page addresses |
| Firmware.PrintILC.FillLastPage | src/LSST/cRIO/PrintILC.cpp:273-286 | fills up to a page with the filler bytes |
| Firmware.PaddedAt | src/LSST/cRIO/PrintILC.cpp:273-286 | the padded image is the image up to the next multiple of 256, then 0xFF, but 0x00 for every fourth byte |
| Firmware.PrintILC.WriteHex | src/LSST/cRIO/PrintILC.cpp:269-314 | CRC and length of the unpadded image, pages of the padded one |
| Firmware.PrintILC.Program | src/LSST/cRIO/PrintILC.cpp:135-147 | from a reset CRC, pages and statistics are those of the image |
| Firmware.ExpandsIff | include/cRIO/PrintILC.h:103-108 | inserting a zero after every third byte restores a block exactly when its every fourth byte is zero |
| Firmware.PageAt | src/LSST/cRIO/PrintILC.cpp:290-310 | page k is at start + 256 k modulo 65536 and holds, in 192 bytes, the k-th block of 256 without every fourth byte |
| Firmware.MemoryAt | src/LSST/cRIO/PrintILC.cpp:288-311 | with each page expanded at its own address, every address holds the image's byte for it, or zero for every fourth, counted from the start and wrapping at 0xFFFF; all others are as before |
| Firmware.MemoryIff | include/cRIO/PrintILC.h:103-108 | any first part of the image stands at the addresses from the start on exactly when its every fourth byte is zero |
| Firmware.RestoredIff | src/LSST/cRIO/PrintILC.cpp:269-314 | for disjoint records from a multiple of 4, memory holds the image at its addresses exactly when no record puts anything but zero at an address 3 mod 4; padding past 0xFFFF lands below the image; all else is as before |
| Firmware.StatsLayout | src/LSST/cRIO/PrintILC.cpp:50-68 | the bytes the statistics' own CRC runs over are CRC, start address and length as little-endian 32-bit words |
| Firmware.ProgrammedIsVerified | src/LSST/cRIO/PrintILC.cpp:50-68 | then what is read back from the start address is the image, and the bootloader's check of CRC, length and statistics succeeds exactly for images below 65536 bytes, or whose CRC happens to be that of no data |
| Csv.RoundTripIff | include/rapidcsv.h:1305-1446 | parsing what was printed gives back the table exactly when cells hold no line break, rows are not empty, and every cell that begins with a quote without needing quotes is one the parser leaves alone |
| Csv.LastLineIff | include/rapidcsv.h:1373-1379 | with a last line that has no line end, the table comes back exactly when it is a good one and that line is not empty |
| Csv.LineFeedAtEnd | include/rapidcsv.h:1373-1379 | for every text, a line feed at its end changes no row if something is left on the last line, and else adds a row of one empty cell |
| Csv.PrintedIff | include/rapidcsv.h:1427-1440 | exactly the cells with a comma or a space are printed in quotes, theirs doubled |
| Csv.FlagRoundTripIff | include/rapidcsv.h:1339-1382 | the CR flag of any table comes back exactly when the carriage returns printed, in cells and line ends, exceed or do not exceed half the line feeds |
| Csv.FlagRoundTrip | include/rapidcsv.h:1382 | so it comes back with every table that has a row and no line break in a cell |
| Csv.RowIff | include/rapidcsv.h:1321-1370 | the same for one row, whatever was read before it |
| Csv.QuotedCell | include/rapidcsv.h:1427-1436 | a quoted cell comes back whole, whatever quotes and separators it holds |
| Csv.UndoubleDoubled | include/rapidcsv.h:1477-1491 | undoing the doubling of quotes |
| Csv.ReplaceString | include/rapidcsv.h:1534-1541 | the find-and-replace loop replaces all occurrences from the left |
| Csv.Document.ParseCsv | include/rapidcsv.h:1305-1382 | the table, with a last line that has no line end, and the CR flag, the same for every chunk size |
| Csv.Document.ParseChunk | include/rapidcsv.h:1326-1368 | the loop over one chunk is the character machine |
| Csv.Document.WriteRow | include/rapidcsv.h:1426-1443 | the printed row |
| Csv.Document.WriteCsv | include/rapidcsv.h:1424-1446 | the printed text |

## Left out

- NI FIFO calls, IRQ waits, the serial device of the FPGA, logging, printing, command line, daemon, SAL, settings and
  debug files: foreign calls and user interface; reply words and clock readings are inputs.
- Timestamps of `ilcCommands`: no claims; they lag by a frame.
- Commands left unanswered after the last reply of `ilcCommands`: the code does not report them, and neither do the models.
- Device-specific payload handlers, status strings, `Range`, `RoundRobin`, `join` and the clamp of `LimitedPID`:
  single-branch facts.
- `readU48`, `readString` and the signed 8- and 16-bit writes of the codec: further widths of the same pattern.
- The rest of the older `ModbusBuffer`: it repeats the codec; only its delay words are modelled.
- Byte counters of the simulated transport are unbounded numbers; the code's wrap after 2^64 bytes.
- Rounding of doubles in `Pid`: exact reals instead.
- The heap algorithm of the priority queue: a multiset with a least entry on top, except in `TaskQueue`, where push and
  pop are left out.
- A second `start`, tasks that throw, and a second thread waiting on the run condition.
- The text of a line of an Intel HEX file and its checksum: records are given; records without data or that run past
  address 0xFFFF get no image statement.
- `getData` without any record, `missing_response` and a handler with nothing commanded, and a read of a delay past the
  buffer: undefined in the code; results of their own or preconditions here.
- Mode changes around programming a board, and the frames the pages travel in.
- Typed converters, labels, trimming, quoted line breaks, UTF-16 and byte order marks of the CSV library.
