# ForgeDrive: protocols, packing and fixed-point control, verified

A Dafny 4.11 model of the parts of the ForgeDrive firmware and host tool that move,
encode or compute on data. `dafny verify dfyconfig.toml` checks all of it.

Code that works by changing state is modelled by classes and methods with the fields,
branches and loops of the source; each method is proved to do what a function on values
says, and what the source is for is proved of those functions, over every input, every run
or every interleaving. Where the source does not do what its comments say, the code was
followed, the input is given and the exact condition is proved (see "Findings").

| files | what they model |
|---|---|
| `Words`, `BoundedQueue` | fixed-width integers and byte order; the first-in-first-out law the rings share |
| `Ring` | `el::ring_fast`, the ring under the codec |
| `DodCode`, `CodecReader`, `CodecWriter` | the sample codec: prefix code, reader and writer |
| `CodecLayout` | the bytes of the codec, and what decode refuses |
| `CodecEpoch`, `CodecWire`, `CodecFollow`, `CodecRefinement`, `CodecPredictor`, `CodecReady`, `CodecPeriod`, `CodecPressure` | writer, ring, mark queue and reader over whole runs |
| `CodecReserve`, `CodecLostMark`, `CodecLoss` | the same at the limits of the design |
| `AbfCrc`, `AbfStream`, `AbfRecovery`, `AbfErrors` | ABF framing: checksum, encoder and receiver, resynchronisation, broken frames |
| `FdRing`, `FdRingCalls` | `fd_ring_t` between one producer and one consumer, access by access; whole calls |
| `HostRing` | the 64-bit-counter ring of the host tool |
| `Skyline`, `SkylineWaste`, `SkylineSearch`, `SkylineRun`, `Packer`, `PackerNodes`, `PackRects` | the skyline rectangle packer |
| `SelfCommissioning` | the motor identification state machine |
| `SpaceVector`, `Modulation` | space-vector PWM; magnitude estimate and overmodulation clamp |
| `ScopeCapture` | the scope trigger and its capture buffer |
| `Idv`, `Discovery`, `DiscoveryTree` | id-length-value records and the discovery handshake |

## Model

| member | source | states |
|---|---|---|
| DodCode.RestoreResidual | fdlib/middleware/DAQCodec.h:351-358 | decoding a delta-of-delta residual undoes encoding it, for every 16-bit sample and predictor state, wrap-around included |
| DodCode.ParseExactly | fdlib/middleware/DAQCodec.h:427-475 | the byte parser gives back a stream of residuals, of any length, if and only if no zigzag value in it lies in 239..255 |
| DodCode.LosesOneResidual | fdlib/middleware/DAQCodec.h:156-170 | the residual 120 is written as two bytes and read back as two residuals |
| CodecLayout.CodeLayout | fdlib/middleware/DAQCodec.h:153-176 | the bytes of a code: the residual doubled, less one for a negative sign, in one byte, 11 bits or 16 bits, high byte first |
| CodecLayout.RecordLayout | fdlib/middleware/DAQCodec.h:74-94 | the bytes of a resync record: its code, the counter and for each channel sample and difference in two's complement, high byte first |
| CodecWriter.Writer.PushSample | fdlib/middleware/DAQCodec.h:129-186 | the writer as written does exactly the value-level push, of which `CodecPeriod.SyncPeriod`, `CodecPressure.RefusesUntilEmpty` and `CodecPressure.PredictorFollows` say what it comes to |
| CodecWriter.Writer.ReadNext | fdlib/middleware/DAQCodec.h:200-258 | the bytes, count and type handed out, the rest of the caller's buffer untouched, marks and backpressure as specified |
| CodecReader.Reader.Decode | fdlib/middleware/DAQCodec.h:323-350 | the reader as written does exactly the value-level decode of one segment |
| CodecLayout.RefusedExactly | fdlib/middleware/DAQCodec.h:323-399 | which segments decode refuses and with what result, if and only if; a pending update aside, a refused segment changes nothing |
| CodecEpoch.EpochExact | fdlib/middleware/DAQCodec.h:427-511 | from agreement, the bytes of any sequence of frames leave the reader with exactly those frames, at a frame boundary, if and only if every residual is codable |
| CodecRefinement.ControlShowsEpoch | fdlib/middleware/DAQCodec.h:364-399 | in every admissible run no step is undefined, and a reader in sync that decodes a control record has its block ready with exactly the samples accepted since and including the last resync sample, in order, with that resync's counter |
| CodecRefinement.RunKeeps | fdlib/middleware/DAQCodec.h:61-260 | the invariant tying writer, ring, marks, log and reader holds after every admissible run, whatever buffer sizes the reads used |
| CodecRefinement.RunLogs | fdlib/middleware/DAQCodec.h:129-186 | the log the other results speak of is the sequence of samples for which pushSample returned true: none lost, none added, in order |
| CodecPeriod.SyncPeriod | fdlib/middleware/DAQCodec.h:140-184 | over accepted samples alone, from where the writer is about to resync, sample k is a resync record with its mark and its group if and only if k is a multiple of period + 1; every other one adds exactly its codes, one frame and no mark; for every period and number of channels |
| CodecPressure.RefusesUntilEmpty | fdlib/middleware/DAQCodec.h:134-147 | a writer that has refused a sample refuses every sample, over any operations, until a read leaves the ring empty |
| CodecPressure.AcceptsOnceEmpty | fdlib/middleware/DAQCodec.h:253-257 | and then accepts the next one if and only if the ring is longer than the reserve |
| CodecPressure.PredictorFollows | fdlib/middleware/DAQCodec.h:96-104 | over any operations the predictor of each channel is the last sample pushed and its difference from the one before, refused or not |
| CodecReady.TakeShowsEpoch | fdlib/middleware/DAQCodec.h:287-298 | in every admissible run from construction, what getSamples finds ready is exactly one whole epoch, in order, with its counter |
| CodecRefinement.ReserveSuffices | fdlib/middleware/DAQCodec.h:140-147 | a writer whose stored reserve covers a resync record has room for the worst codes of any sample it does not refuse, and for the record |
| CodecReserve.ReserveExactly | fdlib/middleware/DAQCodec.h:103-107 | for every number of channels: no push ever costs an unread byte if and only if the stored 8-bit reserve covers a resync record |
| CodecReserve.EnoughFor | fdlib/middleware/DAQCodec.h:103-107 | that is for 1 to 15, 22 to 31 and 43 to 47 channels and no others |
| CodecRefinement.UnreadBytesStay | fdlib/middleware/DAQCodec.h:140-147 | no push or flush overwrites an unread byte, and backpressure is never set with nothing left to read |
| CodecRefinement.PredictorsAgree | fdlib/middleware/DAQCodec.h:476-497 | whenever the next segment is a control record, however many are queued, the reader's predictor is the writer's after the last frame of the epoch being read |
| CodecPredictor.PredictorTracks | fdlib/middleware/DAQCodec.h:400-426 | in every run, wherever the last segment was cut, a reader in sync stands k whole frames into its epoch: predictor, block and residuals put aside are those of the first k frames |
| CodecPredictor.GapMeansResync | fdlib/middleware/DAQCodec.h:135-152 | after a refused sample or a flush, over any operations without an accepted sample, the next accepted sample is a full resync record showing that sample |
| CodecLostMark.ResyncNeedsMark | fdlib/middleware/DAQCodec.h:74-81 | the invariant survives a resync if and only if the mark queue has room; without, it never returns in any later run, and the record is read as samples |
| CodecLostMark.FlushNeedsMark | fdlib/middleware/DAQCodec.h:187-199 | the same for a flush record |
| CodecLostMark.QueueFills | fdlib/middleware/DAQCodec.h:187-199 | a full queue is reached from construction by as many flushes as it has room for |
| CodecLoss.ResyncHeals | fdlib/middleware/DAQCodec.h:385-399 | whatever a reader has missed, a resync record brings it back into agreement if and only if it has no residual put aside |
| CodecLoss.OffForGood | fdlib/middleware/DAQCodec.h:476-497 | otherwise no number of resync records with their samples ever does |
| BoundedQueue.InOrder | ForgeTool/RingBuffer.hpp:42-91 | in every run of a bounded queue what was delivered, followed by what is held, is what was accepted |
| Ring.PushIsPut | fdlib/fd/ring.h:39-49 | `push` on the codec's ring is a put on such a queue that leaves one slot free, and its result says whether there was room |
| Ring.DropIsGet | fdlib/fd/ring.h:207-210 | committing a read on the codec's ring is a get on that queue |
| Ring.RingFast.PushFast | fdlib/fd/ring.h:50-57 | the unchecked push appends, or, on a full ring, loses everything unread |
| Ring.RingFast.DistanceFromTail | fdlib/fd/ring.h:91-106 | the distance is found exactly for the indices of unread elements |
| Ring.RingFast.ReadReserve | fdlib/fd/ring.h:166-206 | two runs within the buffer that hold the unread elements in order |
| AbfCrc.TableIsShift8 | fdlib/middleware/ABFStream.cpp:7-25 | every entry of the table is eight steps of division by the CRC-8/AUTOSAR polynomial |
| AbfCrc.Crc8Calculate | fdlib/middleware/ABFStream.cpp:30-39 | the table-driven loop computes the bitwise CRC |
| AbfCrc.OneByteChanges | fdlib/middleware/ABFStream.cpp:30-39 | changing any one byte of a message of any length changes its CRC |
| AbfCrc.CheckValue | fdlib/middleware/ABFStream.cpp:30-39 | the CRC of "123456789" is 0xDF, the check value of the standard |
| AbfStream.Stream.Encode | fdlib/middleware/ABFStream.cpp:62-95 | the in-place encoder leaves the header and the encoded payload (`AbfRecovery.HeaderLayout`, `AbfRecovery.PayloadLayout`), the last header byte being the CRC-8 of the three before it with zero replaced by 0xFF, or reports an invalid call |
| AbfStream.Stream.Process | fdlib/middleware/ABFStream.cpp:96-162 | the receiver as written does the value-level receive of every byte, with the callbacks it makes logged |
| AbfStream.ProcessConcat | fdlib/middleware/ABFStream.cpp:96-162 | the receiver may be fed in any chunks |
| AbfRecovery.HeaderLayout | fdlib/middleware/ABFStream.cpp:70-86 | the header of a frame: sync, id, length, and one more than the index of the first zero or the length |
| AbfRecovery.PayloadLayout | fdlib/middleware/ABFStream.cpp:74-86 | the encoded payload: each byte as it is, and each zero as the distance to the next zero or to the end |
| AbfRecovery.OnlySyncIsZero | fdlib/middleware/ABFStream.cpp:62-95 | the only zero of a frame is its sync byte, and the code byte exactly when the payload is 255 bytes without a zero |
| AbfRecovery.RoundTrip | fdlib/middleware/ABFStream.cpp:96-162 | every id and payload the encoder accepts is delivered once, unchanged and without error |
| AbfRecovery.BadChecksumStillDelivers | fdlib/middleware/ABFStream.cpp:108-126 | a wrong header checksum is reported and the frame is delivered all the same |
| AbfRecovery.DamageReported | fdlib/middleware/ABFStream.cpp:108-122 | a change of any one of the id, length and code bytes is reported as HEADER_CRC_MISMATCH, if and only if the sums before and after are not 0x00 and 0xFF |
| AbfRecovery.DamageUnreported | fdlib/middleware/ABFStream.cpp:111-113 | such a pair of sums exists: id 10 changed to 75 passes unreported |
| AbfErrors.TooLong | fdlib/middleware/ABFStream.cpp:127-149 | a frame longer than the buffer is reported as RX_BUFFER_SMALL once and not delivered, and the receiver is back in step |
| AbfErrors.BreakCostsNext | fdlib/middleware/ABFStream.cpp:127-161 | a frame broken off in its payload is reported as PAYLOAD_INCOMPLETE and takes the next frame, if its code byte is not zero, with it; a one-byte payload that never came is delivered as zero |
| AbfRecovery.ThirdFrameArrives | fdlib/middleware/ABFStream.cpp:96-162 | from any state of the receiver, after two frames whose code byte is not zero or whose first payload byte is below 253, the third is delivered intact |
| AbfRecovery.RecoveryExactly | fdlib/middleware/ABFStream.cpp:96-162 | two copies of a frame bring every receiver back in step if and only if its code byte is not zero or its first payload byte is below 253 |
| AbfRecovery.NeverDelivers | fdlib/middleware/ABFStream.cpp:127-161 | otherwise a receiver caught in the middle of a payload delivers none of any number of copies |
| AbfRecovery.TrapReached | fdlib/middleware/ABFStream.cpp:108-126 | five bytes after construction leave the receiver in such a state |
| FdRing.Always | fdlib/fd/fd_ring.h:54-130 | in every interleaving, access by access, granted spans lie in the buffer, are disjoint, have the promised total, never overlap the other side's bytes, and what is received is what was sent, in order |
| FdRing.RequestKept | fdlib/fd/fd_ring.h:54-87 | the count a reserve was called with is the count of the spans it grants, whatever the consumer does meanwhile |
| FdRing.StepIsQueue | fdlib/fd/fd_ring.h:42-53 | every access is a put, a get or no change of a bounded queue; the two commits take effect when they publish their index |
| FdRing.ReserveAlone | fdlib/fd/fd_ring.h:54-87 | an uninterrupted write_reserve succeeds exactly when the count fits, with the spans that follow the unread bytes |
| FdRing.AcquireAlone | fdlib/fd/fd_ring.h:88-130 | an uninterrupted read_reserve succeeds exactly when something is unread, and grants all of it |
| FdRingCalls.WriteGoesThrough | fdlib/fd/fd_ring.h:42-87 | in any interleaving with the consumer, a write that fits when write_reserve is called is granted, and when its commit returns exactly its bytes have been sent and head has moved on by as many |
| FdRingCalls.ReadGoesThrough | fdlib/fd/fd_ring.h:48-130 | in any interleaving with the producer, a read of bytes unread when read_reserve is called gets exactly those, in order, and tail moves on by as many |
| FdRingCalls.CommitPublishes | fdlib/fd/fd_ring.h:42-46 | write_commit of n publishes exactly the first n bytes stored and moves head by n, whatever the consumer does meanwhile |
| FdRingCalls.ReleaseFrees | fdlib/fd/fd_ring.h:48-52 | read_commit of n releases exactly the first n bytes loaded and moves tail by n, whatever the producer does meanwhile |
| HostRing.RingBuffer.Push | ForgeTool/RingBuffer.hpp:42-63 | the longest prefix that fits is appended, whatever the counters have wrapped to |
| HostRing.RingBuffer.Pop | ForgeTool/RingBuffer.hpp:64-85 | the longest prefix there is comes out in order, the rest of the destination untouched |
| HostRing.LeastPower | ForgeTool/RingBuffer.hpp:16-27 | the capacity chosen is the least power of two that is enough |
| HostRing.Drive | ForgeTool/RingBuffer.hpp:42-91 | any calls on the class, one after another, are the run of a bounded queue |
| Skyline.FindMinYExact | thirdparty/imgui/imstb_rectpack.h:291-338 | the height found for a position is the highest column under the rectangle |
| SkylineRun.EveryScanExact | thirdparty/imgui/imstb_rectpack.h:291-338 | in every run from a flat target, with any heuristics and alignments, each scan finds exactly the highest column under the rectangle and exactly the area lost |
| Packer.Packer.ScansExact | thirdparty/imgui/imstb_rectpack.h:291-338 | the same of the packer's own list after any of its calls |
| SkylineWaste.WasteFound | thirdparty/imgui/imstb_rectpack.h:291-338 | the wasted area computed, on any skyline and for any start: the true area plus what columns counted left of the rectangle cost |
| SkylineWaste.WasteExactly | thirdparty/imgui/imstb_rectpack.h:291-338 | on any skyline it is never less than the true area, and equal if and only if no such column is made to cost anything by the steps under the rectangle |
| Skyline.LeftAlignedIsLowest | thirdparty/imgui/imstb_rectpack.h:366-391 | sliding a rectangle to the start of the step under its left edge never raises it, so trying those positions is enough |
| Skyline.PlaceRaises | thirdparty/imgui/imstb_rectpack.h:464-500 | the splice raises exactly the columns under the rectangle, to exactly its top |
| Skyline.PackSafe | thirdparty/imgui/imstb_rectpack.h:449-470 | a rectangle packed where the search puts it stays inside the target and overlaps no other |
| SkylineSearch.BestPosChosen | thirdparty/imgui/imstb_rectpack.h:347-447 | what the two search loops compute is a candidate no other beats in the order of the heuristic, or nothing because nothing fits |
| Packer.Packer.PackRectangle | thirdparty/imgui/imstb_rectpack.h:449-534 | on the linked lists: succeeds exactly when there is room for the aligned width and a free node, at the lowest position there is, raising exactly those columns; both lists stay well linked and every node is on exactly one; nothing changes on failure |
| Packer.Packer.NodesSuffice | thirdparty/imgui/imstb_rectpack.h:144-153 | with as many nodes as columns a free node is always left |
| PackerNodes.RunsOutExactly | thirdparty/imgui/imstb_rectpack.h:245-263 | some run takes every node if and only if the target is wider than its number of nodes, aligned or not, and then leaves room for more |
| PackerNodes.QuantumIsLeast | thirdparty/imgui/imstb_rectpack.h:245-263 | the alignment chosen is the least with which the nodes' aligned widths cover the target, or 1 |
| PackRects.PackRects | thirdparty/imgui/imstb_rectpack.h:546-583 | every rectangle is back at its index; those given a place are inside the target and apart from each other and all packed before; the rectangles had their turns tallest first, and each was placed, as low as can be, if and only if there was then room for it and a free node; so for any number of nodes, if one is left in the end only rectangles without room are refused; the result says whether any was |
| SelfCommissioning.Always | ForgeDriveMC/PmsmControl/PmsmControlCore_SComm.cpp:19-213 | in every interleaving of the two loops each result is the mean of exactly 32768 samples measured one after another in its own stage, each at least the settling time after it began; each sample is the current one PWM tick delivered (id in RS and LD, iq in LQ), in LD and LQ times the sine and cosine of the next tick; no accumulator overflows; only the axis under test is driven, with the injected voltage times the sine |
| SelfCommissioning.MulQ31Shifts | ForgeDriveMC/PmsmControl/PmsmControlCore_SComm.cpp:39-40 | those products are shifted right by 31, rounding down |
| SelfCommissioning.StageOrder | ForgeDriveMC/PmsmControl/PmsmControlCore_SComm.cpp:67-213 | the stages follow one another in one order; a stage is left only by a slow tick that found its samples or its waiting time used up |
| SelfCommissioning.StageCompletes | ForgeDriveMC/PmsmControl/PmsmControlCore_SComm.cpp:95-106 | a slow tick concludes a sampling stage exactly when at least as many PWM ticks have passed as samples were left |
| SelfCommissioning.WaitingEnds | ForgeDriveMC/PmsmControl/PmsmControlCore_SComm.cpp:89-94 | a slow tick ends the settling exactly when more than 20000 PWM ticks have passed since it began |
| SelfCommissioning.StageRuns | ForgeDriveMC/PmsmControl/PmsmControlCore_SComm.cpp:75-142 | so a stage yields its result after a slow tick, more than 20000 PWM ticks, another, at least 32768 PWM ticks and a third |
| SelfCommissioning.Commissioning.XmcLoop | ForgeDriveMC/PmsmControl/PmsmControlCore_SComm.cpp:67-213 | the switch with its fall-through does the same as the stages taken apart |
| SpaceVector.PhasesFit | ForgeDriveMC/platform/host/fd_mc3p.cpp:279-287 | no intermediate value leaves 32 bits, for all 16-bit inputs |
| SpaceVector.FloatsExactlyAtZero | ForgeDriveMC/platform/host/fd_mc3p.cpp:289-305 | only the zero vector has no sector |
| SpaceVector.SectorIsExact | ForgeDriveMC/platform/host/fd_mc3p.cpp:289-305 | rounding never moves a vector to another sector |
| SpaceVector.SectorIsNearest | ForgeDriveMC/platform/host/fd_mc3p.cpp:289-305 | the sector is the one of the six whose middle, at 0, 60, ... 300 degrees, the vector points along most |
| SpaceVector.HalfTurn | ForgeDriveMC/platform/host/fd_mc3p.cpp:289-305 | the opposite vector is in the opposite sector, unless it lies on a line between two |
| SpaceVector.InjectionKeepsLines | ForgeDriveMC/platform/host/fd_mc3p.cpp:307-320 | zero-sequence injection keeps all line-to-line values and centres the duties |
| SpaceVector.StoreIsExact | ForgeDriveMC/platform/host/fd_mc3p.cpp:321-329 | the 16-bit stores lose nothing if and only if the phases span at most 32766 |
| SpaceVector.CircleIsExact | ForgeDriveMC/platform/host/fd_mc3p.cpp:270-331 | every vector within a radius of 18917 is stored exactly |
| SpaceVector.CircleIsSharp | ForgeDriveMC/platform/host/fd_mc3p.cpp:321-329 | one count further out a duty of 32768 becomes -32768 |
| SpaceVector.Limit | ForgeDriveMC/platform/host/fd_mc3p.cpp:203-205 | the duty applied is the greatest one allowed that is not above the duty asked for, zero being always allowed |
| SpaceVector.CompensationHelps | ForgeDriveMC/platform/host/fd_mc3p.cpp:321-324 | dead-time compensation never lowers the duty of a phase with positive current nor raises another, and what it gives fits 16 bits |
| SpaceVector.Handle.WriteSvm | ForgeDriveMC/platform/host/fd_mc3p.cpp:270-331 | the handle after the call: duties, sector, phase states and what is applied |
| Modulation.MaxaMinb | ForgeDriveMC/PmsmControl/PmsmControlCore_Foc.cpp:14-30 | the estimate is within 1.2% of the true magnitude, but for rounding, whenever both sums stay below 2^62; otherwise it is not what survives the stores |
| Modulation.StoredExactly | ForgeDriveMC/PmsmControl/PmsmControlCore_Foc.cpp:14-30 | the 32-bit stores keep the estimate if and only if both sums stay below 2^62 |
| Modulation.LongestIsNegative | ForgeDriveMC/PmsmControl/PmsmControlCore_Foc.cpp:14-30 | the longest vector has a negative magnitude |
| Modulation.IndexIsRatio | ForgeDriveMC/PmsmControl/PmsmControlCore_Foc.cpp:124-126 | the modulation index is the square root of 3 times magnitude over bus limit, in 4096ths and rounded down |
| Modulation.Clamp | ForgeDriveMC/PmsmControl/PmsmControlCore_Foc.cpp:122-133 | exactly when the modulation index is above the limit both voltages are scaled by the quotient, keeping the direction, within 32 bits; with a positive bus limit the index of the result is within the limit but for rounding where both sums stay below 2^62, and nothing is clamped where neither does |
| Modulation.NegativeIsNotClamped | ForgeDriveMC/PmsmControl/PmsmControlCore_Foc.cpp:124-128 | the magnitude is negative if and only if both sums reach 2^62; its index is then above no limit, although that of the true magnitude is at least 7094 for every bus limit |
| Modulation.LongestIsNotClamped | ForgeDriveMC/PmsmControl/PmsmControlCore_Foc.cpp:124-128 | the longest vector is such a one |
| ScopeCapture.LookKeeps | fdlib/middleware/ScopeStream.h:42-70 | every trigger is on a sample above level plus hysteresis, and between two the signal went below level minus hysteresis |
| ScopeCapture.TriggersExactly | fdlib/middleware/ScopeStream.h:51-64 | waiting, the scope triggers on the first sample above level plus hysteresis that follows a dip below level minus hysteresis, or is armed from the start, and on no other |
| ScopeCapture.ScopeStream.Write | fdlib/middleware/ScopeStream.h:42-84 | one call counts towards decimation, triggers or fills; a frozen scope changes nothing |
| ScopeCapture.ScopeStream.Read | fdlib/middleware/ScopeStream.h:85-94 | succeeds exactly when frozen and the buffer is big enough, with the samples from the trigger on |
| ScopeCapture.ScopeStream.ReadChannel | fdlib/middleware/ScopeStream.h:95-108 | the same for one channel |
| ScopeCapture.ScopeStream.FullCapture | fdlib/middleware/ScopeStream.h:71-84 | a frozen scope has triggered, and its buffer is exactly the `depth` consecutive decimated samples beginning with the one that triggered |
| Idv.ParseEncode | fdlib/middleware/IDV.h:45-118 | reading a record gives back the fields written |
| Idv.Writer.Add | fdlib/middleware/IDV.h:22-57 | a field is appended whole, or not at all when it does not fit |
| Idv.Reader.Next | fdlib/middleware/IDV.h:104-119 | steps through exactly the fields of the record, and never past its end |
| Discovery.Session.Annotate | fdlib/middleware/DAQStream.cpp:4-16 | every node is numbered by its place in the tree, modulo 256 |
| Discovery.Session.DiscoveryRespond | fdlib/middleware/DAQStream.cpp:28-55 | exactly one record for each node is sent, in the order of the tree, between two marks |
| Discovery.HostSession.Process | fdlib/middleware/DAQStream.cpp:57-78 | the host's loop over one record does what its handlers do to the parsed fields |
| Discovery.RecordRebuilds | ForgeTool/DAQSessionAPP.h:104-160 | a record changes the object with its id and no other, whatever came before |
| DiscoveryTree.DiscoveryRebuilds | ForgeTool/DAQSessionAPP.h:104-160 | after a whole response the host has one object for each node, each saying exactly what its record said: marker, parent, id, name and every other field |
| DiscoveryTree.HostHoldsTree | ForgeTool/DAQSessionAPP.h:104-160 | that is the tree: the session, each stream and each channel under its place in the order sent, with its parent, name, counts, times, scale and offset, and nothing else |
| DiscoveryTree.MarkEndsRecord | ForgeTool/DAQSessionAPP.h:104-125 | a mark ends the record before it: until the next id, fields belong to no object |
| DiscoveryTree.DiscoveryExactly | fdlib/middleware/DAQStream.cpp:4-16 | that holds if and only if there are at most 256 nodes |

## Findings

Where the code does not keep a promise of its comments or tests, with the exact condition.

- The prefix code gives zigzag values from 239 up a two-byte code whose first byte may be 240, which the parser does not take for a prefix: `DodCode.ParseExactly`, `CodecEpoch.EpochExact`.
- A full mark queue loses the mark of a control record for good: `CodecLostMark.ResyncNeedsMark`, `CodecLostMark.FlushNeedsMark`.
- The writer's reserve is stored in 8 bits and wraps from 16 channels on: `CodecReserve.ReserveExactly`.
- A resync record does not reset the reader's current channel, so after a loss in the middle of a frame it does not bring the reader back: `CodecLoss.ResyncHeals`, `CodecLoss.OffForGood`.
- An ABF header with a wrong checksum is reported but not dropped: `AbfRecovery.BadChecksumStillDelivers`.
- An ABF header damaged in one byte passes if its sum goes from 0x00 to 0xFF or back, because a sum of zero is sent as 0xFF: `AbfRecovery.DamageReported`, `AbfRecovery.DamageUnreported`.
- ABF resynchronisation fails for full zero-free payloads that begin with 253 or more: `AbfRecovery.RecoveryExactly`.
- Aligning widths does not make any number of nodes enough: `PackerNodes.RunsOutExactly`.
- Duties beyond a vector length of about 2^15 / sqrt(3) may wrap when stored: `SpaceVector.StoreIsExact`.
- The magnitude estimate of long vectors wraps, and where both its sums reach 2^62 it switches the overmodulation clamp off: `Modulation.StoredExactly`, `Modulation.NegativeIsNotClamped`.
- More than 256 nodes share ids, and the host loses the session: `DiscoveryTree.DiscoveryExactly`.

## Left out

- CodecRefinement.ControlShowsEpoch: runs are of 1 to 14 channels, because the reader refuses a resync record of more than 64 bytes and one of 15 channels has 65; the block is to hold `channels * (1 + period)` samples; pushes are to be codable and to find room for their mark (`DodCode.ParseExactly` and `CodecLostMark.ResyncNeedsMark` say what happens otherwise); a reader in sync is not to miss segments (`CodecLoss.ResyncHeals` says what happens when it does).
- CodecRefinement.RunKeeps: runs begin with a writer and a reader just constructed; `Writer::reset` in the middle of a run leaves the marks in place and is modelled as a method only.
- CodecReader.Reader.Decode: `decodeResyncDod` reads one byte past the segment; that byte is a parameter, and no result depends on it.
- CodecWriter.Writer.PushSample: `reset_state`, and `ring_fast::write_reserve`, which the codec does not call, are not modelled.
- FdRing.Always: accesses are sequentially consistent; compiler and processor reordering around the volatile indices is not modelled.
- Ring.RingFast.ReadReserve: capacities are any size up to 32768; the power-of-two test of the constructor is not needed by the proofs.
- HostRing.RingBuffer.Push: the mutex that serialises the calls is left out.
- PackRects.PackRects: the C library's `qsort` is represented by a sort of our own of which only the contract is used; negative sizes are excluded.
- Packer.Packer.PackRectangle: `int` overflow of widths near 2^31 and of the wasted area is not modelled.
- SelfCommissioning.Always: runs start as on entry to a machine that has not run before (`SComm_onEnter` does not reset the sub-stage); a slow tick is atomic with respect to the PWM interrupt; the floating-point results, Imag2 and the forced electrical angle are left out.
- SpaceVector.Handle.WriteSvm: the polarity of the dead-time compensation is an input, and the timer registers are left out.
- Modulation.MaxaMinb: the component -2^31 is excluded, because negating it is undefined.
- Modulation.Clamp: a bus limit whose upper half is 0 (a division by zero) and a negative index limit are excluded; what is clamped where only one of the two sums reaches 2^62 is stated through the stored magnitude only; only the clamp of `Foc_pwmLoop` is modelled; the transforms and the PID state are not.
- ScopeCapture.ScopeStream.Write: `hyst_trig`, which the constructor leaves uninitialised, starts as false; levels are constant and samples unbounded integers.
- Idv.Reader.Next: the span of the reader is the record itself; in the host tool the reader is never bound to the received data.
- Discovery.Session.DiscoveryRespond: names are at most 255 bytes, each record fits the buffer, streams do not share their channels, and `send` is a log.
- Discovery.HostSession.Process: the table of field names, which is read out of range for unknown ids, is left out.
- AbfStream.Stream.Process: the callbacks are a log of what they were called with, not code that runs.
- USB, UART and TCP drivers, the user interface, the encoder and Hall sensors, the velocity loop, configuration storage and the plant simulation are not modelled.
