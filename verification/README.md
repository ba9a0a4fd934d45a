# The FCC streaming plugin, verified

The plugin receives an IPTV channel over RTP or HTTP, passes its bytes through a pool of recycled buffers, cuts them into
chunks, indexes the chunks for time shift and looks into the transport stream for the tables that describe its
protection. This project models the parts of it that carry state from one call to the next, and proves what they keep
over whole runs. Objects that the source updates in place are classes here; each of their methods is proved against a
function on values, and the theorems are about those functions.

| part | files | main theorems |
|---|---|---|
| RTP reorder buffer | `RtpSequence`, `RtpReorder`, `RtpOrder`, `RtpLimits`, `RtpListener` | `RunConserves`, `DeliversEverything`, `DeliversExactly`, `RegularRunIsOrderly` |
| JSON printer and parser, protection export | `JsonValue`, `JsonPrinter`, `JsonParser`, `JsonReader`, `JsonRoundTrip`, `JsonExact`, `ProtectionExport` | `RoundTripExactly`, `StrippedRoundTripExactly`, `GetJsonAsString` |
| From HTTP writes to TS packets | `Framing`, `Stages`, `Pipeline` | `DeliveredExactly`, `NothingRefusedExactly` |
| Buffer pool | `BufferPool` | `RunIsSafe`, `HolderNeverWaits`, `NeverStuck` |
| Time index, time-shift reader, trick play | `TimeIndex`, `TimeShift`, `TimeShiftReach`, `TrickPlay`, `TimeShiftRuns`, `TimeShiftConsumer` | `OffsetIsLastSample`, `SeekRoundTrip`, `TimeForOffsetMonotone`, `RunWithinCapacity`, `NeverAheadExactly`, `RewindInRuns`, `ForwardInRuns` |
| PAT, PMT and ECM parsing | `PsiTables`, `PsiParser`, `PsiRun`, `PsiPat`, `PsiPmt`, `PsiEcm`, `PsiCollect`, `PsiPackets`, `PsiStreamParser` | `ReassembledExactly`, `PacketiseRoundTrip`, `ParsePmtMeans`, `RunIsConsistent` |

## What the proofs found

Where the code does not do what one would expect, the model follows the code. Where that limits a theorem, the theorem
states the exact condition.

- `diffSequenceNumber` has the right sign for every pair but the wrong magnitude when the second number lies behind the
  first across the wrap. A packet one step late across 65535 to 0 therefore counts as a discontinuity; elsewhere it does
  not.
- Late packets within ten are cached and not dropped. Five of them fill the cache, and the listener then steps round the
  whole cycle to the first of them, delivers them a second time and expects again what it delivered before.
- A stream out of sync loses more than the packets without sync byte: the parser takes one such packet per chunk, the
  chunks pile up, and the third finds no room and is dropped. The parser gets everything that was written if and only if
  every 188-byte slice, as far as packets were taken, starts with the sync byte.
- The JSON text of a bare integer does not parse back. Unsigned integers come back as signed ones, strings are cut at a
  NUL, and an object key survives only if it has the form that escaping produces. The protection export survives the
  erasure of white space exactly when the channel name holds no NUL, blank or vertical tab.
- The time index answers a repeated question from memory, and neither a new sample nor clearing the index makes it
  forget. On a new channel a seek can so reach back further than the channel's exposed bytes, though never further than
  the reported capacity, and a paused post after it can put the read position ahead of the live point.
- For the same reason a rewind or a fast forward can go on for ever: a tick that asks for the time last asked for is sent
  to the offset remembered for it, and if that has the reported time of the present one, every later tick does the same.
  `RewindInRuns` and `CloseForwardInRuns` say exactly when; otherwise winding ends.
- Fast forward also stands still at a sample whose successor is at least a tick's leap younger. It reaches the live
  point if and only if neither this nor the memory holds it up.
- A lookup of a time out of range reports an error the first time and success when it is repeated. No seek is affected,
  because times are cut to the length of the index before.
- In a PAT whose first entry is the network entry, the second entry's program number is taken for the PMT PID.
- The parser state for a received ECM is never entered. Opening a channel does not forget whether the last stream was
  clear.
- A change of PAT or PMT does not end the collection of an ECM section. Packets of a new ECM PID then go on filling the
  section begun on the old one, and the mixture is taken over as the ECM table. The table is the section that was sent
  if and only if all packets that reached the collection carried it.

## Assumptions

- The clock never runs backwards, and the number of chunks in the ring buffer pool only grows. The pool answers a read
  with bytes that have been posted.
- The chunk size is a parameter of at least 188 bytes; its definition is not part of this repository.
- Floating-point interpolation is computed exactly, as a rational number that is then cut to an integer.
- Counters and byte counts are unbounded. Sequence numbers keep their sixteen bits, PIDs and lengths in packets their
  thirteen and twelve, and integers in JSON are longs.
- The methods that the source guards with a mutex are single steps.
- Pause time accrues only in posts, behind a registration, so that there is none without samples.
- A player that has been paused keeps its file handle open until it plays again; the paused branch of `post` reads the
  first handle without a check.
- A JSON text reads as NUL behind its end. The source reads one NUL there and is out of bounds behind it, as on a text
  that breaks off inside an array or behind a backslash. For printed values nothing behind the text matters
  (`NothingBehindMatters`).
- Bytes behind the end of a packet read as 0 in the functions of `PsiTables`; the class demands that the fields of a PAT
  or PMT lie inside the packet and that the lengths in a PMT add up, without which the source's counters wrap around.

## Model

| member | source | states |
|---|---|---|
| RtpSequence.DiffAgainstSerialOrder | 3rdparty/rtp/RtpStreamListener.cpp:147-166 | for all pairs the comparison has the sign of the signed cyclic distance, and its magnitude exactly when the second number is not behind the first across the wrap |
| RtpSequence.DiscontinuityExactly | 3rdparty/rtp/RtpStreamListener.cpp:206-212 | an arrival counts as a discontinuity exactly unless it is at most ten ahead of the expected number or at most ten late on the same side of the wrap |
| RtpSequence.LateAcrossWrapIsDiscontinuity | 3rdparty/rtp/RtpStreamListener.cpp:158-159 | one step late across the wrap is a discontinuity, one step late elsewhere is not |
| RtpReorder.InsertConserves | 3rdparty/rtp/RtpStreamListener.cpp:221-240 | insertion adds exactly the new packet to the cache |
| RtpOrder.PassIdleExactly | 3rdparty/rtp/RtpStreamListener.cpp:272-281 | a walk delivers nothing and changes nothing exactly when the expected number is not cached |
| RtpReorder.NearestShrinks | 3rdparty/rtp/RtpStreamListener.cpp:285-289 | stepping over a number that is not cached brings the nearest cached one a step closer: the measure by which gap skipping ends |
| RtpReorder.Drain | 3rdparty/rtp/RtpStreamListener.cpp:268-294 | draining ends from every state, never with five packets cached and never with the expected number cached |
| RtpReorder.DrainConserves | 3rdparty/rtp/RtpStreamListener.cpp:268-294 | draining neither loses nor duplicates a packet |
| RtpReorder.PushAllDelivers | 3rdparty/rtp/RtpStreamListener.cpp:214-217 | a flush delivers the cache in list order and expects the number after its last packet |
| RtpReorder.ArriveKeepsQuiet | 3rdparty/rtp/RtpStreamListener.cpp:202-255 | an arrival never aborts, leaves at most four packets cached, none of them the expected one, and conserves the packets |
| RtpReorder.RunConserves | 3rdparty/rtp/RtpStreamListener.cpp:202-294 | over every run: no abort, at most four packets cached between arrivals, and delivered plus cached packets are as a multiset exactly the arrivals |
| RtpOrder.InsertAscending | 3rdparty/rtp/RtpStreamListener.cpp:226-239 | inserting a number ahead that is not cached keeps the cache strictly ascending in serial order |
| RtpOrder.PassDelivers | 3rdparty/rtp/RtpStreamListener.cpp:272-281 | a walk over an ascending cache delivers exactly its gapless head |
| RtpOrder.DrainFull | 3rdparty/rtp/RtpStreamListener.cpp:285-289 | a full cache makes the listener step over at most six numbers, none of them cached, up to the first cached one |
| RtpLimits.DrainSkips | 3rdparty/rtp/RtpStreamListener.cpp:285-289 | any full cache, in whatever order, makes the listener step over all numbers up to the nearest cached one |
| RtpOrder.ArriveOrderly | 3rdparty/rtp/RtpStreamListener.cpp:202-255 | an arrival that is neither late, duplicate nor discontinuous keeps the cache ascending and the output going forward |
| RtpOrder.RegularRunIsOrderly | 3rdparty/rtp/RtpStreamListener.cpp:202-294 | while no arrival is late, duplicate or discontinuous, all cached numbers are one to ten ahead in ascending order and each delivered number is one to seven after the one before |
| RtpOrder.FlushInOrder | 3rdparty/rtp/RtpStreamListener.cpp:212-221 | a discontinuity after such a run delivers the cache in serial order and then the newcomer |
| RtpOrder.PassIsAdvance | 3rdparty/rtp/RtpStreamListener.cpp:272-281 | a walk over the cache refines the advance of an ideal receiver that counts packets without wrap-around |
| RtpOrder.InsertIsPlace | 3rdparty/rtp/RtpStreamListener.cpp:226-239 | caching refines the ideal receiver's sorted insertion |
| RtpOrder.ArriveIsIdeal | 3rdparty/rtp/RtpStreamListener.cpp:202-255 | one arrival at the listener is one arrival at the ideal receiver |
| RtpOrder.ListenerIsIdeal | 3rdparty/rtp/RtpStreamListener.cpp:147-294 | a whole run of the listener is a run of the ideal receiver, for stretches of any length and any number of wraps |
| RtpOrder.IdealRunTracks | 3rdparty/rtp/RtpStreamListener.cpp:202-294 | the ideal receiver waits for the first missing packet and holds exactly the arrived ones beyond it |
| RtpOrder.DeliversInOrder | 3rdparty/rtp/RtpStreamListener.cpp:147-294 | consecutive packets arriving first one first, none more than ten past the first missing one, never more than four held, are delivered in order up to the first missing one |
| RtpOrder.DeliversEverything | 3rdparty/rtp/RtpStreamListener.cpp:147-294 | once all have arrived, the delivered packets are exactly the originals in sequence order and nothing is cached |
| RtpLimits.DeliversExactly | 3rdparty/rtp/RtpStreamListener.cpp:147-294 | consecutive packets of any number that all arrive, none twice and none a cycle ahead, are delivered in sequence order if and only if the first comes first, none is more than ten past the first missing one and never more than four wait |
| RtpLimits.ShortIsWithinCycle | 3rdparty/rtp/RtpStreamListener.cpp:147-166 | in a stretch of up to 65526 packets none can be a cycle ahead |
| RtpLimits.LateBurstRewinds | 3rdparty/rtp/RtpStreamListener.cpp:221-294 | five late packets after ten in sequence are delivered a second time and put the expected number back |
| RtpListener.RtpStreamListener.ProcessRtpPacket | 3rdparty/rtp/RtpStreamListener.cpp:202-255 | the object's step is the arrival function; the full-cache branch is unreachable; packets are conserved |
| RtpListener.RtpStreamListener.PushBufferToBQ | 3rdparty/rtp/RtpStreamListener.cpp:257-266 | delivers the packet and expects the next number modulo 65536 |
| RtpListener.RtpStreamListener.FlushCache | 3rdparty/rtp/RtpStreamListener.cpp:214-217 | the erasing loop delivers every cached packet in list order |
| RtpListener.RtpStreamListener.InsertIntoCache | 3rdparty/rtp/RtpStreamListener.cpp:221-240 | the iterator loop inserts before the first cached packet that compares greater |
| RtpListener.RtpStreamListener.ProcessCachedBuffers | 3rdparty/rtp/RtpStreamListener.cpp:268-294 | the loop ends and computes the drain function |
| RtpListener.RtpStreamListener.WalkCache | 3rdparty/rtp/RtpStreamListener.cpp:272-281 | one walk with erasure in place computes the pass function and tells whether anything was delivered |
| JsonValue.LessIsStrict | include/utils/json.hpp:504-506 | the key order of the map is strict and transitive |
| JsonValue.PutAppends | include/utils/json.hpp:322-325 | assigning a key above all others appends it |
| JsonValue.JsonEscape | include/utils/json.hpp:52-83 | the escaping loop computes the escape function |
| JsonValue.EscapedExactly | include/utils/json.hpp:52-83 | the texts that escaping a NUL-free string can give, as a computable condition: every backslash starts one of the seven escapes and nothing stands bare that would be escaped |
| JsonPrinter.Dump | include/utils/json.hpp:446-489 | printing yields the rendering whose exact inverse the parser is |
| JsonPrinter.DumpArray | include/utils/json.hpp:464-474 | the array loop separates the items by comma and blank |
| JsonPrinter.DumpObject | include/utils/json.hpp:453-463 | the object loop prints padded fields separated by commas and closes one level less deep |
| JsonParser.Scan | include/utils/json.hpp:643-694 | reading a string ends for every text, behind where it started |
| JsonParser.ParseNext | include/utils/json.hpp:771-793 | parsing ends for every text and never goes back |
| JsonReader.ConsumeWs | include/utils/json.hpp:569-571 | the loop skips exactly the white space |
| JsonReader.ReadString | include/utils/json.hpp:640-695 | the string loop computes the scan function, with all escapes, cut-off texts and bad hexadecimal digits |
| JsonReader.ReadNumber | include/utils/json.hpp:697-745 | the number loops compute the number function, with the exponent branch, the error returns and the exceptions |
| JsonReader.ReadNext | include/utils/json.hpp:771-793 | the dispatch on the first character computes the value function |
| JsonReader.ReadArray | include/utils/json.hpp:610-638 | the item loop computes the array function, with its error return |
| JsonReader.ReadObject | include/utils/json.hpp:573-608 | the field loop computes the object function, with its error exits |
| JsonRoundTrip.ScanEscaped | include/utils/json.hpp:640-695 | reading the escaped text of any NUL-free string gives the string back and stops behind the quote |
| JsonRoundTrip.StolIntText | include/utils/json.hpp:479-482 | every long is read back from its decimal text |
| JsonRoundTrip.ParseInteger | include/utils/json.hpp:697-745 | an integer with a delimiter behind it parses to itself and the parser stops at the delimiter |
| JsonRoundTrip.ParseRender | include/utils/json.hpp:446-489 | every printed value, at any place in any text, spaced or compact, parses back to itself and the parser stops right behind it |
| JsonRoundTrip.ParseItemsRender | include/utils/json.hpp:621-637 | a printed item list parses back to the items |
| JsonRoundTrip.ParseFieldRender | include/utils/json.hpp:584-592 | a printed key parses to the string that escapes to it, a colon follows, and the value parses to itself |
| JsonRoundTrip.ParseFieldsRender | include/utils/json.hpp:583-607 | a printed field list parses back to the fields in key order |
| JsonExact.ParseYields | include/utils/json.hpp:569-793 | from whatever text, only values come out that the format can carry, blankless ones if the text has no blank |
| JsonExact.StripRender | src/StreamProtectionConfigExport.cpp:58-60 | erasing the white space of a printed blankless value leaves its compact text |
| JsonExact.BareIntegerIsLost | include/utils/json.hpp:730-733 | the text of a bare integer loads as null |
| JsonExact.RoundTripExactly | include/utils/json.hpp:446-489 | for every value without floating point, loading what is printed gives the value back if and only if it has no unsigned integer, no NUL and only escaped-form keys and is not a bare integer |
| JsonExact.StrippedRoundTripExactly | src/StreamProtectionConfigExport.cpp:51-61 | with the white space erased, if and only if besides no string or key holds a blank or vertical tab |
| JsonExact.NothingBehindMatters | include/utils/json.hpp:771-793 | reading the text of a carried value gives the value and stops behind the text, whatever characters follow |
| JsonExact.UnsignedComesBackSigned | include/utils/json.hpp:481-482 | a value with unsigned integers comes back with signed ones in their place, where a long can hold them |
| JsonExact.NulCutsString | include/utils/json.hpp:643-643 | a string with a NUL comes back as the part before it |
| ProtectionExport.HexReadsBack | src/StreamProtectionConfigExport.cpp:33-40 | a table's bytes can be read back from its hexadecimal text, which needs no escaping and holds no white space |
| ProtectionExport.FilledKeyByKey | src/StreamProtectionConfigExport.cpp:52-57 | assigning the five keys in the order of the source gives the object in key order |
| ProtectionExport.ExportIsWellFormed | src/StreamProtectionConfigExport.cpp:43-61 | the exported object can be carried exactly when the channel name has no NUL, and is blankless exactly when that name is |
| ProtectionExport.EraseWhiteSpace | src/StreamProtectionConfigExport.cpp:59-59 | erasing in a loop removes exactly the white space |
| ProtectionExport.GetJsonAsString | src/StreamProtectionConfigExport.cpp:51-61 | the exported text loads as the exported object if and only if the channel name holds no NUL, blank or vertical tab |
| Framing.BlocksAndTail | src/HttpDemuxerImpl.cpp:114-143 | the full blocks and the rest of a stream are, concatenated, the stream |
| Framing.BlocksUnique | src/HttpDemuxerImpl.cpp:114-143 | a stream has no other decomposition into blocks of that size and a shorter rest |
| Framing.TakenAndLeft | src/StreamParser/PSIParser.cpp:135-170 | the packets the loop takes and the bytes it leaves are, concatenated, what was pending |
| Framing.TakenAligned | src/StreamParser/PSIParser.cpp:135-170 | from an aligned stretch all full slices are taken and all are handed on |
| Stages.HttpDemuxer.Write | src/HttpDemuxerImpl.cpp:110-145 | a write of any size pushes exactly the full buffers of held plus written bytes and keeps the rest |
| Stages.HttpDemuxer.Append | src/HttpDemuxerImpl.cpp:115-140 | one copy into the open buffer, which is pushed when full |
| Stages.ChunkConsumer.Consume | src/MediaSourceHandler.cpp:244-260 | a buffer of any size posts exactly the full chunks of held plus new bytes and keeps the rest |
| Stages.ChunkConsumer.Append | src/MediaSourceHandler.cpp:247-259 | one copy into the open chunk, which is posted when full |
| Stages.TSStream.InsertChunk | src/StreamParser/PSIParser.cpp:173-180 | a chunk is refused exactly when two are held, that is when more than one chunk of bytes is pending |
| Stages.TSStream.GetNextPacket | src/StreamParser/PSIParser.cpp:182-212 | takes the next 188 pending bytes wherever the chunk boundary falls; sync and shortage errors exactly as pending bytes say |
| Stages.TSStream.ProcessChunk | src/StreamParser/PSIParser.cpp:125-171 | takes packets up to the first out of sync and hands on those that start with 0x47 |
| Pipeline.WriteIntact | src/HttpDemuxerImpl.cpp:110-145 | a write keeps the bytes of the whole system in order |
| Pipeline.ConsumeIntact | src/MediaSourceHandler.cpp:240-262 | so does a buffer through the consumer loop |
| Pipeline.ProcessIntact | src/StreamParser/PSIParser.cpp:125-171 | so does a chunk through the parser, or it is refused, which costs exactly its bytes and happens only behind a packet out of sync |
| Pipeline.RunIntact | src/StreamParser/PSIParser.cpp:125-212 | over every interleaving of writes of any sizes with the two threads: the bytes in the system and one chunk per refusal add up to the bytes written, in order while nothing was refused; nothing is refused while the packets taken are in sync, and after a refusal the slices written are not aligned |
| Pipeline.NothingRefusedExactly | src/StreamParser/PSIParser.cpp:125-180 | in every run the packets taken and the bytes held in the stages are, in order, the bytes written if and only if no chunk was refused |
| Pipeline.DeliveredExactly | src/StreamParser/PSIParser.cpp:125-212 | in every run the packets the parser has got and the bytes held in the stages are, in order, the bytes written if and only if every 188-byte slice written, as far as packets were taken, starts with 0x47; then nothing was refused and the packets are these slices |
| Pipeline.AlignedIsDelivered | src/StreamParser/PSIParser.cpp:125-212 | if every 188-byte slice written starts with 0x47 that holds at any time |
| Pipeline.OutOfSyncLosesChunk | src/StreamParser/PSIParser.cpp:125-138 | a buffer without sync bytes loses a whole chunk, for every chunk size above two packets and up to a third of the buffer |
| Pipeline.DrainedRunIsComplete | src/MediaSourceHandler.cpp:230-263 | with empty queues the parser has got every full slice of what left the open buffers |
| BufferPool.BufferQueue.Queue | include/BufferQueue.h:50-60 | appends to the filled queue, which must have room |
| BufferPool.BufferQueue.Acquire | include/BufferQueue.h:62-73 | takes the oldest free buffer |
| BufferPool.BufferQueue.Consume | include/BufferQueue.h:88-103 | takes the oldest filled buffer, or nothing when there is none in time |
| BufferPool.BufferQueue.Release | include/BufferQueue.h:106-112 | appends to the free queue, which must have room |
| BufferPool.BufferQueue.ReleaseAll | src/MediaSourceHandler.cpp:64-68 | start-up releases every buffer once and never waits |
| BufferPool.StepKeepsOwned | include/BufferQueue.h:50-112 | every step keeps each buffer in exactly one of free queue, filled queue or one thread's hand |
| BufferPool.StepKeepsFifo | include/BufferQueue.h:50-112 | every step keeps the filled queue equal to the payloads queued and not consumed, in order |
| BufferPool.OwnedCount | include/BufferQueue.h:114-128 | free, filled and held buffers add up to the depth |
| BufferPool.RunIsSafe | src/MediaSourceHandler.cpp:240-262 | in every reachable state of any number of threads both hold, and the consumed payloads are a prefix of the queued ones |
| BufferPool.HolderNeverWaits | include/BufferQueue.h:50-60 | a thread that holds a buffer can always queue or release it at once |
| BufferPool.NeverStuck | include/BufferQueue.h:50-112 | some step is always enabled |
| TimeIndex.UpperBoundSplits | src/StreamParser/BufferIndexer.cpp:95-95 | the bisection splits the samples at the target |
| TimeIndex.BisectionIsScan | src/StreamParser/BufferIndexer.cpp:93-101 | the bisection finds what a linear scan finds |
| TimeIndex.InterpolationLands | src/StreamParser/BufferIndexer.cpp:103-105 | the interpolated index is always the sample before the one found |
| TimeIndex.Segment | src/StreamParser/BufferIndexer.cpp:93-101 | inside the range the search never falls off the end and never leaves the exposed samples |
| TimeIndex.OffsetIsLastSample | src/StreamParser/BufferIndexer.cpp:83-114 | an in-range seek gives the offset of the last exposed sample not younger than the target, the one a linear scan finds |
| TimeIndex.OffsetForTimeBounded | src/StreamParser/BufferIndexer.cpp:62-114 | no seek answered from the samples reaches back further than the exposed bytes |
| TimeIndex.TimeAtInside | src/StreamParser/BufferIndexer.cpp:157-159 | the interpolated time lies between those of the two samples, and meets the first exactly |
| TimeIndex.TimeOfSample | src/StreamParser/BufferIndexer.cpp:116-168 | the time of a sample's own offset is the sample's own age |
| TimeIndex.SeekRoundTrip | src/StreamParser/BufferIndexer.cpp:62-168 | seeking and asking gives at least the requested time, and less than the gap between the two samples around it more |
| TimeIndex.TimeForOffsetMonotone | src/StreamParser/BufferIndexer.cpp:116-168 | the reported time never decreases with the offset, across segments, live point and end of range, and never exceeds the length of the index |
| TimeIndex.TimestampComplementsAge | src/StreamParser/BufferIndexer.cpp:170-209 | the timestamp of an exposed byte and the age of its offset add up to the newest time |
| TimeShift.RepeatedQuestionSucceeds | src/StreamParser/BufferIndexer.cpp:70-89 | a repeated lookup gives the same offset and always success, also where the first one reported an error |
| TimeShift.SeekSucceedsExactly | src/StreamParser/TimeShiftBufferConsumer.cpp:175-196 | a seek succeeds if and only if the index is not empty; the cut to the index length comes first, so the out-of-range arm is never taken |
| TimeShift.IndexGrows | src/StreamParser/BufferIndexer.cpp:47-60 | in every reachable index the byte counts grow from sample to sample |
| TimeShift.TickIsSeek | src/StreamParser/TimeShiftBufferConsumer.cpp:120-168 | a tick is a seek from the reported time by its target, and stops exactly at the end it winds to |
| TimeShift.RegisterKeeps | src/StreamParser/BufferIndexer.cpp:47-60 | a registration keeps the samples ordered, one sampling step apart and level with the bytes posted |
| TimeShiftReach.RegisterNeverShortens | src/StreamParser/BufferIndexer.cpp:47-60 | a registration never shortens the exposed index |
| TimeShiftReach.IndexWithinCapacity | src/StreamParser/TimeShiftBufferConsumer.cpp:362-364 | the exposed index is never longer than the capacity the plugin reports |
| TimeShiftReach.FreshSeekWithinCapacity | src/StreamParser/BufferIndexer.cpp:62-114 | after any run no seek answered from the samples reaches back further than the reported capacity |
| TimeShiftReach.CapacityLeavesTail | include/config_options.h:49-65 | a reader one capacity behind leaves the whole tail and one sampling step before the bytes that are overwritten next |
| TimeShiftReach.DefaultConfiguration | include/config_options.h:39-65 | the plugin's numbers give 29 exposed samples in a ring of 54 |
| TimeShift.SetSeekKeeps | src/StreamParser/TimeShiftBufferConsumer.cpp:175-225 | a seek, also a negative or too distant one, keeps the seek offset below read offset and bytes posted |
| TimeShift.TickKeeps | src/StreamParser/TimeShiftBufferConsumer.cpp:120-168 | so does a trick-play tick |
| TimeShift.PostKeeps | src/StreamParser/TimeShiftBufferConsumer.cpp:41-102 | so does a post, paused or not |
| TimeShift.PausedPostHolds | src/StreamParser/TimeShiftBufferConsumer.cpp:67-97 | a paused post leaves the read position where it is, unless it has left the exposed bytes, when it moves forward to the oldest one |
| TimeShift.DoKeeps | src/StreamParser/TimeShiftBufferConsumer.cpp:41-387 | every operation keeps the invariant, so the subtraction in readData never underflows |
| TimeShiftReach.SeekStaysExposedExactly | src/StreamParser/TimeShiftBufferConsumer.cpp:175-205 | a seek stays within the exposed bytes if and only if it is not answered from a remembered offset that reaches further |
| TimeShiftReach.RunWithinCapacity | src/StreamParser/TimeShiftBufferConsumer.cpp:362-364 | in every run, over any number of channels, neither seek offset nor remembered offset exceeds the reported capacity |
| TimeShiftReach.AlwaysExposedExactly | src/StreamParser/TimeShiftBufferConsumer.cpp:175-205 | in every run the seek offset stays within the exposed bytes throughout if and only if no seek, by hand or by trick play, is answered from a remembered offset that reaches further |
| TimeShiftReach.MemoryIsLeftByEndOfStream | src/StreamParser/BufferIndexer.cpp:235-239 | without an end of stream in the run no remembered offset reaches further than the exposed bytes |
| TimeShiftReach.StepAheadExactly | src/StreamParser/TimeShiftBufferConsumer.cpp:76-97 | a step keeps the reader at or behind the live point if and only if it is not a paused post that finds the reader more than the exposed bytes ahead |
| TimeShiftReach.NeverAheadExactly | src/StreamParser/TimeShiftBufferConsumer.cpp:41-387 | in every run no read position is ever ahead of the live point if and only if no paused post overruns |
| TimeShiftReach.OverrunNeedsFarSeek | src/StreamParser/TimeShiftBufferConsumer.cpp:76-97 | only a seek beyond the exposed bytes leads to such a post |
| TimeShiftReach.NeverAheadWithoutFarSeek | src/StreamParser/TimeShiftBufferConsumer.cpp:41-387 | in every run without a seek beyond the exposed bytes no read position is ever ahead of the live point |
| TimeShiftRuns.RememberedOffsetCanReachFurther | src/StreamParser/BufferIndexer.cpp:235-239 | a run over two channels in which a seek reaches back 40 bytes while 10 are exposed |
| TimeShiftRuns.ReaderCanGetAhead | src/StreamParser/TimeShiftBufferConsumer.cpp:76-97 | going on from there, a paused post puts the read position 10 bytes ahead of the live point |
| TrickPlay.TickMeans | src/StreamParser/TimeShiftBufferConsumer.cpp:120-168 | one tick in full, whatever is remembered: where it lands, what it remembers, when it stops |
| TrickPlay.PauseIsSpentAtOnce | src/StreamParser/TimeShiftBufferConsumer.cpp:234-243 | pause time counts for one tick only; if that one does not stop, winding goes on without |
| TrickPlay.BeginMeans | src/StreamParser/TimeShiftBufferConsumer.cpp:234-243 | winding ends with the tick that spends the pause time, or exactly when it ends from there |
| TrickPlay.CirclesForEver | src/StreamParser/TimeShiftBufferConsumer.cpp:120-168 | a tick that comes to an offset with the reported time it started from repeats for ever |
| TrickPlay.LeavesMemory | src/StreamParser/BufferIndexer.cpp:70-74 | a tick that does not asks two questions next that are not answered from stale memory |
| TrickPlay.LandsNoYounger | src/StreamParser/TimeShiftBufferConsumer.cpp:175-225 | a seek to an age lands at least as far back |
| TrickPlay.RewindCirclesExactly | src/StreamParser/TimeShiftBufferConsumer.cpp:131-142 | a rewind goes in a circle if and only if one of the two remembered pairs sends it back to where it is |
| TrickPlay.RewindStopsExactly | src/StreamParser/TimeShiftBufferConsumer.cpp:120-168 | a rewind never stops if its first tick neither arrives nor escapes the remembered pairs, and otherwise stops within max/700 + 2 ticks at the oldest end with speed 1 |
| TrickPlay.OldestEnd | src/StreamParser/TimeShiftBufferConsumer.cpp:131-142 | that end is less than a millisecond short of the oldest exposed time |
| TrickPlay.RewindInRuns | src/StreamParser/TimeShiftBufferConsumer.cpp:120-168 | of every reachable state: without samples the rewind ends at once; with samples it ends if and only if, once pause time is spent in one tick, a tick arrives or is not held back by the remembered pairs |
| TrickPlay.ForwardFrom | src/StreamParser/TimeShiftBufferConsumer.cpp:143-157 | on current answers fast forward from a sample reaches the live point if and only if the samples it passes through do not lead to a stuck one |
| TrickPlay.ForwardStopsExactly | src/StreamParser/TimeShiftBufferConsumer.cpp:120-168 | a fast forward never stops if its first tick goes in a circle or leads to a stuck sample, and otherwise ends live at speed 1 |
| TrickPlay.ForwardInRuns | src/StreamParser/TimeShiftBufferConsumer.cpp:120-168 | of every reachable state: without samples fast forward ends at once; with samples it ends if and only if, once pause time is spent, it does not hang |
| TrickPlay.CloseForwardInRuns | src/StreamParser/TimeShiftBufferConsumer.cpp:120-168 | with neighbouring samples less than 1050 ms apart fast forward of any speed from any reachable state ends if and only if, once pause time is spent, a tick arrives or is not held back by the remembered pairs |
| TrickPlay.CloseForward | src/StreamParser/TimeShiftBufferConsumer.cpp:143-157 | with close samples a fast forward that is not held back ends at the live point with speed 1 within one tick per sample and two more |
| TrickPlay.SeekThenAskInRuns | src/StreamParser/TimeShiftBufferConsumer.cpp:175-243 | of every reachable state: a seek and the report after it, neither answered from memory, agree up to the gap between the two samples around the time |
| TimeShiftRuns.RewindCanGoOnForEver | src/StreamParser/TimeShiftBufferConsumer.cpp:120-168 | a run on one channel whose rewind never stops |
| TimeShiftRuns.ForwardCanGoOnForEver | src/StreamParser/TimeShiftBufferConsumer.cpp:120-168 | a run on one channel with samples at most 625 ms apart whose fast forward never stops |
| TimeShiftRuns.ForwardCanBeStuck | src/StreamParser/TimeShiftBufferConsumer.cpp:143-157 | a run whose fast forward is stuck between two samples 3000 ms apart, with nothing answered from memory |
| TimeShiftConsumer.BufferIndexer.constructor | src/StreamParser/BufferIndexer.cpp:34-42 | the sizes follow from pool size, tail size and sampling ratio |
| TimeShiftConsumer.BufferIndexer.RegisterBufferCount | src/StreamParser/BufferIndexer.cpp:47-60 | registers every ratio-th count and reports the ring size |
| TimeShiftConsumer.FindUpperBound | src/StreamParser/BufferIndexer.cpp:95-95 | the halving loop of the standard search ends and finds what a scan from the start finds |
| TimeShiftConsumer.SearchOffset | src/StreamParser/BufferIndexer.cpp:91-113 | the search with its interpolated index gives the bytes since the last exposed sample that is old enough, as a scan finds it; the end of the ring is never reached |
| TimeShiftConsumer.SearchTime | src/StreamParser/BufferIndexer.cpp:145-167 | the search gives the age interpolated between the two samples that a scan finds around the offset |
| TimeShiftConsumer.BufferIndexer.GetByteOffsetFromTimeUs | src/StreamParser/BufferIndexer.cpp:62-114 | a time in range that was not the last one asked for gives the scanned offset, and the answer is remembered |
| TimeShiftConsumer.BufferIndexer.GetTimeUsFromByteOffset | src/StreamParser/BufferIndexer.cpp:116-168 | an exposed offset that was not the last one asked for gives the scanned time, and the answer is remembered |
| TimeShiftConsumer.BufferIndexer.GetTimestampUsForByteIndex | src/StreamParser/BufferIndexer.cpp:170-209 | the search computes the timestamp function that complements the age |
| TimeShiftConsumer.BufferIndexer.Clear | src/StreamParser/BufferIndexer.cpp:235-239 | empties ring and count and leaves the remembered answers |
| TimeShiftConsumer.TimeShiftBufferConsumer.Post | src/StreamParser/TimeShiftBufferConsumer.cpp:41-102 | the object's post is the post function and keeps the invariant |
| TimeShiftConsumer.TimeShiftBufferConsumer.SetSeekTime | src/StreamParser/TimeShiftBufferConsumer.cpp:175-225 | the object's seek is the seek function |
| TimeShiftConsumer.TimeShiftBufferConsumer.GetSeekTime | src/StreamParser/TimeShiftBufferConsumer.cpp:234-243 | the object's report is the report function |
| TimeShiftConsumer.TimeShiftBufferConsumer.UpdateTrickPlayPosition | src/StreamParser/TimeShiftBufferConsumer.cpp:120-168 | the object's tick is the tick function |
| TimeShiftConsumer.TimeShiftBufferConsumer.ReadData | src/StreamParser/TimeShiftBufferConsumer.cpp:278-309 | reads at read offset minus seek offset, which is a natural number, and advances by what was read |
| TimeShiftConsumer.TimeShiftBufferConsumer.OnEndOfStream | src/StreamParser/TimeShiftBufferConsumer.cpp:311-316 | stops streaming, returns to the live point and clears the index |
| PsiPat.ParsePatMeans | src/StreamParser/PSIParser.cpp:316-365 | a new PAT forgets PMT and ECM and takes the PMT PID of its first program if and only if that is its first entry, or the two bytes behind the first entry happen to spell it |
| PsiPat.NetworkEntryFirst | src/StreamParser/PSIParser.cpp:346-354 | a PAT with the network entry first for which PID 1 is taken instead of 0x100 |
| PsiPmt.ScanProgramFinds | src/StreamParser/PSIParser.cpp:412-449 | the program-level loop over well-formed descriptors finds whether any is a CA descriptor of the system 0x5601 and the first that names a PID |
| PsiPmt.ScanStreamFinds | src/StreamParser/PSIParser.cpp:475-497 | the same for one stream's loop, which stops six bytes before its end |
| PsiPmt.ScanStreamsFinds | src/StreamParser/PSIParser.cpp:451-503 | the same over all streams |
| PsiPmt.ParsePmtMeans | src/StreamParser/PSIParser.cpp:367-523 | for every well-formed PMT of new version the stream is clear if and only if no CA descriptor of the system 0x5601 occurs in it, and the ECM PID is the one its descriptors name |
| PsiRun.StepKeepsSound | src/StreamParser/PSIParser.cpp:525-648 | while a section is collected, at least 13 bytes are there, at least one is missing, and the space is the section's |
| PsiRun.PatKeepsConsistent | src/StreamParser/PSIParser.cpp:267-272 | a PAT keeps the ECM PID tied to state and PMTs |
| PsiRun.PmtKeepsConsistent | src/StreamParser/PSIParser.cpp:274-303 | so does a PMT |
| PsiRun.StepKeepsConsistent | src/StreamParser/PSIParser.cpp:262-314 | so does every packet and every opening of a channel |
| PsiRun.RunIsConsistent | src/StreamParser/PSIParser.cpp:262-314 | in every run from onOpen a known ECM PID implies a non-clear stream, the state NEEDS_ECM and a PMT under the current PAT that named the PID; GOT_ECM is never entered |
| PsiEcm.StartPacket | src/StreamParser/PSIParser.cpp:525-603 | a packet that starts a section collects exactly its first bytes, or completes it |
| PsiEcm.ContinuePacket | src/StreamParser/PSIParser.cpp:605-648 | a further packet appends exactly the next bytes, or completes the section |
| PsiEcm.CollectsRest | src/StreamParser/PSIParser.cpp:605-648 | any number of further packets complete the section |
| PsiEcm.SectionIsReassembled | src/StreamParser/PSIParser.cpp:525-666 | any VMECM section of new version, split over any number of packets with any adaptation fields that leave 13 bytes in the first and any neutral packets between, ends as the ECM table, whole and unchanged |
| PsiCollect.EcmStep | src/StreamParser/PSIParser.cpp:525-648 | one packet that reaches the collection adds exactly its payload, and completes the section when the declared length is there |
| PsiCollect.CollectionIsGathered | src/StreamParser/PSIParser.cpp:525-666 | in every run, with any PATs, PMTs and openings of channels, the collection holds exactly the payloads of the packets that reached it since the section was begun |
| PsiCollect.TableIsGathered | src/StreamParser/PSIParser.cpp:525-648 | the ECM table changes exactly when a packet completes a section whose version is new by then, and becomes the bytes gathered |
| PsiCollect.CarriedExactly | src/StreamParser/PSIParser.cpp:525-648 | packets carry a section exactly when their bytes are its bytes as far as both go |
| PsiCollect.ReassembledExactly | src/StreamParser/PSIParser.cpp:525-648 | the completed table is a given section if and only if all packets that reached the collection since its beginning carried that section and the first declared its length |
| PsiPackets.PacketiseRoundTrip | src/StreamParser/PSIParser.cpp:525-666 | a section cut into packets with adaptation fields of any sizes that leave 13 bytes in the first, then collected, is the section |
| PsiPackets.Plain | src/StreamParser/PSIParser.cpp:525-648 | every section can be cut so: sizes without adaptation fields always suffice |
| PsiPackets.MixedTable | src/StreamParser/PSIParser.cpp:342-354 | a section begun on one PID, a new PAT, a new PMT with another ECM PID and one packet of that: the table is the begin of the section and the bytes of the other PID |
| PsiPackets.MixedTableIsNoSection | src/StreamParser/PSIParser.cpp:342-354 | a concrete such run, from opening the channel on, whose table is not the section |
| PsiStreamParser.WholeSectionIsReadable | src/StreamParser/PSIParser.cpp:391-412 | every whole PMT section meets what the parser demands |
| PsiStreamParser.WalkProgram | src/StreamParser/PSIParser.cpp:412-449 | the counting-down loop computes the program-level scan and ends |
| PsiStreamParser.WalkStream | src/StreamParser/PSIParser.cpp:475-497 | one stream's loop computes its scan and ends, for any bytes |
| PsiStreamParser.WalkStreams | src/StreamParser/PSIParser.cpp:451-503 | the loop over the streams computes their scan and ends |
| PsiStreamParser.PSIParser.OnOpen | src/StreamParser/PSIParser.cpp:697-710 | forgets tables, collection and PIDs, waits for a PAT on PID 0 |
| PsiStreamParser.PSIParser.ResetCollectionState | src/StreamParser/PSIParser.cpp:661-666 | drops the collected bytes and nothing else |
| PsiStreamParser.PSIParser.ParseTsPacket | src/StreamParser/PSIParser.cpp:262-314 | one packet is the step of the runs above and keeps the collection sound |
| PsiStreamParser.PSIParser.ParsePat | src/StreamParser/PSIParser.cpp:316-365 | the object's PAT step is the PAT function |
| PsiStreamParser.PSIParser.ParsePmt | src/StreamParser/PSIParser.cpp:367-523 | the object's PMT step, with its nested loops, is the PMT function |
| PsiStreamParser.PSIParser.UpdateStateAfterPmt | src/StreamParser/PSIParser.cpp:279-301 | the state switch after a PMT |
| PsiStreamParser.PSIParser.ParseEcm | src/StreamParser/PSIParser.cpp:525-603 | the object's ECM step is the ECM function |
| PsiStreamParser.PSIParser.CollectEcm | src/StreamParser/PSIParser.cpp:605-648 | puts the portion of the packet at the collected length into the space of the section |

## Left out

- RtpReorder.Drain: states what holds when draining ends; which packets it delivers is stated by DrainSkips for gap skipping in any cache, and by PassDelivers and DrainFull for ascending caches.
- RtpLimits.DeliversExactly: leaves out arrivals a cycle less ten ahead, or more, which the listener takes for late ones.
- TimeIndex.SeekRoundTrip: is about lookups answered from the samples; what a remembered answer does is stated by AlwaysExposedExactly, RewindInRuns and ForwardInRuns.
- TrickPlay.RewindInRuns: is about an index that does not change while winding.
- TrickPlay.ForwardInRuns: is about an index that does not change while winding.
- PsiStreamParser.PSIParser.ParseTsPacket: excludes PAT and PMT fields outside the packet, PMT lengths that make the source's unsigned counters wrap around, and a packet that starts an ECM section but consists of its adaptation field alone; there the source reads outside the packet.
- PsiStreamParser.PSIParser.ParsePmt: stores the packet bytes from the sixth on and does not model what stands behind them in the stored copy.
- PsiStreamParser.WalkProgram: excludes descriptor lengths that step past the loop's end, where the source's unsigned count wraps around and it reads outside the packet.
- PsiStreamParser.WalkStreams: excludes stream lengths that do so.
- PsiStreamParser.PSIParser.ParseEcm: excludes a starting packet of its adaptation field alone, for which the source's count of the bytes left wraps around.
- TimeShiftConsumer.BufferIndexer.constructor: excludes configurations that expose no sample, with which the source's lookups read behind the ring.
- TimeShiftConsumer.TimeShiftBufferConsumer.Post: excludes a paused post without an open handle, which the source does not check.
- JsonPrinter.Dump: excludes values that hold a floating-point number; their text is up to the C++ library.
- JsonPrinter.DumpArray: as for Dump.
- JsonPrinter.DumpObject: as for Dump.
- JsonParser.Scan: gives a result also for texts on which the source reads behind the terminating NUL.
- JsonReader.ReadString: as for Scan.
- JsonParser.ParseNext: gives a result also for texts on which the source reads behind the terminating NUL, keeps a number with a fraction or an exponent as its text and leaves out the range errors of std::stod.
- Decoding of RTP header bytes, padding and extensions, and the switch that disables sequencing.
- Floating-point rounding in the index lookups.
- Wrap-around of 64-bit byte counts and 32-bit sizes.
- Closing down the buffer queue: clear, exitPending and the destructor.
- Several readers of the stream file; the source supports one.
- The ring buffer pool of streamfs, which is not part of this repository; a read is given the number of bytes the pool hands out.
- The ring of HTTP buffer pointers, of which only the one being filled is ever used; injection of null packets.
- When chunks are posted to the PSI parser at all, and the export of its tables on a change.
- Watchdog and pause clock, which appear as actions of the surroundings.
- Sockets, netlink, curl, FUSE, logging, threads, configuration handlers and stubs.
