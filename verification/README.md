# Verification of the QUIC frame codec, the delay-bounded BBR sender and three base components

A Dafny model of the parts of the repository whose correctness is hardest to see by reading, with
proofs over every input, every run or every interleaving.

- **Frame codec** (`Bytes`, `Wire`, `UFloat16`, `AckFormat`, `AckRoundTrip`, `AckLimits`, `AckFramer`,
  `FrameFormat`, `FrameRoundTrip`, `PayloadLimits`, `FrameFramer`, `PacketNumber`, `IetfAck`, `IetfRoundTrip`,
  `IetfLimits`, `IetfFramer`, `WireVectors`).
  The wire format is given twice: as functions from frames to bytes and from bytes to visitor calls,
  and as the loops over a bounded writer and a reader that the framer runs. The loops are proved to
  compute the functions; the round trips, size laws and soundness laws are proved about the functions.
- **Bandwidth sampler, windowed filter and BBR sender** (`Totals`, `Sampling`, `Sampler`,
  `WindowedFilter`, `BbrStartup`, `BbrHistory`, `Bbr`, `BbrInvariant`, `BbrRuns`, `BbrEstimates`, `BbrLedger`,
  `BbrTimes`, `BbrDecisions`, `BbrInputs`, `BbrSender`). The steps are functions on
  a state; every step logs what happened, and the invariants tie the state to functions of the log and of
  the inputs. `AckDecides` gives, for every decision of the sender, its exact condition on the log.
  The classes `MySampler`, `MaxFilter` and `MyBbrSender` update their fields in place and are proved to
  take exactly those steps.
- **Lazy creation** (`LazyInstance`): a state machine over any number of threads.
- **MD5 streaming** (`Md5`): the context as a class, around any compression function.
- **Pickle** (`PickleFormat`, `Pickle`): the payload format, the growing buffer, the iterator.

Times are microseconds, rates bits per second, gains hundredths, all exact; packet numbers and
lengths are natural numbers with the 64-bit wrap-around written out where the code relies on it.
`Version` is `V41` (transport version 41) or `Other` (any later one).

Where the code and the words about it part, the code is modelled:

- The "has blocks" bit of an ACK is set from the untruncated block count. With room for no block the
  frame announces blocks and has no count byte: alone it is rejected (`AnnouncedButMissingBlocks`), and
  with frames after it the reader can run on into them and acknowledge packets that never arrived
  (`AcknowledgesWhatNeverArrived`). It reads back exactly, whatever follows, if and only if there was room
  for one block (`ReadsBackIffRoomForOneBlock`; for payloads `InStepIff` and `PayloadReadsBackIff`).
- In version 41 a block can overflow `gap + length` and still be accepted (`Version41CanWrap`; exactly
  when: `AckSoundIff`).
- The IETF ACK reader slides a block without resizing it (`ShortBlockGrows`; exactly when the set
  survives: `IetfSetRoundTripIff`), takes one finite delay for infinity (`IetfDelayIff`), and lets the high
  edge of a block wrap below zero (`IetfCanWrap`; exactly when: `IetfSoundIff`).
- A bandwidth of nothing is its own growth target: a connection that sends only empty packets stays in
  STARTUP for any number of rounds (`EmptyPacketsNeverEnd`, `AnyNumberOfRounds`). Given enough rounds,
  STARTUP ends if and only if some estimate is not zero (`BbrEstimates.StartupEndsIff`).
- A packet first sent after its number was acknowledged parts the packet table from the sampler
  (`LateSendDiverges`); the two agree throughout a run if and only if there is no such packet (`AgreeIff`).
  An early acknowledgement alone does no harm (`AckKeeps`).
- A sample equal to the minimum round-trip time does not renew it, though a slightly larger one does: with a
  steady delay the minimum expires every ten seconds (`EqualDoesNotRenew`).
- The comment on lazy creation lets a creator return null; with two threads that may call again, a caller
  can then be handed the pointer value 1 (`NullLetsOneEscape`; exactly when: `SafeIffNeverNull`).
- The comment on `SkipBytes` of the pickle iterator says that a failed skip does nothing; the code
  moves the read index to the end (`FailedSkipMoves`), which is nothing if and only if it was there already
  (`FailedSkipStaysIff`).

## Model

| member | source | states |
|---|---|---|
| AckRoundTrip.AckReadsBackExactly | quic/model/my_quic_framer.cc:1516-1684 | for every well-formed packet set and any capacity with room for one block, reading the bytes of an ACK calls back with the largest acked number, what is left of the delay (`DelayRead`), and exactly the ranges whose blocks were written, leaving what follows unread |
| AckRoundTrip.DelayRead | quic/model/my_quic_framer.cc:2543-2551 | a delay arrives exact below 4096 microseconds, short by at most one part in 2048 below the largest float, and as infinite from there on |
| AckRoundTrip.DelayReadsBack | quic/model/my_quic_framer.cc:1555-1571 | the word written for any delay is read as that |
| AckRoundTrip.ReportedIsTopDownPrefix | quic/model/my_quic_framer.cc:1632-1671 | the ranges reported below the first are a top-down prefix of the intervals, edges exact |
| AckRoundTrip.ReportedIsMaximal | quic/model/my_quic_framer.cc:2578-2621 | it is the longest prefix whose blocks, fillers for gaps over 255 included, number no more than the limit |
| AckRoundTrip.LastFlagOnlyAtEnd | quic/model/my_quic_framer.cc:1653-1657 | `last_range` is set on the lowest reported range and nowhere else, and only if the blocks end with it rather than on a filler |
| AckRoundTrip.EverythingReported | quic/model/my_quic_framer.cc:2473-2641 | when the sum of ceil(gap/255) is at most 255 and fits, every interval is reported top down, `last_range` exactly on the lowest |
| AckRoundTrip.AllBlocksReportAll | quic/model/my_quic_framer.cc:2568-2621 | an untruncated block list reports the whole packet set |
| AckRoundTrip.ReadsBackIffRoomForOneBlock | quic/model/my_quic_framer.cc:2482-2566 | an ACK that was written is read back exactly, leaving exactly what follows it, if and only if a single block had room (or none was needed); for every tail |
| AckRoundTrip.MissingCountByte | quic/model/my_quic_framer.cc:2554-2558 | otherwise the frame has no count byte, and the reader rejects it or reads past its end |
| AckRoundTrip.AnnouncedButMissingBlocks | quic/model/my_quic_framer.cc:2492-2566 | a concrete two-interval frame in six bytes that is written and cannot be read |
| AckRoundTrip.CountingAgreesWithWriting | quic/model/my_quic_framer.cc:1103-1131 | although counting stops early, the writer has exactly the counted number of blocks to write, and the first and every further length fits the chosen width |
| AckRoundTrip.ScanCoversBlocks | quic/model/my_quic_framer.cc:1112-1131 | the counting pass bounds every block it counts and counts all blocks or at least 255 |
| AckRoundTrip.ParseBlockBytes | quic/model/my_quic_framer.cc:1632-1671 | reading the bytes of any block list that stays above zero gives the ranges of walking down it |
| AckRoundTrip.WalkIntervals | quic/model/my_quic_framer.cc:2568-2621 | walking down the writer's blocks, fillers included, visits the intervals |
| AckRoundTrip.TypeByteRoundTrip | quic/model/my_quic_framer.cc:2488-2511 | the reader recovers both widths and the "has blocks" bit from the type byte, in both versions |
| AckRoundTrip.WidthHolds | quic/model/my_quic_framer.cc:1067-1081 | a number or length goes into the narrowest of its version's widths that holds it |
| AckLimits.AckSizeIsExact | quic/model/my_quic_framer.cc:2151-2178 | `GetAckFrameSize` is the number of bytes written, when capacity does not limit the blocks |
| AckLimits.AckFitsIff | quic/model/my_quic_framer.cc:2482-2522 | a truncated ACK overruns the writer if and only if its fixed fields do; so never when the figure of available bytes is not negative, and when blocks are announced not at minus one either |
| AckLimits.CountIsMaximal | quic/model/my_quic_framer.cc:2513-2522 | blocks left out, up to 255 of them, are left out only because one more would overrun the room |
| AckLimits.AckConsumesExactly | quic/model/my_quic_framer.cc:1516-1737 | on arbitrary bytes: an accepted ACK uses up exactly what its width codes, its block count and its timestamp count announce (five bytes for the first timestamp, three for each other), and leaves the rest as it was |
| AckLimits.AckSoundIff | quic/model/my_quic_framer.cc:1591-1671 | on arbitrary bytes: reported ranges are proper, pairwise disjoint, descending and within [0, largest+1), with at most one `last_range` and none after it, if and only if no accepted version 41 block overflows 64 bits; later versions never do |
| AckLimits.FirstRangeEnds | quic/model/my_quic_framer.cc:1591-1630 | on arbitrary bytes: an accepted ACK has a first range, it ends with the largest acked number, and it is empty only if that number is zero |
| AckLimits.RangesSoundIff | quic/model/my_quic_framer.cc:1591-1671 | the same for the part of the frame after the delay |
| AckLimits.NoWrapIsSound | quic/model/my_quic_framer.cc:1632-1671 | without overflow no subtraction goes below zero and ranges descend |
| AckLimits.WrapIsUnsound | quic/model/my_quic_framer.cc:1644-1652 | an overflowing block is reported out of order or reversed |
| AckLimits.DescendingPairwise | quic/model/my_quic_framer.cc:1644-1669 | descent step by step is pairwise disjointness, with nothing after a last range |
| AckLimits.Version41CanWrap | quic/model/my_quic_framer.cc:1644-1652 | concrete bytes of an accepted version 41 frame that overflow |
| AckFramer.GetAckFrameInfo | quic/model/my_quic_framer.cc:1103-1131 | the counting loop computes the lengths and the block count of its specification for every packet set |
| AckFramer.AppendAckBlocks | quic/model/my_quic_framer.cc:2568-2621 | the writing loop over intervals and fillers appends exactly the first `count` blocks of the untruncated list |
| AckFramer.AppendInterval | quic/model/my_quic_framer.cc:2585-2618 | one interval: fillers up to the limit, then its own block |
| AckFramer.AppendFillers | quic/model/my_quic_framer.cc:2592-2601 | the inner loop writes zero-length blocks of gap 255 until the gap is covered or the limit reached |
| AckFramer.AppendAckBlock | quic/model/my_quic_framer.cc:2344-2350 | one gap byte and one length |
| AckFramer.ChooseLayout | quic/model/my_quic_framer.cc:2473-2522 | widths, available bytes and truncated block count |
| AckFramer.AppendAckHead | quic/model/my_quic_framer.cc:2524-2565 | type byte, counts, largest acked and delay in the order of the version |
| AckFramer.AppendAckFrameAndTypeByte | quic/model/my_quic_framer.cc:2473-2641 | succeeds exactly when the frame fits and then appends exactly the bytes of the format |
| AckFramer.ProcessAckBlocks | quic/model/my_quic_framer.cc:1632-1671 | the reading loop makes the callbacks of its specification on any bytes, also those before a failure |
| AckFramer.ProcessTimestamps | quic/model/my_quic_framer.cc:1686-1737 | the timestamps are skipped, or run past the end |
| AckFramer.ProcessAckRanges | quic/model/my_quic_framer.cc:1591-1684 | first range, blocks and timestamps |
| AckFramer.ProcessAckFrame | quic/model/my_quic_framer.cc:1516-1684 | accepts, rejects and calls back as the format function says on any bytes |
| UFloat16.EncodeThenDecode | my_quic_2/libquic/net/third_party/quic/core/quic_data_writer.cc:65-105 | the 16-bit float of a value decodes to the value rounded down to twelve significant bits (`RoundedDown`: short by at most one part in 2048), or to the maximum |
| UFloat16.DecodeThenEncode | my_quic_2/libquic/net/third_party/quic/core/quic_data_reader.cc:71-102 | encoding a decoded word gives the word back, for all 65536 of them |
| UFloat16.EncodeByShifting | my_quic_2/libquic/net/third_party/quic/core/quic_data_writer.cc:65-105 | the shifting loop computes the closed form |
| Wire.DataWriter.WriteInt | my_quic_2/libquic/net/third_party/quic/core/quic_data_writer.cc:31-63 | the low bytes, most significant first, or nothing when they do not fit |
| Wire.DataWriter.WriteBytes | my_quic_2/libquic/net/third_party/quic/core/quic_data_writer.cc:137-147 | appends all of the data or none |
| Wire.DataReader.ReadInt | my_quic_2/libquic/net/third_party/quic/core/quic_data_reader.cc:54-69 | the number the next bytes make up; a failed read uses up the input |
| Bytes.BigEndianRoundTrip | my_quic_2/libquic/net/third_party/quic/core/quic_data_reader.cc:54-69 | reading back an n-byte field gives the value modulo 256^n |
| FrameRoundTrip.PayloadReadsBack | quic/model/my_quic_framer.cc:438-520 | for every list of valid frames that fits and whose ACKs have room for a block: parsing the payload delivers the frames in order, up to the code's own normalisation (MTU discovery as ping, full padding as its byte count with neighbours merged, texts cut to 256, the stream frame without length last) |
| FrameFormat.Truncated | quic/model/my_quic_framer.cc:2964-2969 | an error text survives whole up to 256 bytes, and by its first 256 beyond |
| FrameFormat.Clamp | quic/model/my_quic_framer.cc:1873-1877 | a known error code is kept, any other becomes the last |
| WireVectors.AckVectors | my_quic_2/libquic/net/third_party/quic/core/quic_framer_test.cc:6042-6078 | the ACK of the framer's own tests is written as its byte string, in any room that holds it; in version 41, which the tests do not cover, as the code's flag layout and field order have it |
| WireVectors.StreamVectors | my_quic_2/libquic/net/third_party/quic/core/quic_framer_test.cc:5515-5533 | so is STREAM as the last frame of its packet; also with a length, and in version 41, neither of which the tests cover |
| WireVectors.RstStreamVector | my_quic_2/libquic/net/third_party/quic/core/quic_framer_test.cc:6673-6691 | so is RST_STREAM; also in version 41, whose field order the tests do not cover |
| WireVectors.TextVectors | my_quic_2/libquic/net/third_party/quic/core/quic_framer_test.cc:6793-6812 | so are CONNECTION_CLOSE and, from the neighbouring test, GOAWAY |
| WireVectors.FixedVectors | my_quic_2/libquic/net/third_party/quic/core/quic_framer_test.cc:7565-7581 | so are WINDOW_UPDATE and, from the neighbouring tests, BLOCKED, STOP_WAITING, PING and the MTU probe |
| PayloadLimits.PayloadReadsBackIff | quic/model/my_quic_framer.cc:438-520 | in every version but 41: a written payload is accepted and delivers its frames if and only if every ACK had room for one block |
| PayloadLimits.InStepIff | quic/model/my_quic_framer.cc:1180-1351 | in every version: each frame is read from its own bytes alone if and only if every ACK had room for one block |
| PayloadLimits.AckFrameReadsBackIff | quic/model/my_quic_framer.cc:1207-1226 | the same for one ACK with anything after it |
| PayloadLimits.WrongFirstRange | quic/model/my_quic_framer.cc:1583-1620 | without the room, an accepted ACK has a first range that is not the frame's |
| PayloadLimits.AcknowledgesWhatNeverArrived | quic/model/my_quic_framer.cc:2492-2566 | concrete: an ACK of packets 1 to 300, 1000 and 1001 with a byte of padding is read as an ACK of 490 to 1001, and the padding is lost |
| FrameRoundTrip.FrameReadsBack | quic/model/my_quic_framer.cc:1180-1351 | any one frame other than padding is read back and leaves what follows |
| FrameRoundTrip.StreamReadsBack | quic/model/my_quic_framer.cc:1382-1458 | a stream frame survives its variable widths and flags in both versions, with or without a length |
| FrameRoundTrip.TakesAllIff | quic/model/my_quic_framer.cc:1448-1456 | on arbitrary bytes: a stream frame without a length delivers all that is left if and only if that is less than 2^16 bytes |
| FrameRoundTrip.AckReadsBack | quic/model/my_quic_framer.cc:1207-1226 | an ACK within a payload delivers its ranges |
| FrameRoundTrip.PaddingReads | quic/model/my_quic_framer.cc:1947-1962 | a run of padding bytes merges with the zeros after it and stops there |
| FrameFramer.FrameLengthIsExact | quic/model/my_quic_framer.cc:2180-2226 | `ComputeFrameLength` is the number of bytes written, for every frame other than padding |
| FrameFramer.GetStreamIdSize | quic/model/my_quic_framer.cc:297-307 | the loop finds the least width that holds the stream id: the number fits it and no narrower one |
| FrameFramer.GetStreamOffsetSize | quic/model/my_quic_framer.cc:310-337 | the loop finds the least of the version's widths that holds the offset |
| FrameFramer.AppendStreamFrame | quic/model/my_quic_framer.cc:2352-2395 | type byte, id, offset, length unless last, data |
| FrameFramer.AppendRstStreamFrame | quic/model/my_quic_framer.cc:2838-2862 | field order of the version |
| FrameFramer.AppendConnectionCloseFrame | quic/model/my_quic_framer.cc:2864-2875 | error code and text cut to 256 bytes |
| FrameFramer.AppendGoAwayFrame | quic/model/my_quic_framer.cc:2877-2891 | error code, last good stream, text cut to 256 bytes |
| FrameFramer.AppendPaddingFrame | quic/model/my_quic_framer.cc:2914-2931 | the asked-for zeros, or zeros to the end of the buffer |
| FrameFramer.AppendStopWaitingFrame | quic/model/my_quic_framer.cc:2715-2738 | the distance to the packet's own number, refused when it does not fit |
| FrameFramer.AppendFrame | quic/model/my_quic_framer.cc:2228-2306 | type byte and contents of any frame |
| FrameFramer.BuildDataPacket | quic/model/my_quic_framer.cc:438-520 | the loop over frames writes the payload of the format, or fails where it does |
| FrameFramer.ProcessStreamFrame | quic/model/my_quic_framer.cc:1382-1458 | reads what the type byte's flags announce |
| FrameFramer.ProcessRstStreamFrame | quic/model/my_quic_framer.cc:1829-1864 | error codes beyond the known ones are clamped |
| FrameFramer.ProcessConnectionCloseFrame | quic/model/my_quic_framer.cc:1866-1889 | error code clamped, text of announced length |
| FrameFramer.ProcessGoAwayFrame | quic/model/my_quic_framer.cc:1891-1920 | error code clamped, stream id, text |
| FrameFramer.ProcessStopWaitingFrame | quic/model/my_quic_framer.cc:1811-1827 | the least unacked number; refused when it would be below zero |
| FrameFramer.ProcessPaddingFrame | quic/model/my_quic_framer.cc:1947-1962 | the loop consumes the run of zero bytes and no more |
| FrameFramer.ProcessFrame | quic/model/my_quic_framer.cc:1180-1351 | one turn of the frame loop on any byte |
| FrameFramer.ProcessFrameData | quic/model/my_quic_framer.cc:1174-1352 | the frame loop ends, each turn consuming a byte, with the callbacks and the verdict of the format on any payload |
| PacketNumber.RebuildIsNearest | quic/model/my_quic_framer.cc:144-156 | the rebuilt number has the truncated bits and no number with those bits is nearer, despite the 64-bit wrap of the epoch before the first |
| PacketNumber.PacketNumberRecovered | quic/model/my_quic_framer.cc:959-981 | every full number less than half an epoch from base+1 is recovered, for lengths 1, 2, 4 and 6 |
| PacketNumber.TimestampRecovered | quic/model/my_quic_framer.cc:936-957 | the same for 32-bit timestamps around the last one |
| PacketNumber.RecoversIff | quic/model/my_quic_framer.cc:959-981 | exactly which numbers are recovered: those nearest the target, ties going against the base's own epoch |
| PacketNumber.AgreesWithRfcIff | quic/model/my_quic_framer.cc:959-981 | agreement with the decoding of Appendix A.3 of RFC 9000 everywhere but at one end of the half-epoch window |
| IetfAck.VarIntReadsBack | my_quic_2/libquic/net/third_party/quic/core/quic_data_writer.cc:213-281 | every value below 2^62 is read back and leaves what follows |
| WireVectors.IetfAckVector | my_quic_2/libquic/net/third_party/quic/core/quic_framer_test.cc:6119-6150 | the IETF form of the tests' ACK is written as its byte string |
| IetfAck.IetfAckReadsBack | quic/model/my_quic_framer.cc:1742-1809 | reading an encoded frame, whatever follows it, recovers the largest number and the low edge of every interval, and leaves exactly what follows; every high edge is the low edge plus the length of the top interval |
| IetfRoundTrip.IetfSetRoundTripIff | quic/model/my_quic_framer.cc:1780-1807 | the rebuilt packet set is the sender's if and only if all intervals are as long as the top one, and then the intervals are identical |
| IetfRoundTrip.NeedsSameLength | quic/model/my_quic_framer.cc:1792-1805 | the hard half: a first interval of another length loses or gains a packet, also when `AddRange` drops an overlapping range |
| IetfRoundTrip.SameLengthRebuilds | quic/model/my_quic_framer.cc:1792-1805 | equal lengths are rebuilt interval by interval |
| IetfRoundTrip.AddBelow | my_quic_2/libquic/net/third_party/quic/core/frames/quic_ack_frame.cc:149-188 | a range added below a queue joins it, touches it or is dropped, and what the queue then contains |
| IetfRoundTrip.ShortBlockGrows | quic/model/my_quic_framer.cc:1792-1805 | concrete: packets 1, 5, 6, 7 arrive as 1, 2, 3, 5, 6, 7 |
| IetfRoundTrip.IetfDelayIff | quic/model/my_quic_framer.cc:1755-1767 | the delay survives if and only if it is a multiple of eight and not the reserved value |
| IetfLimits.IetfSoundIff | quic/model/my_quic_framer.cc:1742-1809 | on arbitrary bytes: the rebuilt set is always a proper queue, and lies within [0, largest+1) if and only if no high edge wraps below zero |
| IetfLimits.PairsWithinIff | quic/model/my_quic_framer.cc:1786-1807 | the same over the loop, from any queue below the largest number |
| IetfLimits.AddRangeSeparated | my_quic_2/libquic/net/third_party/quic/core/frames/quic_ack_frame.cc:149-188 | `AddRange` keeps the intervals ascending, non-empty and apart, whatever it is called with |
| IetfLimits.AddRangeGrows | my_quic_2/libquic/net/third_party/quic/core/frames/quic_ack_frame.cc:149-188 | and never drops a packet |
| IetfLimits.IetfCanWrap | quic/model/my_quic_framer.cc:1800-1804 | concrete: six bytes that wrap, are accepted, and put a packet near 2^64 into the set |
| IetfFramer.WriteVarInt62 | my_quic_2/libquic/net/third_party/quic/core/quic_data_writer.cc:213-281 | the narrowest of four widths, or failure |
| IetfFramer.ReadVarInt62 | my_quic_2/libquic/net/third_party/quic/core/quic_data_reader.cc:226-277 | the width from the first byte, or failure |
| IetfFramer.AppendPairs | quic/model/my_quic_framer.cc:2810-2834 | the loop writes gap and length of every interval below the first |
| IetfFramer.AppendIetfAckFrame | quic/model/my_quic_framer.cc:2752-2836 | refuses infinite delay, empty sets and numbers over 62 bits; otherwise appends the whole frame exactly when it fits |
| IetfFramer.ProcessPairs | quic/model/my_quic_framer.cc:1786-1807 | the loop makes the `AddRange` calls of its specification on any bytes, and on success stands after the last pair |
| IetfFramer.ProcessIetfAckFrame | quic/model/my_quic_framer.cc:1742-1809 | fills in the frame as the format function says on any bytes, and on success stands at its end |
| Sampling.BytesConserved | delay-bbr/sampler.cc:11-26 | in every run: bytes sent = acknowledged + in flight + lost + sent under a number already in flight |
| Sampling.NothingIgnored | delay-bbr/sampler.cc:24-25 | the last of these is nothing when packet numbers grow |
| Sampling.RunValid | delay-bbr/sampler.cc:56-110 | in every run, no subtraction in a rate goes below zero |
| Sampling.AckedSinceSent | delay-bbr/sampler.cc:103-106 | the numerator of the ack rate is the sum of sizes acknowledged since the sampled packet was sent, its own included |
| Sampling.SampleBounded | delay-bbr/sampler.cc:56-110 | in every run a sample above zero is at most the bytes acknowledged since the packet was sent over the time since the reference point, and at most the bytes sent since the reference point's packet over the time since that was sent |
| Sampling.SampleTight | delay-bbr/sampler.cc:77-108 | and no less than the smaller of the two by as much as a byte per second |
| Sampling.SnapshotTaken | delay-bbr/sampler.h:68-83 | in every run: a packet's snapshot has its own time and size, the bytes sent up to it, the bytes acknowledged before it, and as reference point the last acknowledgement of a packet in flight, or the last send into an idle connection if that is later: its time, its packet's send time and the bytes sent by then |
| Sampling.SampleOfBounded | delay-bbr/sampler.cc:72-108 | no sample exceeds the ack rate or the send rate, and none is made without time elapsed |
| Sampling.SampleOfTight | delay-bbr/sampler.cc:77-108 | nor does it fall short of the smaller by as much as a byte per second |
| Sampling.StepBalances | delay-bbr/sampler.cc:11-55 | what each operation moves between the accounts |
| Sampler.MySampler.OnPacketSent | delay-bbr/sampler.cc:11-26 | counters, reference point when idle, snapshot inserted only under a new number |
| Sampler.MySampler.OnPacketLost | delay-bbr/sampler.cc:39-41 | the snapshot is dropped |
| Sampler.MySampler.OnPacketAcknowledged | delay-bbr/sampler.cc:27-38 | the sample and the new counters; nothing for an unknown number |
| Sampler.MySampler.OnPacketAcknowledgedInner | delay-bbr/sampler.cc:56-110 | the counters move even when no sample is made |
| WindowedFilter.EstimatesTrack | my_quic_2/libquic/net/third_party/quic/core/congestion_control/windowed_filter.h:85-133 | over every feed, also one whose times run back: each of the three estimates is a sample that none fed later exceeds, taken in order |
| WindowedFilter.BestOfWindow | my_quic_2/libquic/net/third_party/quic/core/congestion_control/windowed_filter.h:85-133 | the best estimate is a sample no older than the window and at least every later one |
| WindowedFilter.BestKept | my_quic_2/libquic/net/third_party/quic/core/congestion_control/windowed_filter.h:85-133 | over every feed in order of time: a sample at least as large replaces the best, which is kept as long as it is inside the window and larger, and gives way to a later one past it |
| WindowedFilter.OnlyAgeDrops | my_quic_2/libquic/net/third_party/quic/core/congestion_control/windowed_filter.h:94-133 | no estimate gives way to a smaller sample but with age: a repeated second after a quarter of the window, a repeated third after half, the best after all of it, and then to the larger of the others inside |
| WindowedFilter.RunnersUpAreFresh | my_quic_2/libquic/net/third_party/quic/core/congestion_control/windowed_filter.h:118-132 | while the best lasts, a repeated second is never older than a quarter of the window, nor a repeated third than half |
| WindowedFilter.MaxFilter.Update | my_quic_2/libquic/net/third_party/quic/core/congestion_control/windowed_filter.h:85-133 | the in-place updates compute the specification |
| BbrStartup.StartupEnds | delay-bbr/bbr_sender_v5.cc:152-164 | for all estimates up to a bound, full bandwidth is found within 3(N+1) round updates of the first estimate of two or more, N being how often a quarter's growth fits below the bound |
| BbrStartup.FullIff | delay-bbr/bbr_sender_v5.cc:152-164 | full bandwidth is found if and only if some estimate that outgrew the record before it by a quarter was followed by three that did not outgrow it: no sooner and no later |
| BbrStartup.ZerosNeverEnd | delay-bbr/bbr_sender_v5.cc:153-157 | on estimates of zero nothing ever changes |
| BbrStartup.StaysFull | delay-bbr/bbr_sender_v5.cc:139-141 | once found, the full bandwidth stays found |
| BbrStartup.PatienceRunsOut | delay-bbr/bbr_sender_v5.cc:152-164 | the measure that every round update lowers |
| BbrEstimates.StartupEndsIff | delay-bbr/bbr_sender_v5.cc:139-141 | in every run with bounded estimates and the rounds for it: the full bandwidth is found if and only if some estimate is not zero |
| BbrEstimates.StartupEndsInRuns | delay-bbr/bbr_sender_v5.cc:152-164 | it is found within 3(N+1) rounds of the first estimate that is not zero |
| BbrEstimates.FullBandwidthIff | delay-bbr/bbr_sender_v5.cc:139-164 | the same of the estimates of every run |
| BbrEstimates.EstimatesAreWhole | my_quic_2/libquic/net/third_party/quic/core/quic_bandwidth.h:55-59 | in every run an estimate is zero or at least eight bits per second |
| BbrEstimates.RunTallied | delay-bbr/bbr_sender_v5.cc:111-141 | until the full bandwidth is found there is one estimate for every round but the first |
| BbrEstimates.EmptyPacketsNeverEnd | delay-bbr/bbr_sender_v5.cc:152-157 | a run that sends only empty packets never leaves STARTUP |
| BbrEstimates.AnyNumberOfRounds | delay-bbr/bbr_sender_v5.cc:332-339 | and such runs have any number of rounds |
| BbrInvariant.StepKeeps | delay-bbr/bbr_sender_v5.cc:86-147 | every input keeps the whole invariant: in-flight accounts, minimum, baseline, mode, gain and legality of the run |
| BbrInvariant.Run | delay-bbr/bbr_sender_v5.cc:86-147 | the invariant after any sequence of inputs |
| BbrRuns.ModesInOrder | delay-bbr/bbr_sender_v5.cc:188-303 | over every input of every run: DRAIN is entered only from START with the full bandwidth reached, and the 0.9 phase only from the 1.11 phase |
| BbrRuns.ModeNeverGoesBack | delay-bbr/bbr_sender_v5.cc:188-270 | between any two points of every run: no return to START, nor from INCREASE or DECREASE to DRAIN |
| BbrRuns.PhasesInOrder | delay-bbr/bbr_sender_v5.cc:188-303 | the same at every step within an acknowledgement |
| BbrRuns.RunLegal | delay-bbr/bbr_sender_v5.cc:98-147 | every event of every run is legal where it happens |
| BbrRuns.AgreeIff | delay-bbr/bbr_sender_v5.cc:86-119 | the packet table and the sampler hold the same packets, all in (last acked, last sent], after every input of a run if and only if no packet is first sent with a number already acknowledged |
| BbrRuns.StepAgreesIff | delay-bbr/bbr_sender_v5.cc:86-119 | the same for one input: an acknowledgement never parts them |
| BbrRuns.HonestIsTimely | delay-bbr/bbr_sender_v5.cc:98-102 | acknowledging only what was sent is enough |
| BbrRuns.InFlightIsTableTotal | delay-bbr/bbr_sender_v5.cc:388-397 | in every run the bytes in flight are the sum over the packet table |
| BbrLedger.SenderConservesBytes | delay-bbr/bbr_sender_v5.cc:86-119 | in every run without late sends: bytes sent = bytes acknowledged + the sender's bytes in flight + bytes lost |
| BbrLedger.SameBytesInFlight | delay-bbr/bbr_sender_v5.cc:388-397 | the sender and the sampler have the same bytes in flight |
| BbrLedger.TimelyContents | delay-bbr/bbr_sender_v5.cc:340-343 | table and sampler agree on the size and the send time of every packet |
| BbrLedger.SamplerOfRun | delay-bbr/bbr_sender_v5.cc:93-115 | the sampler inside a run is a run of the sampler on its own, so what holds of those holds here |
| BbrRuns.LateSendDiverges | delay-bbr/bbr_sender_v5.cc:86-110 | concrete run: packet 1, sent after packet 2 was acknowledged, is erased from the table and stays in the sampler |
| BbrInvariant.AckKeeps | delay-bbr/bbr_sender_v5.cc:98-115 | the loss loop, the erase loop and the sampler's own removal take out the same packets, whatever number is acknowledged |
| BbrInvariant.SendAgreesIff | delay-bbr/bbr_sender_v5.cc:86-97 | sending keeps table and sampler together if and only if the number is old or not yet acknowledged |
| BbrRuns.MinRttRefines | delay-bbr/bbr_sender_v5.cc:344-369 | in every run `min_rtt_` is the minimum of the window of samples, which an expired DECREASE with samples replaces by its own and a sample of zero empties |
| BbrInvariant.LeaveKeepsRtt | delay-bbr/bbr_sender_v5.cc:255-268 | leaving DECREASE replaces minimum and window together, or neither |
| BbrRuns.SmoothedBetween | delay-bbr/bbr_sender_v5.cc:370-386 | in every run `s_rtt_` is at most the largest sample since the backoff, and for whole milliseconds at least the baseline |
| BbrRuns.NeverSpurious | delay-bbr/bbr_sender_v5.cc:165-187 | in every run, each delay backoff has two packets sent after the backoff before it, one over 1.2 times the other, the least |
| BbrInvariant.CongestedIsJustified | delay-bbr/bbr_sender_v5.cc:178-185 | the step from the smoothed time to an actual sample; needs no whole milliseconds |
| BbrInvariant.CongestedIff | delay-bbr/bbr_sender_v5.cc:178-185 | in INCREASE the check fires if and only if the smoothed time of the samples since the backoff exceeds 1.2 times the least of them, rounded |
| BbrRuns.GainFollowsMode | delay-bbr/bbr_sender_v5.cc:188-246 | in every run the gain is the one for the mode and phase, and the phase is one of the eight |
| BbrInvariant.EveryAckSettles | delay-bbr/bbr_sender_v5.cc:129-145 | after every acknowledgement past the first round: no START with full bandwidth, no DRAIN or DECREASE with the excess gone, no DECREASE past four minima, no gain phase past one minimum, no expiry without a backoff |
| BbrDecisions.AckDecides | delay-bbr/bbr_sender_v5.cc:98-147 | in every run, for every new acknowledgement: past the first round the sender backs off, leaves DECREASE, estimates, drains, enters the gain cycle and advances in it, in that order and each exactly when its condition on the log before it holds; before that it does none of it |
| BbrDecisions.BacksOffIff | delay-bbr/bbr_sender_v5.cc:121-129 | so it backs off on delay if and only if it is in INCREASE, the minimum has not expired and 10 s_rtt > 12 baseline + 5, this sample included; and on expiry if and only if it is not in DECREASE and ten seconds have passed since the minimum was renewed |
| BbrTimes.TimesOfRun | delay-bbr/bbr_sender_v5.cc:349-369 | in every run: what the timestamp of the minimum, the start of the phase, the recorded minimum, the goal and the time of the backoff stand for |
| BbrTimes.EqualDoesNotRenew | delay-bbr/bbr_sender_v5.cc:359-366 | a sample equal to the minimum does not renew it |
| Bbr.TargetWindow | delay-bbr/bbr_sender_v5.cc:274-284 | the window is what the bandwidth carries in the minimum round-trip time, to within a byte, or ten packets of 1000 when that is nothing |
| BbrInputs.LargestNumbers | delay-bbr/bbr_sender_v5.cc:86-109 | in every run: the last packet sent and the last acknowledged are the largest numbers of the inputs |
| BbrInputs.TableOfRun | delay-bbr/bbr_sender_v5.cc:340-343 | the table holds a packet if and only if some input sent it and no acknowledgement since has reached it, with that input's time and size |
| BbrInputs.RoundTrips | delay-bbr/bbr_sender_v5.cc:344-349 | each round-trip time taken is that from the input that sent the packet to the acknowledgement that found it in flight |
| BbrInputs.RoundOfRun | delay-bbr/bbr_sender_v5.cc:332-339 | the current round ends with the last packet sent when the round before it ended |
| BbrInputs.FilterOfRun | delay-bbr/bbr_sender_v5.cc:130-137 | the estimate is the filter, with a window of ten rounds, over the samples made at the ends of rounds |
| BbrInputs.EstimateIsMeasured | delay-bbr/bbr_sender_v5.cc:73-75 | the estimate is a sample of one of the last rounds that none since has exceeded |
| BbrSender.MyBbrSender.constructor | delay-bbr/bbr_sender_v5.cc:40-60 | the initial state, in which the invariant holds |
| BbrSender.MyBbrSender.OnPacketSent | delay-bbr/bbr_sender_v5.cc:86-97 | the step of the model; old numbers are ignored; table and sampler stay together if and only if the number is old or not yet acknowledged |
| BbrSender.MyBbrSender.LoseSkipped | delay-bbr/bbr_sender_v5.cc:103-108 | the loss loop |
| BbrSender.MyBbrSender.UpdateBaseLine | delay-bbr/bbr_sender_v5.cc:371-385 | baseline and smoothing in whole milliseconds |
| BbrSender.MyBbrSender.UpdateRtt | delay-bbr/bbr_sender_v5.cc:349-386 | minimum, minimum within DECREASE, baseline |
| BbrSender.MyBbrSender.EraseAcked | delay-bbr/bbr_sender_v5.cc:388-397 | the erase loop, lowest number first, takes off exactly the bytes of what it erases |
| BbrSender.MyBbrSender.UpdateRoundTripCounter | delay-bbr/bbr_sender_v5.cc:332-339 | a round ends with the first acknowledgement past its end |
| BbrSender.MyBbrSender.EnterIncreaseMode | delay-bbr/bbr_sender_v5.cc:199-211 | a random offset that is never 1 |
| BbrSender.MyBbrSender.MaybeEnterDecrease | delay-bbr/bbr_sender_v5.cc:212-246 | when and how the sender backs off |
| BbrSender.MyBbrSender.MaybeExitDecrease | delay-bbr/bbr_sender_v5.cc:247-269 | when and how it leaves |
| BbrSender.MyBbrSender.CheckIfFullBandwidthReached | delay-bbr/bbr_sender_v5.cc:152-164 | one check, logged with its estimate |
| BbrSender.MyBbrSender.EndRound | delay-bbr/bbr_sender_v5.cc:130-141 | the filter is fed, then the check made |
| BbrSender.MyBbrSender.MaybeExitStartup | delay-bbr/bbr_sender_v5.cc:188-192 | START becomes DRAIN |
| BbrSender.MyBbrSender.MaybeExitDrain | delay-bbr/bbr_sender_v5.cc:193-197 | DRAIN becomes INCREASE |
| BbrSender.MyBbrSender.UpdateGainCyclePhase | delay-bbr/bbr_sender_v5.cc:296-303 | the next phase once a minimum round-trip time has passed |
| BbrSender.MyBbrSender.ReceiveAck | delay-bbr/bbr_sender_v5.cc:103-115 | the first half of an acknowledgement |
| BbrSender.MyBbrSender.AdaptToAck | delay-bbr/bbr_sender_v5.cc:121-145 | the second half |
| BbrSender.MyBbrSender.OnAck | delay-bbr/bbr_sender_v5.cc:98-147 | the whole step of the model, the early return before the first round included, keeping the invariant and the agreement of table and sampler |
| LazyInstance.CreatedOnce | my_quic_2/libquic/base/lazy_instance_helpers.h:57-95 | for any threads and interleaving, creators returning real pointers: the creator runs at most once, its destructor is registered at most once, and every returned pointer is the one in the word |
| LazyInstance.ReturnsWhatWasCreated | my_quic_2/libquic/base/lazy_instance_helpers.h:79-92 | whatever creators return, every real pointer in the word or returned is one that a creator returned |
| LazyInstance.AlwaysExclusive | my_quic_2/libquic/base/lazy_instance_helpers.cc:14-47 | whatever creators return, null included, short of the reserved value 1: at most one thread creates, and the word is 1 exactly while one does |
| LazyInstance.AlwaysOnce | my_quic_2/libquic/base/lazy_instance_helpers.cc:14-61 | the invariant behind it: untouched, owned by one thread, or published for good |
| LazyInstance.PointerIsForever | my_quic_2/libquic/base/lazy_instance_helpers.cc:49-57 | a published word never changes |
| LazyInstance.FastPath | my_quic_2/libquic/base/lazy_instance_helpers.h:71-78 | and a call made from then on returns it in a single step |
| LazyInstance.SafeIffNeverNull | my_quic_2/libquic/base/lazy_instance_helpers.h:39-48 | with two threads or more, free to call again, no caller is ever handed 1 if and only if no creator may return null |
| LazyInstance.NullLetsOneEscape | my_quic_2/libquic/base/lazy_instance_helpers.h:86-92 | the run in which one is |
| LazyInstance.EveryoneCanFinish | my_quic_2/libquic/base/lazy_instance_helpers.cc:26-46 | from every reachable state all threads can still return, within a bounded number of steps |
| LazyInstance.StepCounts | my_quic_2/libquic/base/lazy_instance_helpers.cc:31-44 | every step other than a turn of the spin loop brings the end nearer |
| Md5.Context.Update | my_quic_2/libquic/base/md5.cc:171-215 | feeding a chunk appends it to the message whatever came before: counter, folded blocks and buffered rest |
| Md5.Context.Final | my_quic_2/libquic/base/md5.cc:221-262 | the digest is the block fold over the once-padded message; the context is zeroed |
| Md5.Context.Wrap | my_quic_2/libquic/base/md5.cc:226-258 | padding in one block or two |
| Md5.Context.Init | my_quic_2/libquic/base/md5.cc:157-165 | the empty message |
| Md5.Context.IntermediateFinal | my_quic_2/libquic/base/md5.cc:264-270 | the digest so far, the context untouched |
| Md5.Sum | my_quic_2/libquic/base/md5.cc:286-291 | the digest of one buffer |
| Md5.SumOfChunks | my_quic_2/libquic/base/md5.cc:171-262 | for every split into chunks the digest is that of the whole message |
| Md5.CounterAdds | my_quic_2/libquic/base/md5.cc:178-181 | the two-word counter with its carry is 8 times the length modulo 2^64, for chunks of any 64-bit size |
| Md5.CountInBlock | my_quic_2/libquic/base/md5.cc:183 | the fill of the buffer can be told from the low word alone |
| Md5.PaddedLength | my_quic_2/libquic/base/md5.cc:226-258 | the padded message is whole blocks: the message, a single bit, as few zeros as will do, and its length |
| Md5.PaddingIsInjective | my_quic_2/libquic/base/md5.cc:226-258 | messages padded alike are alike |
| Md5.DigestWords | my_quic_2/libquic/base/md5.cc:259-260 | the digest is the four words of the last chaining value in order, low byte first |
| Md5.DigestStartsFrom | my_quic_2/libquic/base/md5.cc:157-165 | the four initial words |
| Md5.FoldJoin | my_quic_2/libquic/base/md5.cc:204-210 | folding block by block is folding the whole |
| PickleFormat.PayloadReadsBack | my_quic_2/libquic/base/pickle.cc:31-208 | for every sequence of typed values, reading with the same types gives the same values and ends at the payload's end |
| PickleFormat.FieldReadsBack | my_quic_2/libquic/base/pickle.cc:84-208 | any one value in the midst of any payload |
| PickleFormat.EncodedAs | my_quic_2/libquic/base/pickle.h:189-210 | how each kind of value lies in the payload: low byte first, booleans as four bytes, lengths before contents, zeros to a multiple of four |
| PickleFormat.SignedReadsBack | my_quic_2/libquic/base/pickle.cc:31-41 | two's complement integers over their whole range |
| PickleFormat.Read | my_quic_2/libquic/base/pickle.cc:43-82 | on any payload the read index never goes back and never passes the end |
| PickleFormat.ReadIff | my_quic_2/libquic/base/pickle.cc:43-208 | on any payload, exactly when each typed read succeeds and where a failed one leaves the read index |
| PickleFormat.RoundedUp | my_quic_2/libquic/base/bits.h:24-28 | `Align` gives the least multiple not below the size |
| PickleFormat.FailedSkipStaysIff | my_quic_2/libquic/base/pickle.h:76-80 | a failed skip leaves the index in place if and only if it was at the end |
| PickleFormat.FailedSkipMoves | my_quic_2/libquic/base/pickle.h:76-80 | concrete: skipping five of four bytes |
| Pickle.FindsTheEnd | my_quic_2/libquic/base/pickle.cc:358-392 | the exact end of a pickle, whatever follows it |
| Pickle.FindNextIff | my_quic_2/libquic/base/pickle.cc:358-392 | on any bytes, an end if and only if all that the header announces is there |
| Pickle.PeekNextIff | my_quic_2/libquic/base/pickle.cc:371-392 | the announced size of any header that is there, clamped to the largest possible |
| Pickle.DeduceHeaderIff | my_quic_2/libquic/base/pickle.cc:238-255 | constant data is accepted if and only if the announced payload fits and leaves an aligned header, so reads stay inside |
| Pickle.DeducesItsHeader | my_quic_2/libquic/base/pickle.cc:238-255 | a pickle's own data gives back its header size |
| Pickle.Pickle.constructor | my_quic_2/libquic/base/pickle.cc:227-236 | empty, with an aligned header |
| Pickle.Pickle.Copy | my_quic_2/libquic/base/pickle.cc:257-264 | header and payload of the original in a buffer of its own |
| Pickle.Pickle.Resize | my_quic_2/libquic/base/pickle.cc:336-342 | capacity in whole units, contents kept |
| Pickle.Pickle.Reserve | my_quic_2/libquic/base/pickle.cc:311-321 | room for what is to come, contents kept |
| Pickle.Pickle.EnsureCapacity | my_quic_2/libquic/base/pickle.cc:402-417 | a buffer with the room is left alone; one without at least doubles, less one unit, and grows by no more than is needed or 4096 bytes over |
| Pickle.Pickle.ClaimUninitializedBytes | my_quic_2/libquic/base/pickle.cc:402-425 | through every regrowth: offsets four-aligned and within capacity, padding zero, header up to date, the rest kept |
| Pickle.Pickle.WriteBytes | my_quic_2/libquic/base/pickle.cc:427-433 | the payload gains the data, padded |
| Pickle.Pickle.Write | my_quic_2/libquic/base/pickle.h:189-210 | the payload gains the encoding of any typed value |
| Pickle.Pickle.DataWellFormed | my_quic_2/libquic/base/pickle.h:254-263 | header and payload of a valid pickle are what `FindNext` and the iterator expect |
| Pickle.PickleIterator.AdvanceBy | my_quic_2/libquic/base/pickle.cc:43-50 | the read index clamps at the end |
| Pickle.PickleIterator.GetReadPointerAndAdvance | my_quic_2/libquic/base/pickle.cc:63-72 | the bytes, or none and the index at the end, for any length, negative ones too |
| Pickle.PickleIterator.SkipBytes | my_quic_2/libquic/base/pickle.h:76-80 | succeeds exactly when there are as many bytes; otherwise skips all that are left |
| Pickle.PickleIterator.ReadOne | my_quic_2/libquic/base/pickle.cc:84-208 | each typed read on any payload |
| Pickle.WriteAll | my_quic_2/libquic/base/pickle.cc:402-433 | values written one after another give the payload of the format |
| Pickle.ReadBack | my_quic_2/libquic/base/pickle.cc:84-208 | the iterator reads them all back and stands at the end |

## Left out

- Packet headers, encryption, public reset, version negotiation and connectivity probes of the framer: they rest on crypto and handshake classes.
- Transport versions up to 38 and the little-endian wire order they use.
- A visitor that tells the framer to stop: every callback here answers "go on".
- The contents of ACK timestamp lists; they are skipped as in the reader with incremental processing, and the writer never sends any.
- AckFramer.AppendAckFrameAndTypeByte: buffers of 2^31 bytes and more, where the code's 32-bit figure of available bytes would wrap.
- Packet numbers of eight bytes in headers, whose epoch is the whole 64-bit range.
- The other IETF frames: straight-line field copies.
- PayloadLimits.PayloadReadsBackIff: version 41, where an ACK without room misreads its own largest number; there `InStepIff` says exactly when every frame is read from its own bytes.
- PacketNumber.AgreesWithRfcIff: numbers near 2^62, where the RFC's own bound takes over.
- Pacing rate, reference rate, observer and trace callbacks of the BBR sender, and fields it writes and never reads (congestion sequence numbers, last backoff count, maximum bandwidth in INCREASE).
- Rounding of single-precision gains and thresholds: 1.11, 0.9, 1.125, 1.2 and 1.25 are exact, their products rounded to the nearest integer as the code does.
- BbrSender.MyBbrSender.OnAck: asks that no packet in flight was sent after `now`, because a clock that runs backwards is not modelled.
- Overflow of 64-bit byte and bandwidth products in the sampler, the filter and the congestion window.
- The C++ memory model in lazy creation: atomic steps are sequentially consistent. `AtExitManager` is a count of registrations.
- The MD5 compression function itself, which is a parameter; big-endian machines; hexadecimal output.
- Pickle on machines where the product of a negative length and a size is not refused in place; assignment between pickles; attachments; `ClaimBytes`; and a copy of a pickle whose bytes change under the iterator (the iterator here holds the payload as it was).
- Aliasing of pickle reads: pointers into the payload are given as the bytes they point to.
- Sockets, ns-3 scheduling, tracing and plotting, and the rest of the vendored libraries.
