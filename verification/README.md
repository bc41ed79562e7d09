# Proofs about the Venus VA-API driver

The driver turns VA-API buffers into byte streams for a stateful video codec, tracks encoded frames, and keeps
tables of objects and image memory. This project models that code in Dafny and proves what it is for.

`dafny verify dfyconfig.toml` checks everything.

## How the project is laid out

| part | modules |
|---|---|
| bits, codes, NAL units | `Bitstring`, `ExpGolomb`, `SyntaxElements`, `NalStream` |
| table sizes and integer limits | `Limits` |
| HEVC rebuilder | `HevcBits`, `HevcPicture`, `HevcReferences`, `HevcRps`, `HevcScaling`, `HevcSetWriter`, `HevcRewrite` |
| what a HEVC decoder makes of it | `HevcElements`, `HevcSets`, `HevcSyntax`, `HevcSyntaxProofs`, `HevcDecoder`, `HevcMeaning`, `HevcRanges` |
| parameter set cache, random access, runs | `HevcParameterSets`, `HevcAccessUnit`, `HevcRuns`, `HevcReceived`, `HevcStream` |
| what the HEVC rebuilder accepts | `HevcAccepted` |
| H.264 rebuilder | `BitWriter`, `H264AnnexB`, `H264AccessUnit`, `H264Collect` |
| what an H.264 decoder makes of it | `H264Syntax`, `H264Received` |
| encode frame lifecycle | `EncodeState`, `EncodeQueue`, `EncodeInvariant`, `EncodeTables`, `EncodeRuns`, `EncodeEffects`, `EncodeCareful`, `EncodeContexts` |
| delivery of encoded frames | `EncodeDelivery`, `EncodeBlocked`, `EncodeDeliverable`, `EncodeWhole` |
| runs in which something goes wrong | `EncodeExamples`, `EncodeTakeover` |
| image memory | `SurfaceCopy` |
| object tables | `ObjectStore`, `ObjectCalls`, `ObjectRuns`, `Driver` |

Code that updates fields or arrays is a class or a method with the same steps: `Bits`, `Reader`, `HevcState`,
`DecodeContext`, `Writer`, `ByteWriter`, `EncodeContext`, `Surface`, `Driver`. Each method is proved against a function
of its inputs and the old state, and the promises are theorems about those functions. The syntax tables of ITU-T
H.264 and ITU-T H.265 are independent parsers; the driver never calls them.

Bit strings are sequences of booleans, sizes and counters are unbounded with every 8-, 32- and 64-bit limit, wrap or
truncation of the code written out. `Span(rows, stride)` is `rows * stride`. The kernel appears as choices that the
theorems quantify over: whether an access unit is taken, which packets and events come when, whether CPU access is
granted.

## Where the code falls short of what it is for

- A P or B slice of an IDR picture passes every check of `rewrite_slice` and is forwarded, although no decoder can
  read it: an IDR slice carries no reference picture set, so there are no pictures for its lists. ITU-T H.265 rules
  such slices out. `MeaningKeptExactly` shows that this is the only accepted slice that cannot be read afterwards, and
  `InterIdrExample` is one.
- `append_sps` lets pic_order_cnt_type 3 through, and neither it nor `append_pps` checks value ranges;
  `H264Syntax.SpsParsesBack` and `PpsParsesBack` give the exact ranges in which a decoder reads back what was meant.
- The HEVC sequence parameter set carries only the low four bits of the two PCM depths, which nothing checks
  (`PcmDepthsExactly`).
- Block and PCM sizes, list lengths, QP values, tiles, deblocking offsets and the merge level of a HEVC picture go into
  the parameter sets unchecked. `SpsAcceptedExactly` and `PpsAcceptedExactly` say for which values a decoder must reject
  them, and `LargeTransformsExample` is a picture with such values.
- Delivery is blocked for good behind a frame that is lost. A frame is lost by a submission that fails after its
  sequence number was taken, by submitting its buffer again before it was delivered, be the frame queued or complete,
  and by destroying that buffer; by nothing else (`NextLosesExactly`, `LostExactly`).
- Delivery is also blocked behind a frame that is not lost but can never be complete: its final packet was empty, which
  is not handed on, or too long for what was left of the coded buffer, or an earlier packet left no room for it
  (`ReportBlocksExactly`, `OverflowBlocks`). Nothing else blocks delivery (`DeliverableExactly`).
- A client that waits for its turn does not look at the frame again. If another frame is submitted meanwhile in the
  buffer it waits for, it is handed that one before it is complete (`RudeDeliversEarly`, `HandedOutEarly`); otherwise
  deliveries are whole (`DeliveredWhole`). The client need not be one of that context: it waits for a slot, and takes
  its turn in whatever context the slot belongs to when it wakes (`TurnTakenOver`).
- Destroying a coded buffer waits for its frame only while its surface still waits for that buffer. A buffer submitted
  again from another surface while it is queued, or whose surface another context has taken over, is freed at once, and
  the queue keeps naming it (`FreesQueuedExactly`, `FreedWhileQueued`). That entry never leaves the queue
  (`DeadEntriesStay`), and the packets of other frames still reach their buffers (`RunKeeps`,
  `PacketReachesItsFrame`), unless another context submits a buffer in the freed slot: then a packet of this context
  can complete a frame of the other (`StrayPacket`).
- Frame tags stop increasing when the 64-bit product wraps, behind frame 18446744073710 (`TagWraps`).
- Splitting the stream returns a unit intact exactly when it ends in a nonzero byte; a slice whose data ends in zero
  bytes comes out without them (`SplitReturnsUnits`).
- Putting an image into the surface it was derived from, or getting it from there, succeeds and clears the surface,
  because the shared memory is cleared before it is read (`SurvivesExactly`, `InPlaceExample`).
- `venus_surface_copy_from_yuv420` adds chroma offset and size without an overflow check; `RequiredExact` says when its
  size check is right, `WrapExample` when it is not, and `CallersDoNotWrap` that its callers stay clear of that.

## Model

| member | source | states |
|---|---|---|
| HevcBits.Bits.Append | src/hevc_annexb.cpp:64-68 | succeeds exactly on a byte boundary, and then adds the bits of the bytes |
| HevcBits.Bits.Bit | src/hevc_annexb.cpp:69-73 | adds the low bit; the bytes stay the bit string padded with fewer than eight zero bits |
| HevcBits.Bits.Bits | src/hevc_annexb.cpp:74-78 | adds the low bits of a value, most significant first; fails exactly above 32 bits |
| HevcBits.Bits.Ue | src/hevc_annexb.cpp:79-87 | adds the Exp-Golomb code of section 9.2 of ITU-T H.265; fails exactly for 2^32 - 1 |
| HevcBits.Bits.Se | src/hevc_annexb.cpp:88-92 | adds the code of the signed mapping; fails exactly for -2^31 |
| HevcBits.Bits.Align | src/hevc_annexb.cpp:93-97 | adds a one and the fewest zeros up to a byte boundary |
| HevcBits.Bits.Nal | src/hevc_annexb.cpp:98-112 | appends start code, header and escaped payload; fails exactly off a byte boundary without trailing bits |
| HevcBits.OpenReader | src/hevc_annexb.cpp:119-131 | needs three bytes and reads the payload with emulation prevention removed |
| HevcBits.Reader.Seek | src/hevc_annexb.cpp:138-141 | moves exactly within the payload |
| HevcBits.Reader.Skip | src/hevc_annexb.cpp:142-145 | moves forward exactly within the payload |
| HevcBits.Reader.Bit | src/hevc_annexb.cpp:146-150 | returns the next bit of the payload as a bit string, and fails exactly at its end |
| HevcBits.Reader.Bits | src/hevc_annexb.cpp:151-157 | returns the value the next bits spell, for at most 32 bits |
| HevcBits.Reader.Ue | src/hevc_annexb.cpp:158-163 | agrees with the standard parsing process limited to 30 leading zeros, result and position |
| HevcBits.Reader.Copy | src/hevc_annexb.cpp:164-177 | appends exactly the bits from the position to the end, whether bytes are copied in bulk or bit by bit |
| ExpGolomb.DecodeUeExact | src/hevc_annexb.cpp:158-163 | decoding yields v and ends behind it exactly where the code of v stands within the zero limit |
| ExpGolomb.ReaderLimit | src/hevc_annexb.cpp:158-163 | the 30-zero reader accepts exactly the values up to 2^31 - 2 |
| ExpGolomb.UeCodeAsField | src/bit_writer.c:55-83 | the code of section 9.1 of ITU-T H.264 is the run of zeros and the field both writers emit, 2 log2(v + 1) + 1 bits long |
| ExpGolomb.SignedMappingInverts | src/bit_writer.c:85-100 | the signed mapping and its inverse undo each other, both ways |
| NalStream.UnescapeEscape | src/hevc_annexb.cpp:98-131 | unescaping an escaped payload returns it |
| NalStream.NalUnitHasNoTriples | src/hevc_annexb.cpp:98-112 | a unit whose header ends in a nonzero byte holds none of 00 00 00, 00 00 01, 00 00 02 |
| NalStream.EscapeGrowth | src/h264_annexb.c:77-96 | escaping n bytes inserts at most floor((n - 1) / 2) |
| NalStream.EscapeAppend | src/hevc_annexb.cpp:104-111 | escaping a concatenation is escaping the parts, the second from the run the first leaves |
| NalStream.EscapeIsShortest | src/hevc_annexb.cpp:104-111 | no byte string that reads back as the payload and holds no forbidden triple is shorter than the escaped payload |
| NalStream.SplitStream | src/hevc_annexb.cpp:98-112 | splitting framed units at start codes loses exactly the trailing zeros of the units before the last |
| NalStream.SplitReturnsUnits | src/hevc_annexb.cpp:98-112 | splitting returns exactly the units if and only if every unit but the last ends in a nonzero byte |
| NalStream.SplitChunks | src/h264_annexb.c:226-281 | the same for units led by three-byte or four-byte start codes in any mixture |
| HevcReferences.BuildReferences | src/hevc_annexb.cpp:236-271 | succeeds exactly when no present reference has the POC of the picture or of another; then each group holds exactly its frames, nearest first |
| HevcReferences.Sort | src/hevc_annexb.cpp:254-259 | returns the same references in strict POC order |
| HevcReferences.ReferencesExist | src/hevc_annexb.cpp:236-271 | distinct POCs are enough for a picture to have references |
| HevcAccessUnit.ReferencesUnique | src/hevc_annexb.cpp:236-271 | a picture has at most one result of references() |
| HevcRps.WriteShortTerm | src/hevc_annexb.cpp:276-285 | writes the deltas of one group, and fails exactly when one is not in 1..32768 |
| HevcRps.WriteLongTerm | src/hevc_annexb.cpp:286-302 | writes the long-term entries, and fails exactly when a POC cycle decreases or is out of range |
| HevcRps.WriteRps | src/hevc_annexb.cpp:272-305 | succeeds exactly for writable sets, and then writes the explicit syntax of sections 7.3.6.1 and 7.3.7 of ITU-T H.265 |
| HevcRps.CycleIsMsbDifference | src/hevc_annexb.cpp:287-299 | the coded cycle is the difference of the two POCs without their low bits, in whole cycles |
| HevcDecoder.StRoundTrip | src/hevc_annexb.cpp:276-285 | decoding short-term deltas by section 7.4.8 of ITU-T H.265 returns the POCs and used flags |
| HevcDecoder.LtRoundTrip | src/hevc_annexb.cpp:286-302 | decoding long-term entries with accumulated MSB cycles by section 8.3.2 of ITU-T H.265 returns the POCs and used flags |
| HevcDecoder.RpsRoundTrip | src/hevc_annexb.cpp:272-305 | decoding the whole written set returns exactly the reference POCs and flags of the picture |
| HevcDecoder.WritableExactly | src/hevc_annexb.cpp:277-305 | a set is writable if and only if neighbours are near enough and the first long-term cycle is not negative: deltas are never zero or negative, and later cycles never decrease |
| HevcDecoder.TotalCurrIs | src/hevc_annexb.cpp:259-269 | a decoder counts as many current references as the lists of the driver have |
| HevcDecoder.CurrPocsAre | src/hevc_annexb.cpp:259-269 | the candidate lists a decoder forms are the POCs of the lists of the driver, in order |
| HevcDecoder.ListMeansSame | src/hevc_annexb.cpp:417-431 | list construction of section 8.3.4 of ITU-T H.265 from the emitted entries, or from none with one reference, yields the VA list |
| HevcSyntaxProofs.HeaderSound | src/hevc_annexb.cpp:309-434 | what the slice segment header parser of section 7.3.6.1 of ITU-T H.265 returns is well formed and its print stands in the bits |
| HevcSyntaxProofs.HeaderComplete | src/hevc_annexb.cpp:309-434 | where a well-formed header is printed, the parser returns it and stops behind it |
| HevcSyntaxProofs.ParsePrinted | src/hevc_annexb.cpp:309-434 | parsing a printed header returns it, whatever follows |
| HevcRewrite.RewriteOpening | src/hevc_annexb.cpp:318-326 | carries the first flag over and clears no_output_of_prior_pics_flag |
| HevcRewrite.RewritePrologue | src/hevc_annexb.cpp:318-339 | accepts exactly the prologues the syntax admits whose address is the one VA gives |
| HevcRewrite.RewriteKind | src/hevc_annexb.cpp:347-357 | accepts exactly the slice types the syntax and VA agree on, and sets pic_output_flag |
| HevcRewrite.SkipShortTerm | src/hevc_annexb.cpp:361-380 | stops exactly where the short-term syntax ends, predicted, indexed or explicit |
| HevcRewrite.SkipLongTerm | src/hevc_annexb.cpp:381-396 | stops exactly where the long-term syntax ends |
| HevcRewrite.RewriteRps | src/hevc_annexb.cpp:358-401 | replaces the reference picture sets by the explicit ones and leaves the POC bits and the MVP flag |
| HevcRewrite.RewriteList | src/hevc_annexb.cpp:417-431 | replaces one list modification by the positions of the VA entries; fails exactly when one is not among the references |
| HevcRewrite.RewriteLists | src/hevc_annexb.cpp:406-433 | the same for all lists of the slice, behind the carried counts |
| HevcRewrite.RewriteBody | src/hevc_annexb.cpp:347-434 | the independent part of the header is accepted and rewritten as a whole |
| HevcRewrite.RewriteHeader | src/hevc_annexb.cpp:309-434 | a header is accepted exactly when it parses and agrees with VA, and its rewritten bits are those of the new header |
| HevcRewrite.FindAlignment | src/hevc_annexb.cpp:437-443 | finds the stop bit of byte_alignment() behind the parsed part, within the last byte |
| HevcRewrite.FinishSlice | src/hevc_annexb.cpp:436-448 | carries every bit of the header tail over, up to the stop bit of byte_alignment(), then a new byte alignment and the slice data |
| HevcRewrite.RewriteSlice | src/hevc_annexb.cpp:309-451 | succeeds exactly for accepted slices, returns the PPS id, and appends the unit of the rewritten bits, with the escaped payload behind the two header bytes of the client |
| HevcMeaning.RewriteKeepsMeaning | src/hevc_annexb.cpp:309-451 | under the emitted parameter sets the rewritten slice parses to the emitted header; behind it stand the bits the client has between its own header and its last one bit, then byte_alignment(), then every bit of the slice data |
| HevcMeaning.FieldsKept | src/hevc_annexb.cpp:309-434 | the emitted header has every field of the original but the output flags, the reference picture sets and the list entries |
| HevcMeaning.InterIdrUnreadable | src/hevc_annexb.cpp:358-434 | a P or B slice of an IDR picture is accepted and forwarded; a decoder, counting its own references, refuses the original and the rewritten header alike |
| HevcMeaning.MeaningKeptExactly | src/hevc_annexb.cpp:309-451 | the rewritten slice is readable and tells the same fields, picture order count, references, lists, header tail bit for bit and slice data, all told by the slice and VA buffers of the client, if and only if it is not a P or B slice of an IDR picture; such an original is unreadable itself |
| HevcMeaning.InterIdrExample | src/hevc_annexb.cpp:358-434 | a concrete such slice: accepted, and readable neither before nor after |
| HevcMeaning.IntraIdrExample | src/hevc_annexb.cpp:309-451 | a concrete I slice of the same picture: accepted, and parsed back to the emitted header |
| HevcMeaning.ReferencesMeanSame | src/hevc_annexb.cpp:397-433 | from the emitted header and the picture before, a decoder derives the VA picture order count by section 8.3.1 of ITU-T H.265 if the original header told it, and then exactly the VA references and the VA RefPicList of every P or B slice |
| HevcMeaning.BodyListsMeanSame | src/hevc_annexb.cpp:406-433 | the lists of one emitted body, each entry the VA one |
| HevcDecoder.PicOrderCntExact | src/hevc_annexb.cpp:401-405 | the low bits of section 8.3.1 of ITU-T H.265 tell a picture order count within half a cycle of the one before, and no other |
| HevcMeaning.RewrittenUnitBytes | src/hevc_annexb.cpp:444-449 | the unit is the original NAL header, the escaped new header and the escaped slice data; unescaping returns header and data byte for byte |
| HevcAccepted.OriginalIsClients | src/hevc_annexb.cpp:309-345 | slices are read as under any parameter sets of the client that agree with the VA fields; VA adds the length of a predicted reference picture set and the number of current references |
| HevcAccepted.AddressBitsAre | src/hevc_annexb.cpp:333-338 | a slice segment address takes the least number of bits that numbers the coding tree blocks, whole columns and rows covering the picture |
| HevcAccepted.CodableExactly | src/hevc_annexb.cpp:272-305 | the references can be written if and only if every short-term one is reached from the picture over nearer ones in steps of at most 32768, and every long-term one is allowed and in no later cycle than the picture |
| HevcAccepted.AcceptsExactly | src/hevc_annexb.cpp:309-448 | a slice is accepted if and only if it is a base-layer VCL unit whose header parses under the sets of the client, agrees with the VA address and type, and names frames the picture refers to, those can be written, and the slice data begin behind the header and a one bit at most eight bits back |
| HevcScaling.ScanIsUpRightDiagonal | src/hevc_annexb.cpp:205-214 | the diagonal loop visits each of side*side cells once, in the up-right order of section 6.5.3 of ITU-T H.265 |
| HevcScaling.WriteScalingList | src/hevc_annexb.cpp:196-216 | writes the deltas of the matrix in scan order; fails exactly on a zero coefficient or DC |
| HevcScaling.ScalingListReads | src/hevc_annexb.cpp:196-216 | decoding the deltas modulo 256 by section 7.3.4 of ITU-T H.265 returns every coefficient and the DC value, wherever the list stands |
| HevcScaling.MatrixRoundTrip | src/hevc_annexb.cpp:196-216 | the matrix comes back at every scan position |
| HevcElements.ReadBack | src/hevc_annexb.cpp:522-613 | a run of fixed-length fields and Exp-Golomb codes is read back, value for value |
| HevcSetWriter.WriteVps | src/hevc_annexb.cpp:508-520 | prints the video parameter set |
| HevcSetWriter.WriteSps | src/hevc_annexb.cpp:522-562 | prints the sequence parameter set of section 7.3.2.2 of ITU-T H.265 with the fields of the picture (`SpsReadsBack` tells them) |
| HevcSetWriter.WritePps | src/hevc_annexb.cpp:565-613 | prints the picture parameter set of section 7.3.2.3 of ITU-T H.265 for one id (`PpsReadsBack` tells its fields); fails exactly on a zero scaling coefficient or DC value |
| HevcSetWriter.WriteMatrices | src/hevc_annexb.cpp:217-226 | prints the twenty scaling lists in order |
| HevcSets.SpsBack | src/hevc_annexb.cpp:522-562 | parsing any printed sequence parameter set returns its fields |
| HevcSets.PpsBack | src/hevc_annexb.cpp:565-613 | parsing any printed picture parameter set returns its fields, tile sizes and scaling lists |
| HevcSetWriter.SpsReadsBack | src/hevc_annexb.cpp:522-562 | a decoder reads from the sequence parameter set each field of the picture and coding parameters by name, the PCM depths in their low four bits, and profile and depth |
| HevcSetWriter.VpsReadsBack | src/hevc_annexb.cpp:508-520 | from the video parameter set the profile, its compatibility flag, the level and the picture buffering |
| HevcSetWriter.PcmDepthsExactly | src/hevc_annexb.cpp:546-552 | the two PCM depths of the picture arrive if and only if they fit four bits |
| HevcSetWriter.PpsReadsBack | src/hevc_annexb.cpp:565-613 | from a picture parameter set its id and each field by name, tile sizes included, and every scaling coefficient at its scan position |
| HevcSetWriter.SetsAreEmitted | src/hevc_annexb.cpp:522-613 | what the two sets tell about slice headers is exactly what the slices were rewritten for |
| HevcRanges.SpsAcceptedExactly | src/hevc_annexb.cpp:482-500 | of the pictures that pass the checks, a decoder that holds values to the ranges of section 7.4.3.2.1 of ITU-T H.265 accepts the sequence parameter set if and only if picture size, transform sizes, hierarchy depths and PCM values fit the coding block sizes, and then reads the fields of the picture |
| HevcRanges.PpsAcceptedExactly | src/hevc_annexb.cpp:482-500 | the same for the picture parameter sets and section 7.4.3.3.1: default list lengths, QP and offsets, tile sizes, deblocking offsets and merge level |
| HevcRanges.LargeTransformsExample | src/hevc_annexb.cpp:482-500 | a concrete picture that passes the checks and whose sequence parameter set a decoder rejects |
| HevcParameterSets.PpsIdRead | src/hevc_annexb.cpp:563-565 | a decoder reads the id of a picture parameter set from its unit |
| HevcParameterSets.ReceiveStores | src/hevc_annexb.cpp:452-459 | splitting and taking in an access unit stores exactly its parameter sets by kind and id |
| HevcParameterSets.CacheAgrees | src/hevc_annexb.cpp:452-459 | sending only what cache() lets through leaves the decoder with the same store as sending everything, and the state with exactly that store |
| HevcParameterSets.SentExactly | src/hevc_annexb.cpp:452-459 | a set is sent if and only if it is not what was sent last under its key, and none twice |
| HevcAccessUnit.HevcState.CacheSet | src/hevc_annexb.cpp:452-459 | a set is sent and remembered exactly when it differs from the one sent last |
| HevcAccessUnit.OfferPps | src/hevc_annexb.cpp:563-614 | prints and offers one picture parameter set for each used id, in ascending order |
| HevcAccessUnit.RewriteSlices | src/hevc_annexb.cpp:505-507 | succeeds exactly when every slice is accepted, and collects ids and units in order |
| HevcAccessUnit.HevcBitstream | src/hevc_annexb.cpp:462-622 | succeeds exactly under its checks, returns the sets not held yet and the slices, and leaves the successor state; a missing slice, the random-access gate and the sample format fail first, each with its own error |
| HevcAccepted.MatricesExactly | src/hevc_annexb.cpp:196-226 | the scaling matrices can be coded if and only if no factor is zero and no DC value of the two largest sizes is |
| HevcAccepted.BuildableExactly | src/hevc_annexb.cpp:462-507 | an access unit is built if and only if the type of the picture fits the run, its format, fields, matrices and picture order counts fit and every slice does; and it is returned if and only if it and the client data keep within 8 MiB and there are 1 to 64 slices, none empty |
| HevcRuns.PrepareSlices | src/hevc_annexb.cpp:670-694 | refuses empty slices and more than 8 MiB, and drops a leading start code |
| HevcRuns.BuildAccessUnit | src/hevc_annexb.cpp:643-715 | builds on a copy: the previous state is untouched, the candidate is the successor state |
| HevcRuns.DecodeContext.EndPicture | src/decode.c:745-758 | the state advances exactly when the access unit was built and taken by the hardware |
| HevcRuns.AccessUnitAgrees | src/hevc_annexb.cpp:563-616 | one access unit, cached or full, leaves a synced decoder with the same store, and the state synced |
| HevcRuns.SlicesFindTheirSets | src/hevc_annexb.cpp:505-616 | after an access unit, whatever was sent before, the decoder holds this picture's VPS and SPS and, under the id each slice names, this picture's PPS |
| HevcRuns.StoredSetsAreEmitted | src/hevc_annexb.cpp:505-616 | parsing the stored sets yields exactly the parameters that the slice was rewritten for |
| HevcRuns.StoredSetsTell | src/hevc_annexb.cpp:508-613 | from the three sets a slice finds, under the id in the slice of the client, a decoder reads every field that VA gave |
| HevcRuns.SentWhenChanged | src/hevc_annexb.cpp:563-616 | an access unit carries a parameter set if and only if it changes what the decoder holds; picture parameter sets no slice names stay |
| HevcRuns.SlicesKeepMeaning | src/hevc_annexb.cpp:462-622 | in every access unit every slice, parsed under the sets the decoder has stored by then, means what the slice of the client meant, header tail and data bit for bit |
| HevcReceived.ReceivedAre | src/hevc_annexb.cpp:505-616 | splitting the access unit and dropping parameter sets returns the rewritten slices in order, the last whole and the others without trailing zero bytes |
| HevcReceived.ReceivedKeepsMeaning | src/hevc_annexb.cpp:462-622 | each slice unit as it arrives keeps its NAL header and, read by the sets that arrived, means what the slice of the client meant; only zero bytes at the end of a slice that is not the last are lost |
| HevcStream.AnchorsAgree | src/hevc_annexb.cpp:462-622 | over every run of pictures numbered right, a decoder that derives picture order counts from the units it received counts from the same pictures and values as VA |
| HevcStream.StreamKeepsMeaning | src/hevc_annexb.cpp:462-622 | in every such run every slice unit a decoder receives, read by the sets it received so far and counted from the pictures it read before, means what the slice of the client meant, header tail and data included |
| HevcStream.PreparedSlices | src/hevc_annexb.cpp:681-691 | the slices that are rewritten are those of the client without a start code in front |
| HevcStream.StoredSetsAccepted | src/hevc_annexb.cpp:522-613 | the sets a slice finds are accepted by a decoder that checks ranges if and only if the unchecked values of the picture are in range |
| HevcRuns.CachedStreamAgrees | src/hevc_annexb.cpp:452-622 | over every run of built, refused and not-taken pictures the decoder stores what it would store had every set been sent each time, and the committed state is exactly what was transmitted |
| HevcRuns.GateExact | src/hevc_annexb.cpp:467-480 | the gate admits a picture if and only if it is admissible after the run so far |
| HevcRuns.GateAfterRun | src/hevc_annexb.cpp:467-480 | the same after every run of committed pictures |
| HevcRuns.RunTracks | src/hevc_annexb.cpp:617-620 | the two flags of the state always tell whether the run began and NoRaslOutputFlag of its latest random access picture (section 8.1.3 of ITU-T H.265) |
| HevcRuns.RandomAccessRun | src/hevc_annexb.cpp:466-480 | in every run the first committed picture has type 16..21, and a committed RASL picture follows a CRA picture that did not open the run |
| BitWriter.Writer.constructor | src/bit_writer.c:8-18 | a writer over zeroed memory that overflows at once exactly when it has none |
| BitWriter.Writer.WriteOne | src/bit_writer.c:20-38 | adds a bit while there is room, and overflows for good when there is none |
| BitWriter.Writer.Write | src/bit_writer.c:40-53 | adds the low bits of a value up to the room; overflows for more than 32 bits |
| BitWriter.Writer.WriteUe | src/bit_writer.c:55-83 | adds the Exp-Golomb code of every 32-bit value |
| BitWriter.Writer.WriteSe | src/bit_writer.c:85-100 | adds the code of the signed mapping; overflows exactly for -2^31 |
| BitWriter.Writer.FinishRbsp | src/bit_writer.c:102-107 | adds rbsp_trailing_bits() or overflows, and ends on a byte boundary |
| BitWriter.Writer.Size | src/bit_writer.c:109-115 | the bytes the written bits take, none after an overflow |
| BitWriter.SetBit | src/bit_writer.c:34-36 | or-ing a shifted one into a byte sets exactly one bit of the bit string |
| H264Syntax.SpsParsesBack | src/h264_annexb.c:108-171 | parsing the sequence parameter set by section 7.3.2.1.1 of ITU-T H.264 returns profile_idc 66, 77 or 100, the constraint flags and the fields of the picture if and only if they are in range; pic_order_cnt_type 3 is accepted by the driver and is not |
| H264Syntax.PpsParsesBack | src/h264_annexb.c:173-224 | parsing the picture parameter set by section 7.3.2.2 of ITU-T H.264 returns its fields if and only if they are in range; the extension is read exactly when it was written, and the second chroma offset is right either way |
| H264Syntax.MoreDataExact | src/h264_annexb.c:206-219 | more_rbsp_data() of section 7.2 of ITU-T H.264 is true exactly when something stands before the trailing bits |
| H264AnnexB.ByteWriter.AppendBytes | src/h264_annexb.c:22-31 | appends exactly when the bytes fit and otherwise changes nothing |
| H264AnnexB.ByteWriter.AppendEscapedNal | src/h264_annexb.c:63-98 | appends the framed escaped unit, and fails exactly when it does not fit |
| H264AnnexB.AppendSps | src/h264_annexb.c:108-171 | appends the framed unit with header 0x67; refuses exactly unsupported pictures and full outputs; never overflows its 256 bytes |
| H264AnnexB.AppendPps | src/h264_annexb.c:173-224 | appends the framed unit with header 0x68; fails exactly when the output is full; never overflows its 256 bytes |
| H264AnnexB.SpsLength | src/h264_annexb.c:133-168 | the sequence parameter set takes at most 143 bits for every field value |
| H264AnnexB.PpsLength | src/h264_annexb.c:181-221 | the picture parameter set takes at most 115 bits for every field value |
| H264AccessUnit.AppendSlices | src/h264_annexb.c:235-281 | appends every slice behind its own or a new start code; which error comes back, if any, is exact |
| H264AccessUnit.BuildAccessUnit | src/h264_annexb.c:284-319 | the output and the result, error included, for every input |
| H264AccessUnit.DisjointFit | src/decode.c:419-440 | slices that do not overlap are together no longer than their buffer |
| H264AccessUnit.UnitLengths | src/h264_annexb.c:63-98 | both parameter sets, escaped and framed, take at most 58 bytes |
| H264AccessUnit.NeverOutOfRoom | src/decode.c:379-449 | with slices disjoint within each batch and at most 1009 of them the capacity suffices, and -ENOSPC is never returned |
| H264AccessUnit.DeliveredAccessUnit | src/h264_annexb.c:284-319 | splitting the access unit yields both parameter sets and the slices of the client, those before the last without trailing zeros |
| H264Received.ReceivedPicture | src/h264_annexb.c:226-319 | a decoder that takes in the access unit by NAL unit types holds exactly the VA fields in its two parameter sets if they are in range, and is given every slice of every buffer in order, without start codes |
| H264Received.BuiltExactly | src/h264_annexb.c:284-319 | when an access unit is built, and the error otherwise, told by the picture fields, slice offsets and sizes |
| H264Received.CompleteExactly | src/h264_annexb.c:235-281 | slices are taken whole exactly when each lies in its buffer and is not empty, and no buffer comes without slices |
| H264Received.CapacityIs | src/decode.c:419-440 | the reserved room is the data of all buffers and 4096 bytes |
| H264Collect.Collect | src/decode.c:379-449 | succeeds exactly when the buffers are one picture and parameters and data in turn, 1 to 64 times, and returns exactly these with the capacity; every other order is refused |
| H264Collect.OutOfTurn | src/decode.c:400-444 | a buffer of the wrong kind at its place spoils every reading of the buffers |
| H264Collect.DescribedOnce | src/decode.c:379-449 | pending buffers have at most one reading |
| H264Collect.BuildPicture | src/decode.c:760-781 | gathering, reserving and building: the access unit of the pending buffers, and never -ENOSPC when slices do not overlap and are at most 1009 |
| EncodeQueue.EncodeContext.QueueCodedBuffer | src/encode.c:657-694 | for any head the ring appends to the sequence of queued buffers; every error is exact |
| EncodeQueue.EncodeContext.RemoveQueueEntry | src/encode.c:696-715 | shifting removes one entry of the sequence and keeps the order of the rest |
| EncodeQueue.EncodeContext.RollbackCodedBuffer | src/encode.c:717-738 | takes the buffer off the end if it is the last one, and clears its frame |
| EncodeQueue.EncodeContext.StorePacket | src/encode.c:740-823 | stores in the first queued buffer with the tag, completes the frame on its final packet, counts the packet and notes its error flag, or notes that there was no room (`PacketReachesItsFrame` tells the fields) |
| EncodeQueue.EncodeContext.StoreInputDone | src/encode.c:831-858 | marks the input of the frame with the tag, and settles its surface |
| EncodeQueue.EncodeContext.EndPicture | src/encode.c:1439-1494 | takes a sequence number, queues the cleared buffer, links the surface, and takes all of it back when the hardware refuses |
| EncodeQueue.EncodeContext.DeliverRegion | src/objects.c:871-916 | one locked region of a client that waits for a buffer of this context: delivered, refused, or not its turn |
| EncodeQueue.WakeRegion | src/objects.c:897-912 | a client that wakes looks its buffer up again and takes its turn in the context the buffer belongs to now, by that delivery counter; other contexts stay as they are |
| EncodeQueue.EncodeContext.MapRegion | src/objects.c:938-957 | the first region: pump until complete, then try |
| EncodeQueue.EncodeContext.SyncSurface | src/encode.c:1558-1588 | pumps until the surface is no longer pending |
| EncodeQueue.SyncRegion | src/encode.c:1541-1588 | the context that pumps is the one of the buffer the surface waits for |
| EncodeQueue.EncodeContext.TakeEvent | src/v4l2_encoder.c:733-797 | hands a packet on unless it is empty, final or not |
| EncodeQueue.EncodeContext.BeginPicture | src/decode.c:308-321 | waits for the frame last taken from the surface |
| EncodeQueue.EncodeContext.DestroyBuffer | src/objects.c:1040-1060 | waits for the frame if its surface still waits for this buffer, unlinks the surface and frees the buffer |
| EncodeState.TagsIncrease | src/encode.c:1439-1443 | tags of frames at up to a million per second strictly increase until the 64-bit product wraps, and none is zero |
| EncodeState.TagWraps | src/encode.c:1439-1443 | the frame behind the wrap gets a smaller tag |
| EncodeState.TagTravels | src/v4l2_encoder.c:764-765 | the tag survives the trip through seconds and microseconds |
| EncodeInvariant.StorePacketIs | src/encode.c:740-823 | a packet is stored in a queued buffer that carries its tag, which then has its bytes, one more packet and its error flag, or finds no room in it, which then is overflowed and nothing else, or changes nothing |
| EncodeInvariant.FailedSubmit | src/encode.c:1487-1492 | a refused submission leaves the old queue minus entries completed meanwhile, the buffer without a frame, and the sequence number spent |
| EncodeInvariant.SubmitKeeps | src/encode.c:1439-1494 | a submission keeps the invariant of tags, routing, contents, order and pending flags |
| EncodeInvariant.HardwareKeeps | src/encode.c:740-858 | so does every hardware report |
| EncodeRuns.PacketReachesItsFrame | src/encode.c:757-782 | a packet of frame n is stored exactly when the buffer of frame n is queued and has room, and in that buffer alone; it is refused for room exactly when that buffer is queued without room |
| EncodeRuns.InputReachesItsFrame | src/encode.c:831-858 | consumed input of frame n is noted exactly when a buffer holds frame n, and in that buffer alone |
| EncodeRuns.SettlesExactly | src/encode.c:813-820 | the surface that waits for a frame is freed when the frame is complete on both sides, and no other surface |
| EncodeRuns.EventsCommute | src/encode.c:804-857 | the final packet and the consumed input of a frame end in the same state in either order |
| EncodeTables.FreesQueuedExactly | src/objects.c:1040-1060 | destroying a queued buffer frees it at once if and only if the surface it was filled from no longer waits for it |
| EncodeTables.DestroyKeeps | src/objects.c:1022-1062 | destroying a buffer keeps the invariant, be it queued or not |
| EncodeTables.CreateKeeps | src/objects.c:481-533 | so does creating one |
| EncodeTables.BeginKeeps | src/decode.c:308-316 | so does beginning a picture, and its surface is no longer pending |
| EncodeTables.ApartKeeps | src/encode.c:740-858 | so does anything another context may do to the tables, short of submitting a buffer in a slot that is still queued here |
| EncodeTables.DecodingApart | src/decode.c:323-331 | a decode context that takes the picture out of its target does such a thing |
| EncodeTables.CloseApart | src/decode.c:218-242 | so does the destruction of another context |
| EncodeRuns.RunKeeps | src/encode.c:657-858 | over every run of pictures, reports, waiting clients, created and destroyed buffers, queued ones included, and other contexts: each buffer holds exactly the packets of its frame within its capacity, the queue is in submission order, and a linked surface is pending exactly until both events came |
| EncodeRuns.DeadEntriesStay | src/encode.c:696-738 | a queue entry whose buffer was freed, or emptied by a refused submission, never leaves the queue again |
| EncodeRuns.BufferHoldsItsFrame | src/encode.c:774-797 | in every such run a buffer with a frame contains exactly the packets stored under the tag of that frame, in order, within its capacity, and counts them; it is damaged if and only if one had the error flag, and overflowed if and only if one found no room |
| EncodeRuns.PendingUntilBoth | src/encode.c:813-820 | in every such run the surface of a frame is pending if and only if the final packet has not been stored or the consumption of the input not been reported; the two flags of the buffer tell which |
| EncodeRuns.DeliveredInOrder | src/objects.c:883-912 | whatever clients, hardware and other contexts do, the k-th delivery hands out the buffer that the k-th submission was given, with that frame in it, and no frame is delivered twice |
| EncodeEffects.SubmittedExactly | src/encode.c:1323-1494 | when a submission passes, and the error otherwise: an own coded buffer, a ready surface, a queue below 64 without the buffer, the hardware; and every field of the buffer, the queue and the surface afterwards |
| EncodeEffects.RolledBackExactly | src/encode.c:717-738 | only the last entry is withdrawn; its buffer loses number and tag, and nothing else changes |
| EncodeEffects.NextSequenceIs | src/encode.c:1439-1441 | sequence numbers go up by one, and past the largest to one |
| EncodeEffects.TakenInOrder | src/v4l2_encoder.c:733-797 | reports are taken one by one in the order they come |
| EncodeEffects.RefusedExactly | src/encode.c:740-773 | no packet is handed on without bytes, none is stored under tag zero, and one without a queued buffer is refused; which error is exact |
| EncodeEffects.SyncedExactly | src/encode.c:1541-1588 | waiting for a surface passes if and only if the final packet of its frame and the consumption of its input have come by the end |
| EncodeEffects.BegunExactly | src/decode.c:308-334 | a picture is begun if and only if its surface is ready and both events of the frame last taken from it have come by the end; every error is exact |
| EncodeEffects.MappedExactly | src/objects.c:938-957 | mapping is busy if and only if the final packet has not come by the end; a complete frame is handed out when all before it were, and waits otherwise |
| EncodeEffects.WokenExactly | src/objects.c:871-916 | a waiting client is handed its frame once every frame before it was, waits as long as not, and is refused without one; the counter and that buffer alone change |
| EncodeEffects.GivesUpExactly | src/objects.c:883-903 | a client waits again 5000 times at most |
| EncodeEffects.CreatedExactly | src/objects.c:481-533 | a free slot becomes a buffer of the context without a frame; nothing else changes |
| EncodeEffects.DestroyedExactly | src/objects.c:1022-1062 | a buffer no surface waits for is destroyed at once, another if and only if both events of its frame have come by the end; its slot is free, no surface waits for it, and nothing else changes |
| EncodeEffects.ClosedExactly | src/decode.c:218-264 | destroying a context frees its buffers and its queue; its surfaces wait for nothing |
| EncodeCareful.CarefulRunFreesNone | src/objects.c:1040-1060 | when clients resubmit no queued buffer and share no surface between contexts, every queued frame has a pending surface that waits for it, and no queued buffer is ever freed |
| EncodeContexts.ContextsRunAlone | src/encode.c:657-858 | whatever the other contexts do over the same tables and clients, short of submitting a buffer in a slot that another context still queues, what happens to a context is a run of it alone |
| EncodeContexts.EveryContextKeeps | src/encode.c:657-858 | the invariant of every context holds throughout |
| EncodeContexts.EveryContextDelivers | src/objects.c:871-916 | every context delivers its frames in order, each once, to clients that began to wait in whatever context; and whole, with packet count, error flag and overflow, if no buffer is submitted under a client that waits for it |
| EncodeExamples.FreedWhileQueued | src/objects.c:1040-1060 | a concrete run in which a queued buffer is freed: resubmitted from another surface, then destroyed |
| EncodeExamples.StrayPacket | src/encode.c:757-773 | in that run, once another context submits a buffer in the freed slot, a packet of this context completes the frame of the other |
| EncodeDelivery.SubmitResubmits | src/encode.c:1439-1492 | a submission past the first checks takes a sequence number; it passes exactly when the queue has room and does not hold the buffer and the hardware takes the frame |
| EncodeDelivery.NextLosesExactly | src/encode.c:1439-1492 | a step loses frame n if and only if it is a submission that fails with number n, one given a buffer whose undelivered frame is n, or the destruction of such a buffer |
| EncodeDelivery.LostExactly | src/encode.c:1439-1492 | a frame is lost after a run if and only if a step of the run lost it |
| EncodeBlocked.ReportBlocksExactly | src/encode.c:780-802 | a report makes a frame impossible to complete if and only if it is its final packet, empty or too long for what is left of the buffer, or an earlier one that takes all that is left |
| EncodeBlocked.NextServed | src/objects.c:871-957 | the next frame is queued until complete; a client that maps it is served at once when it is complete, and otherwise, if the buffer has room, once the final packet has come |
| EncodeBlocked.NextFrameExactly | src/objects.c:871-957 | after every run, some client can be handed the next frame by mapping its buffer if and only if the frame is neither lost nor impossible to complete |
| EncodeDeliverable.NextKeepsDead | src/encode.c:780-802 | no step delivers a frame that is lost, or impossible to complete with no client waiting for its buffer |
| EncodeDeliverable.DeliverableExactly | src/objects.c:871-957 | a submitted frame can be delivered by some continuation if and only if neither it nor an undelivered one before it is lost, or impossible to complete with no client waiting for its buffer |
| EncodeExamples.OverflowBlocks | src/encode.c:784-788 | a concrete frame whose final packet is too long: nothing is lost, and no continuation delivers the frame |
| EncodeDelivery.LostBlocks | src/objects.c:884-900 | once a frame is lost, no continuation whatever delivers it or any behind it |
| EncodeDelivery.FailedSubmitLoses | src/encode.c:1439-1492 | a submission refused by the queue or the hardware loses its sequence number |
| EncodeDelivery.ResubmissionLosesFrame | src/encode.c:1445-1463 | submitting a buffer before its frame was delivered loses that frame; while it is queued the submission is refused, once it is complete it is accepted |
| EncodeWhole.DeliveredWhole | src/objects.c:871-916 | unless a submission reuses a buffer that a client of any context still waits for, while every frame can be delivered, the n-th delivery carries all packets of the n-th frame up to the final one and none comes later; it tells their number, whether one had the error flag and whether one found no room |
| EncodeWhole.RudeDeliversEarly | src/objects.c:883-912 | after every such submission the waiting client can be handed the new frame before it is complete |
| EncodeExamples.HandedOutEarly | src/objects.c:883-912 | a concrete run in which that happens |
| EncodeTakeover.TurnTakenOver | src/objects.c:897-912 | a concrete run in which a client of one context waits for a slot that another context reuses, and is handed the incomplete frame of the other |
| SurfaceCopy.CopyImage | src/objects.c:377-392 | clears the target and copies the luma and chroma rows, of zeros where source and target are one memory; nothing outside both buffers is touched |
| SurfaceCopy.Surface.CopyFrom | src/objects.c:333-404 | for sums that do not wrap: the exact outcome, error included, by sizes, stride, offset and room; on success the surface holds the rows in its own layout and zeros elsewhere, and only zeros when the source is its own memory |
| SurfaceCopy.Surface.CopyTo | src/objects.c:406-479 | the exact outcome, error included; on success the target holds the rows in its layout and zeros elsewhere, and only zeros when it is the surface itself |
| SurfaceCopy.ImageRows | src/objects.c:380-392 | every visible luma and chroma row of a copied image is the row of its source |
| SurfaceCopy.ImageElsewhere | src/objects.c:377-392 | every byte of a copied image that belongs to no visible row is zero |
| SurfaceCopy.CopyableExactly | src/objects.c:333-479 | what a copy asks, in products of rows, strides and sample sizes |
| SurfaceCopy.CopiedThrough | src/objects.c:333-479 | copying in and out again is copying once, for any two strides and any layout in between |
| SurfaceCopy.SurvivesExactly | src/objects.c:377-392 | a copy keeps the visible samples if and only if it is between two memories or all of them were zero |
| SurfaceCopy.InPlaceExample | src/objects.c:1332-1390 | a surface whose samples are lost by putting its own derived image into it |
| SurfaceCopy.RequiredExact | src/objects.c:358-373 | the size check is right if and only if the 64-bit sum does not wrap into the buffer |
| SurfaceCopy.WrapExample | src/objects.c:358-373 | an offset and stride for which it is wrong |
| SurfaceCopy.CallersDoNotWrap | src/objects.c:1381-1388 | no sum wraps for images in memory of their own or of a surface, nor for decoded frames of less than 2^31 rows |
| SurfaceCopy.LayoutDma | src/objects.c:150-177 | succeeds exactly when stride, rows and aligned size keep their limits; every creatable size does, and its visible samples fit without luma and chroma meeting |
| SurfaceCopy.HeapUsable | src/objects.c:638-648 | the fallback layout holds the visible samples |
| SurfaceCopy.HeapExactly | src/objects.c:638-650 | and has not a byte to spare |
| SurfaceCopy.Pack | src/v4l2_encoder.c:863-936 | succeeds exactly for layouts that fit, and fills the packed area with the rows and zeros, leaving the rest |
| SurfaceCopy.PackableExactly | src/v4l2_encoder.c:863-936 | when packing succeeds and how many bytes it fills, in products: chroma stands behind the scanlines and takes a multiple of 16 rows |
| SurfaceCopy.StoredThenPacked | src/v4l2_encoder.c:863-936 | packing a stored image is packing the image of the client directly |
| ObjectStore.FindExact | src/backend.c:152-220 | an id finds a slot if and only if it is the id of that used slot and kind |
| ObjectStore.DestroyContextKeeps | src/decode.c:218-242 | destroying a context leaves no buffer or surface referring to it |
| ObjectStore.DestroySurfacesKeeps | src/objects.c:732-770 | destroyed surfaces leave no image referring to them |
| ObjectStore.DestroyBufferKeeps | src/objects.c:1022-1062 | destroyed buffers leave no image referring to them (`CallDoes` tells that they are gone) |
| ObjectStore.CreateImageKeeps | src/objects.c:1121-1188 | a new image has a buffer of its own |
| ObjectStore.DestroyImageKeeps | src/objects.c:1247-1274 | an image goes with its unmapped buffer |
| ObjectStore.MapKeeps | src/objects.c:958-968 | mapping opens CPU access exactly for the first mapping of a derived image |
| ObjectStore.UnmapKeeps | src/objects.c:990-1000 | unmapping closes it exactly for the last |
| ObjectCalls.FindLooks | src/backend.c:152-220 | an id looks up exactly the object that stands under it in the table of its kind |
| ObjectCalls.CallDoes | src/objects.c:481-1274 | what each call answers, and what it does to every id: a destroyed object is found no more, a created one is found by the id returned, with the links it was given, and every other object is as it was |
| ObjectRuns.ReferencesNeverDangle | src/objects.c:732-1274 | after every run of calls every reference is to a live object, no two images share a buffer, and each surface has as many open CPU accesses as mapped images |
| ObjectRuns.FoundExactly | src/backend.c:152-220 | after every run of calls an id finds an object if and only if a call returned it and no later call ended it; kind and links are those the call gave it |
| ObjectRuns.MapsLessUnmaps | src/objects.c:918-1006 | after every run the map count of a buffer is the number of maps less the number of unmaps since it was made |
| ObjectRuns.ContextIsLast | src/decode.c:101-334 | after every run the context of a surface is the last one that a call attached it to, unless that was destroyed |
| Driver.Driver.CreateConfig | src/backend.c:528-546 | takes the first free slot, or fails when there is none |
| Driver.Driver.DestroyConfig | src/backend.c:552-580 | refuses exactly while a context uses the config |
| Driver.Driver.CreateContext | src/decode.c:101-216 | refuses missing configs and targets, and attaches every target |
| Driver.Driver.DestroyContext | src/decode.c:218-264 | removes the buffers of the context and detaches its surfaces |
| Driver.Driver.BeginPicture | src/decode.c:266-334 | attaches the target to the context |
| Driver.Driver.CreateSurfaces | src/objects.c:614-675 | creates all surfaces in the lowest free slots and returns their ids, or none, giving back those made before memory ran out |
| ObjectStore.EnoughFree | src/objects.c:614-620 | counting free slots tells exactly whether all surfaces find one |
| Driver.Driver.DestroySurfaces | src/objects.c:732-770 | destroys all of the surfaces or none |
| Driver.Driver.CreateBuffer | src/objects.c:772-806 | needs a live context and a free slot |
| Driver.Driver.DestroyBuffer | src/objects.c:1022-1062 | refuses mapped buffers and buffers of images, and frees the slot of any other |
| Driver.Driver.CreateImage | src/objects.c:1121-1188 | takes a buffer and an image slot and returns both ids, and gives the buffer back when no image slot is free |
| Driver.Driver.DeriveImage | src/objects.c:1215-1245 | an image over a live, ready surface, and the ids of image and buffer |
| Driver.Driver.DestroyImage | src/objects.c:1247-1274 | refuses exactly while the buffer of the image is mapped |
| Driver.Driver.MapBuffer | src/objects.c:918-974 | counts the mapping, opening CPU access for the first one of a derived image |
| Driver.Driver.UnmapBuffer | src/objects.c:976-1006 | counts back, closing CPU access with the last one |
| Driver.Driver.SurfaceForImageBuffer | src/objects.c:853-869 | finds the surface of the image derived into a buffer |

## Left out

- HevcAccessUnit.HevcBitstream: which error code a refused picture gets is exact for a missing slice, the random-access gate and the sample format only.
- HevcSets.SpsBack: the parsers give up on syntax the driver never writes (other chroma formats, cropping, predicted sets, long-term pictures in the sequence parameter set, VUI, extensions) instead of following it.
- HevcAccessUnit.HevcState.CacheSet: memory exhaustion between sending and remembering a set.
- HevcRewrite.RewriteSlice: which of its error codes a refused slice gets; the bits of a predicted short-term set and of the header tail behind the reference lists are carried without being parsed; the predicted set has the length VA gives.
- HevcSyntax: no cross-component, SCC or multilayer slice header syntax; those streams are refused by the driver or not offered by it.
- HevcRanges.PpsAcceptedExactly: the level limits of Annex A and the ranges of later profiles.
- HevcStream.StreamKeepsMeaning: pictures whose VA order count is not the one the client's own slices tell, or whose first slice no decoder can read.
- HevcRuns.BuildAccessUnit: null pointers and memory exhaustion, which return before the candidate state is used.
- H264Syntax.SpsParsesBack: the parser gives up on syntax the driver never writes (scaling lists, picture order count cycles, cropping, VUI, slice groups) instead of following it.
- H264AccessUnit.BuildAccessUnit: the contents of slices are opaque.
- H264Collect.Collect: a buffer that is gone, too small or of impossible size is one kind, `Broken`.
- EncodeState: the parameter checks of `venus_encode_end_picture_locked` before the sequence number is taken stand for themselves as a refused submission; errors of the pump itself are not told apart from a frame that is not complete.
- EncodeRuns.RunKeeps: the hardware reports no frame before it is given, and no other context submits a buffer in a slot that this one still queues; `StrayPacket` shows what happens then, and what follows from it is not traced further.
- EncodeWhole.DeliveredWhole: the hardware sends no packet of a frame behind its final one.
- EncodeContexts.ContextsRunAlone: all contexts are there from the start; opening and closing contexts during a run is left to `EncodeRuns.Elsewhere` steps (`EncodeTables.CloseApart`). A picture begun on a surface that waits for another context is that context's reports followed by the beginning of the picture (`EncodeQueue.SyncRegion`). A mapped buffer, which cannot be destroyed, stands for itself as a refused call.
- SurfaceCopy.Surface.CopyFrom: a chroma offset whose sum with the chroma size wraps, where the code would read beside its source (`WrapExample`), and source memory that overlaps the surface without being its own memory; no caller passes such (`CallersDoNotWrap`).
- SurfaceCopy.LayoutDma: allocation, mapping and cache synchronisation of the memory are kernel behaviour.
- Driver.Driver.CreateContext: profile, size and pixel format checks of config and targets; they only refuse more.
- Driver.Driver.DestroyBuffer: the wait for a pending frame of a coded buffer is in `EncodeQueue.EncodeContext.DestroyBuffer`.
- Driver.Driver.UnmapBuffer: the kernel always closes CPU access; when it fails, the access stays open.
- V4L2 queues, polling, DMA-BUF and GEM calls, file descriptors and device probing: kernel behaviour.
- Clocks, timeouts, environment variables and command-line style overrides: no deep property.
- Profile and attribute negotiation, capability bitmaps, level tables and stub entry points: easy members only.
- VP8 and VP9 frame collection, IVF headers, encoder controls and bitrate heuristics: short single-branch arithmetic.
