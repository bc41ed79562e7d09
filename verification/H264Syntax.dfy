/**
  Sequence and picture parameter sets: sections 7.3.2.1.1 and 7.3.2.2 of ITU-T H.264, without the branches
  the driver never writes (scaling lists, picture order count cycles, slice groups, cropping and VUI).
 */
module H264Syntax {
  import opened Bitstring
  import opened ExpGolomb
  import opened SyntaxElements
  import opened Wrappers

  const UE_ZEROS := 32

  /** The chroma syntax of the high profiles. */
  datatype Chroma = Chroma(formatIdc: nat, bitDepthLumaMinus8: nat, bitDepthChromaMinus8: nat)

  datatype Sps = Sps(
    profileIdc: nat, constraintFlags: nat, levelIdc: nat, id: nat, chroma: Option<Chroma>,
    log2MaxFrameNumMinus4: nat, pocType: nat, log2MaxPocLsbMinus4: Option<nat>,
    numRefFrames: nat, gapsAllowed: bool, widthInMbsMinus1: nat, heightInMapUnitsMinus1: nat,
    frameMbsOnly: bool, direct8x8: bool)

  datatype Pps = Pps(
    id: nat, spsId: nat, entropyCodingMode: bool, bottomFieldPicOrder: bool,
    numRefIdxL0Minus1: nat, numRefIdxL1Minus1: nat, weightedPred: bool, weightedBipredIdc: nat,
    picInitQpMinus26: int, picInitQsMinus26: int, chromaQpIndexOffset: int,
    deblockingControl: bool, constrainedIntra: bool, redundantPicCnt: bool, extension: Option<Extension>)
  {
    // transform_8x8_mode_flag and second_chroma_qp_index_offset are inferred when absent (section 7.4.2.2).
    function Transform8x8(): bool {
      extension.Some? && extension.value.transform8x8
    }

    function SecondChromaQpIndexOffset(): int {
      if extension.Some? then extension.value.secondOffset else chromaQpIndexOffset
    }
  }

  datatype Extension = Extension(transform8x8: bool, secondOffset: int)

  // ---------- Reading ----------

  // ue(v) of a syntax element with values up to max.
  function ReadUe(s: BitString, pos: nat, max: nat): Result<(nat, nat)> {
    var (v, q) :- DecodeUe(s, pos, UE_ZEROS);
    if v <= max then Success((v, q)) else Failure(Invalid)
  }

  function ReadSe(s: BitString, pos: nat, min: int, max: int): Result<(int, nat)> {
    var (k, q) :- DecodeUe(s, pos, UE_ZEROS);
    if min <= SeValue(k) <= max then Success((SeValue(k), q)) else Failure(Invalid)
  }

  // A flag that opens syntax not followed here.
  function ReadAbsent(s: BitString, pos: nat): Result<nat> {
    var (flag, q) :- DecodeFlag(s, pos);
    if flag then Failure(Unsupported) else Success(q)
  }

  predicate HighProfile(profileIdc: nat) {
    profileIdc in {100, 110, 122, 244, 44, 83, 86, 118, 128, 138, 139, 134, 135}
  }

  function ReadChroma(s: BitString, pos: nat, profileIdc: nat): Result<(Option<Chroma>, nat)> {
    if !HighProfile(profileIdc) then Success((None, pos))
    else
      var (formatIdc, p0) :- ReadUe(s, pos, 3);
      if formatIdc == 3 then Failure(Unsupported)
      else
        var (luma, p1) :- ReadUe(s, p0, 6);
        var (chroma, p2) :- ReadUe(s, p1, 6);
        var (bypass, p3) :- DecodeFlag(s, p2);
        var q :- ReadAbsent(s, p3);
        if bypass then Failure(Unsupported) else Success((Some(Chroma(formatIdc, luma, chroma)), q))
  }

  datatype Order = Order(log2MaxFrameNumMinus4: nat, pocType: nat, log2MaxPocLsbMinus4: Option<nat>)

  function ReadOrder(s: BitString, pos: nat): Result<(Order, nat)> {
    var (frameNum, p0) :- ReadUe(s, pos, 12);
    var (pocType, p1) :- ReadUe(s, p0, 2);
    if pocType == 1 then Failure(Unsupported)
    else if pocType == 2 then Success((Order(frameNum, 2, None), p1))
    else
      var (lsb, q) :- ReadUe(s, p1, 12);
      Success((Order(frameNum, 0, Some(lsb)), q))
  }

  datatype Frame = Frame(
    numRefFrames: nat, gapsAllowed: bool, widthInMbsMinus1: nat, heightInMapUnitsMinus1: nat, direct8x8: bool)

  // From max_num_ref_frames on, for sequences of frames only.
  function ReadFrame(s: BitString, pos: nat): Result<(Frame, nat)> {
    var (numRefFrames, p0) :- ReadUe(s, pos, 16);
    var (gaps, p1) :- DecodeFlag(s, p0);
    var (width, p2) :- ReadUe(s, p1, 0xffff);
    var (height, p3) :- ReadUe(s, p2, 0xffff);
    var (frameMbsOnly, p4) :- DecodeFlag(s, p3);
    if !frameMbsOnly then Failure(Unsupported)
    else
      var (direct8x8, p5) :- DecodeFlag(s, p4);
      var p6 :- ReadAbsent(s, p5);
      var q :- ReadAbsent(s, p6);
      Success((Frame(numRefFrames, gaps, width, height, direct8x8), q))
  }

  // rbsp_trailing_bits() fills the string from pos on.
  predicate Trailing(s: BitString, pos: nat) {
    pos <= |s| && s[pos..] == AlignmentBits(pos)
  }

  function ParseSps(s: BitString): Result<Sps> {
    var (profileIdc, p0) :- DecodeFixed(s, 0, 8);
    var (flags, p1) :- DecodeFixed(s, p0, 8);
    var (level, p2) :- DecodeFixed(s, p1, 8);
    var (id, p3) :- ReadUe(s, p2, 31);
    var (chroma, p4) :- ReadChroma(s, p3, profileIdc);
    var (order, p5) :- ReadOrder(s, p4);
    var (frame, q) :- ReadFrame(s, p5);
    if Trailing(s, q) then
      Success(Sps(profileIdc, flags, level, id, chroma,
                  order.log2MaxFrameNumMinus4, order.pocType, order.log2MaxPocLsbMinus4,
                  frame.numRefFrames, frame.gapsAllowed, frame.widthInMbsMinus1, frame.heightInMapUnitsMinus1,
                  true, frame.direct8x8))
    else Failure(Invalid)
  }

  // The position of the last one bit.
  function LastOne(s: BitString): (r: Option<nat>)
    ensures r.Some? ==> r.value < |s|
  {
    if s == [] then None else if s[|s| - 1] then Some(|s| - 1) else LastOne(s[..|s| - 1])
  }

  // more_rbsp_data() of section 7.2: something stands between pos and the last one bit.
  predicate MoreRbspData(s: BitString, pos: nat) {
    LastOne(s).Some? && pos < LastOne(s).value
  }

  datatype Opening = Opening(id: nat, spsId: nat, entropyCodingMode: bool, bottomFieldPicOrder: bool,
                             numRefIdxL0Minus1: nat, numRefIdxL1Minus1: nat)

  function ReadOpening(s: BitString, pos: nat): Result<(Opening, nat)> {
    var (id, p0) :- ReadUe(s, pos, 255);
    var (spsId, p1) :- ReadUe(s, p0, 31);
    var (entropy, p2) :- DecodeFlag(s, p1);
    var (order, p3) :- DecodeFlag(s, p2);
    var (groups, p4) :- ReadUe(s, p3, 7);
    if groups > 0 then Failure(Unsupported)
    else
      var (l0, p5) :- ReadUe(s, p4, 31);
      var (l1, q) :- ReadUe(s, p5, 31);
      Success((Opening(id, spsId, entropy, order, l0, l1), q))
  }

  datatype Coding = Coding(
    weightedPred: bool, weightedBipredIdc: nat, picInitQpMinus26: int, picInitQsMinus26: int,
    chromaQpIndexOffset: int, deblockingControl: bool, constrainedIntra: bool, redundantPicCnt: bool)

  function ReadCoding(s: BitString, pos: nat): Result<(Coding, nat)> {
    var (weightedPred, p0) :- DecodeFlag(s, pos);
    var (bipred, p1) :- DecodeFixed(s, p0, 2);
    if bipred > 2 then Failure(Invalid)
    else
      var (qp, p2) :- ReadSe(s, p1, -26, 25);
      var (qs, p3) :- ReadSe(s, p2, -26, 25);
      var (offset, p4) :- ReadSe(s, p3, -12, 12);
      var (deblocking, p5) :- DecodeFlag(s, p4);
      var (constrained, p6) :- DecodeFlag(s, p5);
      var (redundant, q) :- DecodeFlag(s, p6);
      Success((Coding(weightedPred, bipred, qp, qs, offset, deblocking, constrained, redundant), q))
  }

  function ReadExtension(s: BitString, pos: nat): Result<(Option<Extension>, nat)> {
    if !MoreRbspData(s, pos) then Success((None, pos))
    else
      var (transform8x8, p0) :- DecodeFlag(s, pos);
      var p1 :- ReadAbsent(s, p0);
      var (offset, q) :- ReadSe(s, p1, -12, 12);
      Success((Some(Extension(transform8x8, offset)), q))
  }

  function ParsePps(s: BitString): Result<Pps> {
    var (opening, p0) :- ReadOpening(s, 0);
    var (coding, p1) :- ReadCoding(s, p0);
    var (extension, q) :- ReadExtension(s, p1);
    if Trailing(s, q) then
      Success(Pps(opening.id, opening.spsId, opening.entropyCodingMode, opening.bottomFieldPicOrder,
                  opening.numRefIdxL0Minus1, opening.numRefIdxL1Minus1,
                  coding.weightedPred, coding.weightedBipredIdc, coding.picInitQpMinus26, coding.picInitQsMinus26,
                  coding.chromaQpIndexOffset, coding.deblockingControl, coding.constrainedIntra,
                  coding.redundantPicCnt, extension))
    else Failure(Invalid)
  }

  // ---------- What the driver prints ----------

  function PrintChroma(x: Option<Chroma>): BitString {
    if x.None? then []
    else UeCode(x.value.formatIdc) + UeCode(x.value.bitDepthLumaMinus8) + UeCode(x.value.bitDepthChromaMinus8) +
         [false] + [false]
  }

  function PrintOrder(x: Order): BitString {
    UeCode(x.log2MaxFrameNumMinus4) + UeCode(x.pocType) +
    if x.log2MaxPocLsbMinus4.Some? then UeCode(x.log2MaxPocLsbMinus4.value) else []
  }

  function PrintFrame(x: Frame): BitString {
    UeCode(x.numRefFrames) + [x.gapsAllowed] + UeCode(x.widthInMbsMinus1) + UeCode(x.heightInMapUnitsMinus1) +
    [true] + [x.direct8x8] + [false] + [false]
  }

  function PrintOpening(x: Opening): BitString {
    UeCode(x.id) + UeCode(x.spsId) + [x.entropyCodingMode] + [x.bottomFieldPicOrder] + UeCode(0) +
    UeCode(x.numRefIdxL0Minus1) + UeCode(x.numRefIdxL1Minus1)
  }

  function PrintCoding(x: Coding): BitString {
    [x.weightedPred] + FixedBits(x.weightedBipredIdc, 2) + SeCode(x.picInitQpMinus26) + SeCode(x.picInitQsMinus26) +
    SeCode(x.chromaQpIndexOffset) + [x.deblockingControl] + [x.constrainedIntra] + [x.redundantPicCnt]
  }

  function PrintExtension(x: Option<Extension>): BitString {
    if x.None? then [] else [x.value.transform8x8] + [false] + SeCode(x.value.secondOffset)
  }

  // ---------- Each reader on what is printed ----------

  lemma UeRead(s: BitString, pos: nat, v: nat, q: nat, max: nat)
    requires v <= 0xffff && Reads(s, pos, UeCode(v), q)
    ensures ReadUe(s, pos, max) == if v <= max then Success((v, q)) else Failure(Invalid)
  {
    hide UeCode, DecodeUe;
    CodeLength(v);
    DecodeUeExact(s, pos, UE_ZEROS, v, q);
  }

  lemma SeRead(s: BitString, pos: nat, v: int, q: nat, min: int, max: int)
    requires -128 <= v < 128 && Reads(s, pos, SeCode(v), q)
    ensures ReadSe(s, pos, min, max) == if min <= v <= max then Success((v, q)) else Failure(Invalid)
  {
    hide UeCode, DecodeUe;
    CodeLength(SeCodeNum(v));
    SignedMappingInverts(v, 0);
    DecodeUeExact(s, pos, UE_ZEROS, SeCodeNum(v), q);
  }

  lemma AbsentRead(s: BitString, pos: nat)
    requires Reads(s, pos, [false], pos + 1)
    ensures ReadAbsent(s, pos) == Success(pos + 1)
  {
    FlagExact(s, pos, false, pos + 1);
  }

  // The codes the driver writes are at most 33 bits long.
  lemma CodeLength(v: nat)
    requires v <= 0xffff
    ensures Log2(v + 1) <= 16 && |UeCode(v)| == 2 * Log2(v + 1) + 1 <= 33
  {
    Log2Bounds(v + 1);
    Pow2Values();
    assert Pow2(17) == 0x2_0000;
    if Log2(v + 1) > 16 {
      Pow2Monotonic(17, Log2(v + 1));
    }
  }

  lemma ChromaRead(s: BitString, pos: nat, profileIdc: nat, x: Option<Chroma>, q: nat)
    requires x.Some? == HighProfile(profileIdc)
    requires x.Some? ==>
      x.value.formatIdc <= 2 && x.value.bitDepthLumaMinus8 <= 6 && x.value.bitDepthChromaMinus8 <= 6
    requires Reads(s, pos, PrintChroma(x), q)
    ensures ReadChroma(s, pos, profileIdc) == Success((x, q))
  {
    hide UeCode, ReadUe, ReadAbsent, At, DecodeFlag, HighProfile;
    if x.Some? {
      var a, b, c := UeCode(x.value.formatIdc), UeCode(x.value.bitDepthLumaMinus8),
        UeCode(x.value.bitDepthChromaMinus8);
      ReadsConcat(s, pos, a + b + c + [false], [false], q);
      ReadsConcat(s, pos, a + b + c, [false], q - 1);
      ReadsConcat(s, pos, a + b, c, q - 2);
      ReadsConcat(s, pos, a, b, pos + |a + b|);
      UeRead(s, pos, x.value.formatIdc, pos + |a|, 3);
      UeRead(s, pos + |a|, x.value.bitDepthLumaMinus8, pos + |a + b|, 6);
      UeRead(s, pos + |a + b|, x.value.bitDepthChromaMinus8, q - 2, 6);
      FlagExact(s, q - 2, false, q - 1);
      AbsentRead(s, q - 1);
    }
  }

  predicate OrderInRange(x: Order) {
    && x.log2MaxFrameNumMinus4 <= 12 && x.pocType <= 2
    && (x.log2MaxPocLsbMinus4.Some? ==> x.log2MaxPocLsbMinus4.value <= 12)
  }

  lemma OrderRead(s: BitString, pos: nat, x: Order, q: nat)
    requires x.log2MaxFrameNumMinus4 < 16 && x.pocType in {0, 2, 3}
    requires x.log2MaxPocLsbMinus4.Some? == (x.pocType == 0)
    requires x.log2MaxPocLsbMinus4.Some? ==> x.log2MaxPocLsbMinus4.value < 16
    requires Reads(s, pos, PrintOrder(x), q)
    ensures ReadOrder(s, pos) == if OrderInRange(x) then Success((x, q)) else Failure(Invalid)
  {
    hide UeCode, ReadUe, At;
    var a, b := UeCode(x.log2MaxFrameNumMinus4), UeCode(x.pocType);
    var c := if x.log2MaxPocLsbMinus4.Some? then UeCode(x.log2MaxPocLsbMinus4.value) else [];
    ReadsConcat(s, pos, a + b, c, q);
    ReadsConcat(s, pos, a, b, pos + |a + b|);
    UeRead(s, pos, x.log2MaxFrameNumMinus4, pos + |a|, 12);
    UeRead(s, pos + |a|, x.pocType, pos + |a + b|, 2);
    if x.pocType == 0 {
      UeRead(s, pos + |a + b|, x.log2MaxPocLsbMinus4.value, q, 12);
    }
  }

  lemma FrameRead(s: BitString, pos: nat, x: Frame, q: nat)
    requires x.numRefFrames < 256 && x.widthInMbsMinus1 <= 0xffff && x.heightInMapUnitsMinus1 <= 0xffff
    requires Reads(s, pos, PrintFrame(x), q)
    ensures ReadFrame(s, pos) == if x.numRefFrames <= 16 then Success((x, q)) else Failure(Invalid)
  {
    hide UeCode, ReadUe, At, DecodeFlag, ReadAbsent;
    var a, b, c := UeCode(x.numRefFrames), UeCode(x.widthInMbsMinus1), UeCode(x.heightInMapUnitsMinus1);
    var sizes := a + [x.gapsAllowed] + b + c;
    ReadsConcat(s, pos, sizes + [true] + [x.direct8x8] + [false], [false], q);
    ReadsConcat(s, pos, sizes + [true] + [x.direct8x8], [false], q - 1);
    ReadsConcat(s, pos, sizes + [true], [x.direct8x8], q - 2);
    ReadsConcat(s, pos, sizes, [true], q - 3);
    ReadsConcat(s, pos, a + [x.gapsAllowed] + b, c, q - 4);
    ReadsConcat(s, pos, a + [x.gapsAllowed], b, q - 4 - |c|);
    ReadsConcat(s, pos, a, [x.gapsAllowed], pos + |a| + 1);
    UeRead(s, pos, x.numRefFrames, pos + |a|, 16);
    FlagExact(s, pos + |a|, x.gapsAllowed, pos + |a| + 1);
    UeRead(s, pos + |a| + 1, x.widthInMbsMinus1, q - 4 - |c|, 0xffff);
    UeRead(s, q - 4 - |c|, x.heightInMapUnitsMinus1, q - 4, 0xffff);
    FlagExact(s, q - 4, true, q - 3);
    FlagExact(s, q - 3, x.direct8x8, q - 2);
    AbsentRead(s, q - 2);
    AbsentRead(s, q - 1);
  }

  lemma OpeningRead(s: BitString, pos: nat, x: Opening, q: nat)
    requires x.id <= 255 && x.spsId <= 31 && x.numRefIdxL0Minus1 < 256 && x.numRefIdxL1Minus1 < 256
    requires Reads(s, pos, PrintOpening(x), q)
    ensures ReadOpening(s, pos) ==
      if x.numRefIdxL0Minus1 <= 31 && x.numRefIdxL1Minus1 <= 31 then Success((x, q)) else Failure(Invalid)
  {
    hide UeCode, ReadUe, At, DecodeFlag;
    var a, b, z, c, d := UeCode(x.id), UeCode(x.spsId), UeCode(0), UeCode(x.numRefIdxL0Minus1),
      UeCode(x.numRefIdxL1Minus1);
    var ids := a + b + [x.entropyCodingMode] + [x.bottomFieldPicOrder];
    var e := pos + |ids|;
    ReadsConcat(s, pos, ids + z + c, d, q);
    ReadsConcat(s, pos, ids + z, c, q - |d|);
    ReadsConcat(s, pos, ids, z, e + |z|);
    ReadsConcat(s, pos, a + b + [x.entropyCodingMode], [x.bottomFieldPicOrder], e);
    ReadsConcat(s, pos, a + b, [x.entropyCodingMode], e - 1);
    ReadsConcat(s, pos, a, b, e - 2);
    UeRead(s, pos, x.id, pos + |a|, 255);
    UeRead(s, pos + |a|, x.spsId, e - 2, 31);
    FlagExact(s, e - 2, x.entropyCodingMode, e - 1);
    FlagExact(s, e - 1, x.bottomFieldPicOrder, e);
    UeRead(s, e, 0, e + |z|, 7);
    UeRead(s, e + |z|, x.numRefIdxL0Minus1, q - |d|, 31);
    UeRead(s, q - |d|, x.numRefIdxL1Minus1, q, 31);
  }

  predicate CodingInRange(x: Coding) {
    && x.weightedBipredIdc <= 2
    && -26 <= x.picInitQpMinus26 <= 25 && -26 <= x.picInitQsMinus26 <= 25
    && -12 <= x.chromaQpIndexOffset <= 12
  }

  lemma CodingRead(s: BitString, pos: nat, x: Coding, q: nat)
    requires x.weightedBipredIdc < 4
    requires -128 <= x.picInitQpMinus26 < 128 && -128 <= x.picInitQsMinus26 < 128 && -128 <= x.chromaQpIndexOffset < 128
    requires Reads(s, pos, PrintCoding(x), q)
    ensures ReadCoding(s, pos) == if CodingInRange(x) then Success((x, q)) else Failure(Invalid)
  {
    hide SeCode, ReadSe, At, DecodeFlag, DecodeFixed, FixedBits;
    var a, b, c, d := FixedBits(x.weightedBipredIdc, 2), SeCode(x.picInitQpMinus26), SeCode(x.picInitQsMinus26),
      SeCode(x.chromaQpIndexOffset);
    var quants := [x.weightedPred] + a + b + c + d;
    ReadsConcat(s, pos, quants + [x.deblockingControl] + [x.constrainedIntra], [x.redundantPicCnt], q);
    ReadsConcat(s, pos, quants + [x.deblockingControl], [x.constrainedIntra], q - 1);
    ReadsConcat(s, pos, quants, [x.deblockingControl], q - 2);
    ReadsConcat(s, pos, [x.weightedPred] + a + b + c, d, q - 3);
    ReadsConcat(s, pos, [x.weightedPred] + a + b, c, q - 3 - |d|);
    ReadsConcat(s, pos, [x.weightedPred] + a, b, pos + 3 + |b|);
    ReadsConcat(s, pos, [x.weightedPred], a, pos + 3);
    FlagExact(s, pos, x.weightedPred, pos + 1);
    assert Pow2(2) == 4;
    FixedExact(s, pos + 1, 2, x.weightedBipredIdc, pos + 3);
    SeRead(s, pos + 3, x.picInitQpMinus26, pos + 3 + |b|, -26, 25);
    SeRead(s, pos + 3 + |b|, x.picInitQsMinus26, q - 3 - |d|, -26, 25);
    SeRead(s, q - 3 - |d|, x.chromaQpIndexOffset, q - 3, -12, 12);
    FlagExact(s, q - 3, x.deblockingControl, q - 2);
    FlagExact(s, q - 2, x.constrainedIntra, q - 1);
    FlagExact(s, q - 1, x.redundantPicCnt, q);
  }

  lemma ExtensionRead(s: BitString, pos: nat, x: Option<Extension>, q: nat)
    requires x.Some? == MoreRbspData(s, pos)
    requires x.Some? ==> -128 <= x.value.secondOffset < 128
    requires Reads(s, pos, PrintExtension(x), q)
    ensures ReadExtension(s, pos) ==
      if x.Some? ==> -12 <= x.value.secondOffset <= 12 then Success((x, q)) else Failure(Invalid)
  {
    hide SeCode, ReadSe, At, DecodeFlag, ReadAbsent, MoreRbspData;
    if x.Some? {
      var a := SeCode(x.value.secondOffset);
      ReadsConcat(s, pos, [x.value.transform8x8] + [false], a, q);
      ReadsConcat(s, pos, [x.value.transform8x8], [false], pos + 2);
      FlagExact(s, pos, x.value.transform8x8, pos + 1);
      AbsentRead(s, pos + 1);
      SeRead(s, pos + 2, x.value.secondOffset, q, -12, 12);
    }
  }

  // ---------- more_rbsp_data() ----------

  lemma {:induction false} LastOneIs(s: BitString, pos: nat, n: nat)
    requires pos + 1 + n == |s| && s[pos]
    requires forall k :: pos < k < |s| ==> !s[k]
    ensures LastOne(s) == Some(pos)
  {
    if n > 0 {
      LastOneIs(s[..|s| - 1], pos, n - 1);
    }
  }

  // Before rbsp_trailing_bits() there is more data exactly when something was written.
  lemma MoreDataExact(x: BitString, y: BitString)
    ensures MoreRbspData(x + y + AlignmentBits(|x + y|), |x|) <==> y != []
    ensures Trailing(x + y + AlignmentBits(|x + y|), |x + y|)
  {
    var s := x + y + AlignmentBits(|x + y|);
    LastOneIs(s, |x + y|, 7 - |x + y| % 8);
  }

  // ---------- The parameter sets of a picture ----------

  datatype Profile = ConstrainedBaseline | Main | High
  {
    function Idc(): nat {
      match this
      case ConstrainedBaseline => 66
      case Main => 77
      case High => 100
    }

    function ConstraintFlags(): nat {
      match this
      case ConstrainedBaseline => 0xc0
      case Main => 0x40
      case High => 0
    }
  }

  /** The fields of VAPictureParameterBufferH264 that the parameter sets are built from. */
  datatype Picture = Picture(
    widthInMbsMinus1: uint16, heightInMbsMinus1: uint16, bitDepthLumaMinus8: uint8, bitDepthChromaMinus8: uint8,
    numRefFrames: uint8, numSliceGroupsMinus1: uint8,
    chromaFormatIdc: nat, gapsAllowed: bool, frameMbsOnly: bool, direct8x8: bool,
    log2MaxFrameNumMinus4: nat, pocType: nat, log2MaxPocLsbMinus4: nat,
    picInitQpMinus26: int8, picInitQsMinus26: int8, chromaQpIndexOffset: int8, secondChromaQpIndexOffset: int8,
    entropyCodingMode: bool, weightedPred: bool, weightedBipredIdc: nat, transform8x8: bool,
    constrainedIntra: bool, picOrderPresent: bool, deblockingControl: bool, redundantPicCnt: bool)
  {
    // The widths of the bit fields.
    predicate WellFormed() {
      && chromaFormatIdc < 4 && log2MaxFrameNumMinus4 < 16 && pocType < 4 && log2MaxPocLsbMinus4 < 16
      && weightedBipredIdc < 4
    }

    // What append_sps accepts.
    predicate Supported() {
      && bitDepthLumaMinus8 == 0 && bitDepthChromaMinus8 == 0 && chromaFormatIdc == 1
      && frameMbsOnly && numSliceGroupsMinus1 == 0 && pocType != 1
    }

    function ChromaOf(profile: Profile): Option<Chroma> {
      if profile == High then Some(Chroma(chromaFormatIdc, bitDepthLumaMinus8, bitDepthChromaMinus8)) else None
    }

    function OrderOf(): Order {
      Order(log2MaxFrameNumMinus4, pocType, if pocType == 0 then Some(log2MaxPocLsbMinus4) else None)
    }

    function FrameOf(): Frame {
      Frame(numRefFrames, gapsAllowed, widthInMbsMinus1, heightInMbsMinus1, direct8x8)
    }

    function CodingOf(): Coding {
      Coding(weightedPred, weightedBipredIdc, picInitQpMinus26, picInitQsMinus26, chromaQpIndexOffset,
             deblockingControl, constrainedIntra, redundantPicCnt)
    }

    predicate Extended() {
      transform8x8 || secondChromaQpIndexOffset != chromaQpIndexOffset
    }

    function ExtensionOf(): Option<Extension> {
      if Extended() then Some(Extension(transform8x8, secondChromaQpIndexOffset)) else None
    }

    // The value ranges of sections 7.4.2.1.1 and 7.4.2.2 for what the picture supplies.
    predicate SpsInRange() {
      && pocType <= 2 && log2MaxFrameNumMinus4 <= 12 && (pocType == 0 ==> log2MaxPocLsbMinus4 <= 12)
      && numRefFrames <= 16
    }

    predicate PpsInRange(numRefIdxL0Minus1: uint8, numRefIdxL1Minus1: uint8) {
      && numRefIdxL0Minus1 <= 31 && numRefIdxL1Minus1 <= 31
      && CodingInRange(CodingOf())
      && -12 <= secondChromaQpIndexOffset <= 12
    }
  }

  function OpeningOf(p: Picture, numRefIdxL0Minus1: uint8, numRefIdxL1Minus1: uint8): Opening {
    Opening(0, 0, p.entropyCodingMode, p.picOrderPresent, numRefIdxL0Minus1, numRefIdxL1Minus1)
  }

  function SpsPrefix(profile: Profile): BitString {
    FixedBits(profile.Idc(), 8) + FixedBits(profile.ConstraintFlags(), 8) + FixedBits(41, 8) + UeCode(0)
  }

  function SpsBits(profile: Profile, p: Picture): BitString {
    SpsPrefix(profile) + PrintChroma(p.ChromaOf(profile)) + PrintOrder(p.OrderOf()) + PrintFrame(p.FrameOf())
  }

  function PpsBits(p: Picture, numRefIdxL0Minus1: uint8, numRefIdxL1Minus1: uint8): BitString {
    PrintOpening(OpeningOf(p, numRefIdxL0Minus1, numRefIdxL1Minus1)) + PrintCoding(p.CodingOf()) +
    PrintExtension(p.ExtensionOf())
  }

  lemma PrefixRead(s: BitString, profile: Profile, q: nat)
    requires Reads(s, 0, SpsPrefix(profile), q)
    ensures DecodeFixed(s, 0, 8) == Success((profile.Idc(), 8))
    ensures DecodeFixed(s, 8, 8) == Success((profile.ConstraintFlags(), 16))
    ensures DecodeFixed(s, 16, 8) == Success((41, 24))
    ensures ReadUe(s, 24, 31) == Success((0, q))
  {
    hide UeCode, FixedBits, DecodeFixed, ReadUe, At, Pow2;
    var a, b, c := FixedBits(profile.Idc(), 8), FixedBits(profile.ConstraintFlags(), 8), FixedBits(41, 8);
    Pow2Values();
    ReadsConcat(s, 0, a + b + c, UeCode(0), q);
    ReadsConcat(s, 0, a + b, c, 24);
    ReadsConcat(s, 0, a, b, 16);
    FixedExact(s, 0, 8, profile.Idc(), 8);
    FixedExact(s, 8, 8, profile.ConstraintFlags(), 16);
    FixedExact(s, 16, 8, 41, 24);
    UeRead(s, 24, 0, q, 31);
  }

  // Parsing the printed sequence parameter set returns the fields of the picture exactly when they are
  // in the ranges the standard allows; pic_order_cnt_type 3 is accepted by the driver and is not.
  lemma SpsParsesBack(profile: Profile, p: Picture)
    requires p.WellFormed() && p.Supported()
    ensures
      ParseSps(SpsBits(profile, p) + AlignmentBits(|SpsBits(profile, p)|)) ==
      if p.SpsInRange() then
        Success(Sps(
          if profile == High then 100 else if profile == Main then 77 else 66,
          if profile == High then 0 else if profile == Main then 0x40 else 0xc0, 41, 0,
          if profile == High then Some(Chroma(1, 0, 0)) else None,
          p.log2MaxFrameNumMinus4, p.pocType, if p.pocType == 0 then Some(p.log2MaxPocLsbMinus4) else None,
          p.numRefFrames, p.gapsAllowed, p.widthInMbsMinus1, p.heightInMbsMinus1, true, p.direct8x8))
      else Failure(Invalid)
  {
    hide SpsPrefix, PrintChroma, PrintOrder, PrintFrame, ReadUe, ReadChroma, ReadOrder, ReadFrame, DecodeFixed,
      Trailing, AlignmentBits, At;
    var a, b, c, d := SpsPrefix(profile), PrintChroma(p.ChromaOf(profile)), PrintOrder(p.OrderOf()),
      PrintFrame(p.FrameOf());
    var x := SpsBits(profile, p);
    var s := x + AlignmentBits(|x|);
    ReadsPrefix(x, AlignmentBits(|x|));
    ReadsConcat(s, 0, a + b + c, d, |x|);
    ReadsConcat(s, 0, a + b, c, |a + b + c|);
    ReadsConcat(s, 0, a, b, |a + b|);
    PrefixRead(s, profile, |a|);
    ChromaRead(s, |a|, profile.Idc(), p.ChromaOf(profile), |a + b|);
    OrderRead(s, |a + b|, p.OrderOf(), |a + b + c|);
    FrameRead(s, |a + b + c|, p.FrameOf(), |x|);
    TrailingThere(x);
  }

  lemma TrailingThere(x: BitString)
    ensures Trailing(x + AlignmentBits(|x|), |x|)
  {
  }

  // Parsing the printed picture parameter set: the extension is read exactly when it was written, and
  // either way the transform flag and the second chroma offset are the picture's.
  lemma PpsParsesBack(p: Picture, l0: uint8, l1: uint8)
    requires p.WellFormed()
    ensures
      var x := PpsBits(p, l0, l1);
      var parsed := ParsePps(x + AlignmentBits(|x|));
      && (parsed.Success? <==> p.PpsInRange(l0, l1))
      && (parsed.Success? ==>
            && parsed.value == Pps(
                 0, 0, p.entropyCodingMode, p.picOrderPresent, l0, l1, p.weightedPred, p.weightedBipredIdc,
                 p.picInitQpMinus26, p.picInitQsMinus26, p.chromaQpIndexOffset, p.deblockingControl,
                 p.constrainedIntra, p.redundantPicCnt, parsed.value.extension)
            && parsed.value.Transform8x8() == p.transform8x8
            && parsed.value.SecondChromaQpIndexOffset() == p.secondChromaQpIndexOffset
            && (parsed.value.extension.Some? <==>
                p.transform8x8 || p.secondChromaQpIndexOffset != p.chromaQpIndexOffset))
  {
    hide PrintOpening, PrintCoding, PrintExtension, ReadOpening, ReadCoding, ReadExtension, Trailing, AlignmentBits,
      MoreRbspData, At;
    var a, b, c := PrintOpening(OpeningOf(p, l0, l1)), PrintCoding(p.CodingOf()), PrintExtension(p.ExtensionOf());
    var x := PpsBits(p, l0, l1);
    var s := x + AlignmentBits(|x|);
    ReadsPrefix(x, AlignmentBits(|x|));
    ReadsConcat(s, 0, a + b, c, |x|);
    ReadsConcat(s, 0, a, b, |a + b|);
    OpeningRead(s, 0, OpeningOf(p, l0, l1), |a|);
    CodingRead(s, |a|, p.CodingOf(), |a + b|);
    MoreDataExact(a + b, c);
    ExtensionWritten(p.ExtensionOf());
    ExtensionRead(s, |a + b|, p.ExtensionOf(), |x|);
    TrailingThere(x);
  }

  lemma ExtensionWritten(x: Option<Extension>)
    ensures PrintExtension(x) != [] <==> x.Some?
  {
  }
}
