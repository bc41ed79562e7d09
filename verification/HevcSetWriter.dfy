/** The parameter sets hevc_bitstream of src/hevc_annexb.cpp prints, and what a decoder reads from them. */
module HevcSetWriter {
  import opened Bitstring
  import opened ExpGolomb
  import opened HevcBits
  import opened HevcDecoder
  import opened HevcElements
  import opened HevcPicture
  import opened HevcReferences
  import opened HevcRewrite
  import opened HevcScaling
  import opened HevcSets
  import opened HevcSyntax
  import opened Limits
  import opened SyntaxElements
  import opened Wrappers

  // ---------- What is printed ----------

  function Side(i: nat): nat {
    if i < 6 then 4 else 8
  }

  predicate MatricesOk(m: seq<Matrix>) {
    |m| == LISTS && forall i :: 0 <= i < |m| ==> IsSquare(m[i].values, Side(i))
  }

  // The coefficients of matrix i in scan order.
  function Scanned(x: Matrix, side: nat): seq<uint8>
    requires IsSquare(x.values, side)
  {
    ScanInSquare(side);
    ValuesAt(x.values, side, Scan(side))
  }

  lemma ScanInSquare(side: nat)
    ensures AllInSquare(side, Scan(side))
  {
    hide CellsFrom, AllInSquare;
    CellsFromSquare(side, 0, 0);
  }

  function CodedMatrix(x: Matrix, i: nat): CodedList
    requires IsSquare(x.values, Side(i))
  {
    CodedList(Scanned(x, Side(i)), x.dc, IsLarge(i))
  }

  function CodedMatrices(m: seq<Matrix>): (r: seq<CodedList>)
    requires forall i :: 0 <= i < |m| ==> IsSquare(m[i].values, Side(i))
    ensures |r| == |m|
  {
    seq(|m|, i requires 0 <= i < |m| => CodedMatrix(m[i], i))
  }

  // No coefficient and no DC value that is used is zero.
  predicate Codable(x: CodedList) {
    (x.large ==> x.dc != 0) && Nonzero(x.coefs)
  }

  predicate AllCodable(m: seq<CodedList>) {
    forall i :: 0 <= i < |m| ==> Codable(m[i])
  }

  // The lists that a picture's parameter sets carry.
  function ScalingLists(k: Coding, matrices: seq<Matrix>): Option<seq<CodedList>>
    requires k.scalingListEnabled ==> MatricesOk(matrices)
  {
    if k.scalingListEnabled then Some(CodedMatrices(matrices)) else None
  }

  function SpsPcmOf(k: Coding): Option<Pcm> {
    if k.pcmEnabled then
      Some(Pcm(k.pcmDepthLumaMinus1 % 16, k.pcmDepthChromaMinus1 % 16, k.log2MinPcmMinus3, k.log2DiffMaxMinPcm,
               k.pcmLoopFilterDisabled))
    else None
  }

  function SpsOf(profile: nat, depth: nat, p: Picture, k: Coding): Sps
    requires profile < 32
  {
    Sps(Ptl(0, profile, Pow2(31 - profile), 11, 0, 0, 186, 0), p.width, p.height, depth, depth, p.log2MaxPocLsbMinus4,
        k.maxDecPicBufferingMinus1, k.maxDecPicBufferingMinus1, 0,
        p.log2MinCbMinus3, p.log2DiffMaxMinCb, k.log2MinTbMinus2, k.log2DiffMaxMinTb,
        k.hierarchyInter, k.hierarchyIntra, k.scalingListEnabled, k.amp, p.sao, SpsPcmOf(k),
        0, p.longTermPresent, 0, p.temporalMvp, k.strongIntra)
  }

  function TilesOf(k: Coding): Option<Tiles>
    requires k.WellFormed() && k.Checked()
  {
    if k.tilesEnabled then
      Some(Tiles(k.columnWidthsMinus1[..k.tileColumnsMinus1], k.rowHeightsMinus1[..k.tileRowsMinus1],
                 k.loopFilterAcrossTiles))
    else None
  }

  function PpsOf(id: nat, p: Picture, k: Coding, lists: Option<seq<CodedList>>): Pps
    requires k.WellFormed() && k.Checked()
  {
    Pps(id, p.dependentEnabled, p.outputFlagPresent, p.numExtraSliceHeaderBits, k.signHiding, k.cabacInit,
        p.numRefIdxL0Minus1, p.numRefIdxL1Minus1, k.initQpMinus26, k.constrainedIntra, k.transformSkip,
        if k.cuQpDeltaEnabled then Some(k.diffCuQpDeltaDepth) else None, k.cbQpOffset, k.crQpOffset,
        k.sliceChromaOffsets, k.weightedPred, k.weightedBipred, k.transquantBypass, k.entropySync, TilesOf(k),
        k.loopFilterAcrossSlices,
        Deblocking(k.deblockingOverride,
                   if k.deblockingDisabled then None else Some((k.betaOffsetDiv2 as int, k.tcOffsetDiv2 as int))),
        if lists.Some? then Some(AsRead(lists.value)) else None, true, k.mergeLevelMinus2, k.headerExtension)
  }

  function VpsOpening(): seq<Element> {
    [U(0, 4), U(3, 2), U(0, 6), U(6, 3), U(1, 1), U(65535, 16)]
  }

  function VpsClosing(): seq<Element> {
    [U(0, 6), Ue(0), U(0, 1), U(0, 1)]
  }

  // video_parameter_set_rbsp() before its trailing bits.
  function VpsBits(profile: nat, k: Coding): BitString
    requires profile < 32
  {
    Codes(VpsOpening()) + (Codes(ProfileTierLevel(profile)) +
    (Codes(Ordering(k.maxDecPicBufferingMinus1, k.maxDecPicBufferingMinus1, 0)) + (Codes(VpsClosing()) + [])))
  }

  // ---------- What is read ----------

  // The parameters a decoder parses slice headers by, from the sets it holds.
  function SetsContext(sps: Sps, pps: Pps, nalType: nat): Context {
    var ctb := Pow2(sps.log2MinCbMinus3 + 3 + sps.log2DiffMaxMinCb);
    Context(
      nalType, pps.dependent, CeilLog2(CeilDiv(sps.width, ctb) * CeilDiv(sps.height, ctb)), pps.extraBits,
      pps.outputFlagPresent, sps.log2MaxPocLsbMinus4 + 4, sps.shortTermRps, 0, sps.longTermPresent, sps.longTermSps,
      sps.temporalMvp, sps.sao, pps.activeL0Minus1 + 1, pps.activeL1Minus1 + 1, pps.listsModification, None, 31)
  }

  // The sets of a picture are the ones its slices are rewritten for.
  lemma SetsAreEmitted(
    profile: nat, depth: nat, id: nat, p: Picture, k: Coding, lists: Option<seq<CodedList>>, refs: References,
    nalType: nat)
    requires profile < 32 && k.WellFormed() && k.Checked()
    ensures SetsContext(SpsOf(profile, depth, p, k), PpsOf(id, p, k, lists), nalType) == Emitted(p, refs, nalType)
  {
    hide AsRead;
  }

  lemma SpsOfOk(profile: nat, depth: nat, p: Picture, k: Coding)
    requires profile < 32 && depth <= 2
    ensures SpsOk(SpsOf(profile, depth, p, k))
  {
  }

  lemma PpsOfOk(id: nat, p: Picture, k: Coding, lists: Option<seq<CodedList>>)
    requires id <= 63 && k.WellFormed() && k.Checked() && p.Checked()
    ensures PpsOk(PpsOf(id, p, k, lists))
  {
    hide AsRead;
  }

  lemma CodedOk(m: seq<Matrix>)
    requires MatricesOk(m)
    ensures |CodedMatrices(m)| == LISTS && ListsOk(CodedMatrices(m))
  {
    hide Scanned, Side, IsSquare;
    var r := CodedMatrices(m);
    forall i | 0 <= i < |r| ensures |r[i].coefs| == ListSize(i) && r[i].large == IsLarge(i) {
      ScannedLength(m[i], i);
    }
  }

  lemma ScannedLength(x: Matrix, i: nat)
    requires IsSquare(x.values, Side(i))
    ensures |Scanned(x, Side(i))| == ListSize(i)
  {
    hide CellsFrom, ValuesAt;
    ScanInSquare(Side(i));
    ScanIsUpRightDiagonal(Side(i));
  }

  lemma SpsBackIs(profile: nat, depth: nat, p: Picture, k: Coding)
    requires profile < 32 && depth <= 2
    ensures ParseSps(Aligned(SpsBits(SpsOf(profile, depth, p, k)))) == Success(SpsOf(profile, depth, p, k))
  {
    hide SpsOf, SpsBits, ParseSps, Aligned;
    SpsOfOk(profile, depth, p, k);
    SpsBack(SpsOf(profile, depth, p, k));
  }

  lemma PpsBackIs(id: nat, p: Picture, k: Coding, matrices: seq<Matrix>)
    requires id <= 63 && k.WellFormed() && k.Checked() && p.Checked()
    requires k.scalingListEnabled ==> MatricesOk(matrices)
    ensures
      var lists := ScalingLists(k, matrices);
      ParsePps(Aligned(PpsBits(PpsOf(id, p, k, lists), lists))) == Success(PpsOf(id, p, k, lists))
  {
    hide PpsOk, PpsBits, ParsePps, Aligned, AsRead, ListsOk, CodedMatrices, MatricesOk;
    var lists := ScalingLists(k, matrices);
    if k.scalingListEnabled {
      CodedOk(matrices);
    }
    PpsOfOk(id, p, k, lists);
    PpsBack(PpsOf(id, p, k, lists), lists);
  }

  lemma VpsFits(profile: nat, k: Coding)
    requires profile < 32
    ensures AllFit(VpsOpening()) && Shaped(VpsOpening(), VPS_OPENING_KINDS)
    ensures
      var o := Ordering(k.maxDecPicBufferingMinus1, k.maxDecPicBufferingMinus1, 0);
      AllFit(o) && Shaped(o, ORDERING_KINDS)
    ensures AllFit(VpsClosing()) && Shaped(VpsClosing(), VPS_CLOSING_KINDS) && AllZero(VpsClosing())
  {
    SmallPowers();
    hide Pow2;
  }

  lemma VpsBackIs(profile: nat, k: Coding)
    requires profile < 32
    ensures
      ParseVps(Aligned(VpsBits(profile, k))) ==
      Success(Vps(0, 3, 0, true, PtlOf(ProfileTierLevel(profile)), k.maxDecPicBufferingMinus1,
                  k.maxDecPicBufferingMinus1, 0))
  {
    hide Codes, ReadElements, At, AllFit, Shaped, Aligned, Closed, Pow2;
    var bits := VpsBits(profile, k);
    var s := Aligned(bits);
    AlignedReads(bits);
    VpsFits(profile, k);
    PtlFits(profile);
    var a, l, e := VpsOpening(), ProfileTierLevel(profile), VpsClosing();
    var o := Ordering(k.maxDecPicBufferingMinus1, k.maxDecPicBufferingMinus1, 0);
    var after2 := Codes(e) + [];
    var after1 := Codes(o) + after2;
    ReadNext(s, 0, a, VPS_OPENING_KINDS, Codes(l) + after1, |bits|);
    var p0 := |Codes(a)|;
    ReadNext(s, p0, l, PTL_KINDS, after1, |bits|);
    var p1 := p0 + |Codes(l)|;
    ReadNext(s, p1, o, ORDERING_KINDS, after2, |bits|);
    ReadNext(s, p1 + |Codes(o)|, e, VPS_CLOSING_KINDS, [], |bits|);
    ClosedBehind(bits, Vps(0, 3, 0, true, PtlOf(l), k.maxDecPicBufferingMinus1, k.maxDecPicBufferingMinus1, 0));
  }

  // ---------- What the sets tell ----------

  // Main tier, level 6.2, progressive frames only, compatible with this profile alone.
  predicate TellsPtl(x: Ptl, profile: nat) {
    profile < 32 && x == Ptl(0, profile, Pow2(31 - profile), 11, 0, 0, 186, 0)
  }

  predicate TellsVps(x: Vps, profile: nat, k: Coding) {
    && x.id == 0 && x.baseLayer == 3 && x.layersMinus1 == 0 && x.nested && TellsPtl(x.ptl, profile)
    && x.maxDecPicBufferingMinus1 == k.maxDecPicBufferingMinus1
    && x.maxNumReorder == k.maxDecPicBufferingMinus1 && x.maxLatencyPlus1 == 0
  }

  // The PCM depths have four bits.
  predicate TellsPcm(x: Option<Pcm>, k: Coding) {
    && (x.Some? <==> k.pcmEnabled)
    && (x.Some? ==>
          && x.value.depthLumaMinus1 == k.pcmDepthLumaMinus1 % 16
          && x.value.depthChromaMinus1 == k.pcmDepthChromaMinus1 % 16
          && x.value.log2MinMinus3 == k.log2MinPcmMinus3 && x.value.log2DiffMaxMin == k.log2DiffMaxMinPcm
          && x.value.loopFilterDisabled == k.pcmLoopFilterDisabled)
  }

  // No predicted sets, and no long-term pictures of the set's own.
  predicate TellsSps(x: Sps, profile: nat, depth: nat, p: Picture, k: Coding) {
    && TellsPtl(x.ptl, profile) && x.width == p.width && x.height == p.height
    && x.depthLumaMinus8 == depth && x.depthChromaMinus8 == depth && x.log2MaxPocLsbMinus4 == p.log2MaxPocLsbMinus4
    && x.maxDecPicBufferingMinus1 == k.maxDecPicBufferingMinus1
    && x.maxNumReorder == k.maxDecPicBufferingMinus1 && x.maxLatencyPlus1 == 0
    && x.log2MinCbMinus3 == p.log2MinCbMinus3 && x.log2DiffMaxMinCb == p.log2DiffMaxMinCb
    && x.log2MinTbMinus2 == k.log2MinTbMinus2 && x.log2DiffMaxMinTb == k.log2DiffMaxMinTb
    && x.hierarchyInter == k.hierarchyInter && x.hierarchyIntra == k.hierarchyIntra
    && x.scalingListEnabled == k.scalingListEnabled && x.amp == k.amp && x.sao == p.sao && TellsPcm(x.pcm, k)
    && x.shortTermRps == 0 && x.longTermPresent == p.longTermPresent && x.longTermSps == 0
    && x.temporalMvp == p.temporalMvp && x.strongIntra == k.strongIntra
  }

  predicate SameSizes(x: seq<nat>, sizes: seq<uint16>, n: nat) {
    |x| == n <= |sizes| && forall i :: 0 <= i < n ==> x[i] == sizes[i]
  }

  predicate TellsTiles(x: Option<Tiles>, k: Coding) {
    && (x.Some? <==> k.tilesEnabled)
    && (x.Some? ==>
          && SameSizes(x.value.columns, k.columnWidthsMinus1, k.tileColumnsMinus1)
          && SameSizes(x.value.rows, k.rowHeightsMinus1, k.tileRowsMinus1)
          && x.value.loopFilterAcross == k.loopFilterAcrossTiles)
  }

  // Coefficient j of list i is the one the matrix has in cell j of the up-right diagonal scan.
  predicate TellsMatrix(x: ReadList, m: Matrix, i: nat) {
    var side := if i < 6 then 4 else 8;
    && x.dc == (if i < 12 then 16 else m.dc)
    && |x.coefs| == |m.values| == |Scan(side)| == side * side
    && forall j :: 0 <= j < side * side ==>
         var cell := Scan(side)[j];
         cell.x < side && cell.y * side + cell.x < |m.values| && x.coefs[j] == m.values[cell.y * side + cell.x]
  }

  predicate TellsMatrices(x: Option<seq<ReadList>>, k: Coding, matrices: seq<Matrix>) {
    && (x.Some? <==> k.scalingListEnabled)
    && (x.Some? ==>
          |x.value| == |matrices| == 20 && forall i :: 0 <= i < 20 ==> TellsMatrix(x.value[i], matrices[i], i))
  }

  predicate TellsPps(x: Pps, id: nat, p: Picture, k: Coding, matrices: seq<Matrix>) {
    && x.id == id && x.dependent == p.dependentEnabled && x.outputFlagPresent == p.outputFlagPresent
    && x.extraBits == p.numExtraSliceHeaderBits && x.signHiding == k.signHiding && x.cabacInit == k.cabacInit
    && x.activeL0Minus1 == p.numRefIdxL0Minus1 && x.activeL1Minus1 == p.numRefIdxL1Minus1
    && x.initQpMinus26 == k.initQpMinus26 && x.constrainedIntra == k.constrainedIntra
    && x.transformSkip == k.transformSkip
    && x.cuQpDeltaDepth == (if k.cuQpDeltaEnabled then Some(k.diffCuQpDeltaDepth as nat) else None)
    && x.cbQpOffset == k.cbQpOffset && x.crQpOffset == k.crQpOffset && x.sliceChromaOffsets == k.sliceChromaOffsets
    && x.weightedPred == k.weightedPred && x.weightedBipred == k.weightedBipred
    && x.transquantBypass == k.transquantBypass && x.entropySync == k.entropySync && TellsTiles(x.tiles, k)
    && x.loopFilterAcross == k.loopFilterAcrossSlices && x.deblocking.overrideEnabled == k.deblockingOverride
    && (x.deblocking.offsets.Some? <==> !k.deblockingDisabled)
    && (x.deblocking.offsets.Some? ==>
          x.deblocking.offsets.value.0 == k.betaOffsetDiv2 && x.deblocking.offsets.value.1 == k.tcOffsetDiv2)
    && TellsMatrices(x.scalingLists, k, matrices) && x.listsModification
    && x.mergeLevelMinus2 == k.mergeLevelMinus2 && x.headerExtension == k.headerExtension
  }

  lemma {:induction false} ValuesAre(values: seq<uint8>, side: nat, s: seq<Cell>, j: nat)
    requires IsSquare(values, side) && AllInSquare(side, s) && j < |s|
    ensures
      && s[j].x < side && s[j].y * side + s[j].x < |values|
      && ValuesAt(values, side, s)[j] == values[s[j].y * side + s[j].x]
  {
    hide IsSquare;
    if j == 0 {
      CellIndex(values, side, s[0]);
    } else {
      ValuesAre(values, side, s[1..], j - 1);
    }
  }

  lemma {:induction false} AsReadAt(m: seq<CodedList>, i: nat)
    requires i < |m|
    ensures AsRead(m)[i] == ReadList(if m[i].large then m[i].dc else 16, m[i].coefs)
  {
    if i < |m| - 1 {
      AsReadAt(m[..|m| - 1], i);
    }
  }

  lemma MatrixTold(x: Matrix, i: nat)
    requires IsSquare(x.values, Side(i))
    ensures
      var coded := CodedMatrix(x, i);
      TellsMatrix(ReadList(if coded.large then coded.dc else 16, coded.coefs), x, i)
  {
    hide CellsFrom, ValuesAt, AllInSquare;
    var side := Side(i);
    ScanInSquare(side);
    ScanIsUpRightDiagonal(side);
    forall j | 0 <= j < side * side
      ensures
        var cell := Scan(side)[j];
        && cell.x < side && cell.y * side + cell.x < |x.values|
        && Scanned(x, side)[j] == x.values[cell.y * side + cell.x]
    {
      ValuesAre(x.values, side, Scan(side), j);
    }
  }

  lemma MatricesTold(k: Coding, matrices: seq<Matrix>)
    requires k.scalingListEnabled ==> MatricesOk(matrices)
    ensures
      var lists := ScalingLists(k, matrices);
      TellsMatrices(if lists.Some? then Some(AsRead(lists.value)) else None, k, matrices)
  {
    hide AsRead, Scanned, TellsMatrix, IsSquare, Side;
    if k.scalingListEnabled {
      forall i | 0 <= i < 20 ensures TellsMatrix(AsRead(CodedMatrices(matrices))[i], matrices[i], i) {
        AsReadAt(CodedMatrices(matrices), i);
        MatrixTold(matrices[i], i);
      }
    }
  }

  // A decoder reads from the video parameter set the profile and the picture buffering.
  lemma VpsReadsBack(profile: nat, k: Coding)
    requires profile < 32
    ensures
      var parse := ParseVps(Aligned(VpsBits(profile, k)));
      parse.Success? && TellsVps(parse.value, profile, k)
  {
    hide VpsBits, ParseVps, Aligned, Pow2;
    VpsBackIs(profile, k);
  }

  // From the sequence parameter set every field of the picture that it carries.
  lemma SpsReadsBack(profile: nat, depth: nat, p: Picture, k: Coding)
    requires profile < 32 && depth <= 2
    ensures
      var parse := ParseSps(Aligned(SpsBits(SpsOf(profile, depth, p, k))));
      parse.Success? && TellsSps(parse.value, profile, depth, p, k)
  {
    hide SpsBits, ParseSps, Aligned, Pow2;
    SpsBackIs(profile, depth, p, k);
  }

  // The PCM depths of the picture arrive if and only if they fit four bits.
  lemma PcmDepthsExactly(profile: nat, depth: nat, p: Picture, k: Coding)
    requires profile < 32 && depth <= 2 && k.pcmEnabled
    ensures
      var x := ParseSps(Aligned(SpsBits(SpsOf(profile, depth, p, k))));
      && x.Success? && x.value.pcm.Some?
      && (x.value.pcm.value.depthLumaMinus1 == k.pcmDepthLumaMinus1 &&
          x.value.pcm.value.depthChromaMinus1 == k.pcmDepthChromaMinus1
          <==> k.pcmDepthLumaMinus1 < 16 && k.pcmDepthChromaMinus1 < 16)
  {
    hide SpsOf, SpsBits, ParseSps, Aligned, Pow2;
    SpsReadsBack(profile, depth, p, k);
  }

  // And from a picture parameter set its id and every field, tile sizes and scaling matrices included.
  lemma PpsReadsBack(id: nat, p: Picture, k: Coding, matrices: seq<Matrix>)
    requires id <= 63 && k.WellFormed() && k.Checked() && p.Checked()
    requires k.scalingListEnabled ==> MatricesOk(matrices)
    ensures
      var lists := ScalingLists(k, matrices);
      var parse := ParsePps(Aligned(PpsBits(PpsOf(id, p, k, lists), lists)));
      parse.Success? && TellsPps(parse.value, id, p, k, matrices)
  {
    hide PpsBits, ParsePps, Aligned, AsRead, MatricesOk, TellsMatrix, ScalingLists;
    PpsBackIs(id, p, k, matrices);
    MatricesTold(k, matrices);
  }

  // ---------- Writing ----------

  lemma {:induction false} LowBits(v: nat, n: nat)
    ensures FixedBits(v, n) == FixedBits(v % Pow2(n), n)
  {
    if n > 0 {
      LowHalf(v, Pow2(n - 1));
      LowBits(v / 2, n - 1);
    }
  }

  lemma LowHalf(v: nat, m: nat)
    requires m > 0
    ensures v % (2 * m) / 2 == v / 2 % m && v % (2 * m) % 2 == v % 2
  {
    var q, r := v / (2 * m), v % (2 * m);
    Cycles(v, 2 * m);
    assert q * (2 * m) == 2 * (q * m);
    assert v / 2 == q * m + r / 2;
    RestOf(q, r / 2, m);
  }

  lemma Longer(start: BitString, done: seq<Element>, e: Element)
    ensures start + Codes(done) + e.Code() == start + Codes(done + [e])
  {
    hide Element.Code, Codes;
    OneMoreCode(done, e);
  }

  // Behind start, the bits written so far are these elements; one more call writes one more.
  method PutBits(b: Bits, value: uint32, count: nat, ghost start: BitString, ghost done: seq<Element>)
    returns (ghost now: seq<Element>)
    requires b.Valid() && b.contents == start + Codes(done) && count <= 32
    modifies b
    ensures now == done + [U(value % Pow2(count), count)]
    ensures b.Valid() && b.contents == start + Codes(now)
  {
    hide Packs, Codes, FixedBits, Pow2;
    now := done + [U(value % Pow2(count), count)];
    LowBits(value, count);
    Longer(start, done, U(value % Pow2(count), count));
    var _ := b.Bits(value, count);
  }

  method PutField(b: Bits, value: uint32, count: nat, ghost start: BitString, ghost done: seq<Element>)
    returns (ghost now: seq<Element>)
    requires b.Valid() && b.contents == start + Codes(done) && count <= 32 && value < Pow2(count)
    modifies b
    ensures now == done + [U(value, count)]
    ensures b.Valid() && b.contents == start + Codes(now)
  {
    hide Packs, Codes, FixedBits, Pow2;
    now := done + [U(value, count)];
    Longer(start, done, U(value, count));
    var _ := b.Bits(value, count);
  }

  method PutBit(b: Bits, value: bool, ghost start: BitString, ghost done: seq<Element>)
    returns (ghost now: seq<Element>)
    requires b.Valid() && b.contents == start + Codes(done)
    modifies b
    ensures now == done + [Flag(value)]
    ensures b.Valid() && b.contents == start + Codes(now)
  {
    hide Packs, Codes;
    now := done + [Flag(value)];
    Longer(start, done, Flag(value));
    OneBit(value);
    b.Bit(BitValue(value));
  }

  lemma OneBit(value: bool)
    ensures Flag(value).Code() == [value]
  {
    assert FixedBits(BitValue(value), 1) == FixedBits(0, 0) + [value];
  }

  method PutUe(b: Bits, value: uint32, ghost start: BitString, ghost done: seq<Element>)
    returns (ghost now: seq<Element>)
    requires b.Valid() && b.contents == start + Codes(done) && value < UINT32_MAX
    modifies b
    ensures now == done + [Ue(value)]
    ensures b.Valid() && b.contents == start + Codes(now)
  {
    hide Packs, Codes, UeCode;
    now := done + [Ue(value)];
    Longer(start, done, Ue(value));
    var _ := b.Ue(value);
  }

  method PutSe(b: Bits, value: int32, ghost start: BitString, ghost done: seq<Element>)
    returns (ghost now: seq<Element>)
    requires b.Valid() && b.contents == start + Codes(done) && value != -0x8000_0000
    modifies b
    ensures now == done + [Se(value)]
    ensures b.Valid() && b.contents == start + Codes(now)
  {
    hide Packs, Codes, SeCode;
    now := done + [Se(value)];
    Longer(start, done, Se(value));
    var _ := b.Se(value);
  }

  lemma NothingDone(start: BitString)
    ensures start + Codes([]) == start
  {
  }

  // ptl
  method WritePtl(b: Bits, profile: nat)
    requires b.Valid() && 1 <= profile <= 2
    modifies b
    ensures b.Valid() && b.contents == old(b.contents) + Codes(ProfileTierLevel(profile))
  {
    hide Packs, Codes, Pow2;
    ghost var start := b.contents;
    NothingDone(start);
    SmallPowers();
    ProfileBit(profile);
    ghost var es := PutField(b, 0, 3, start, []);
    es := PutField(b, profile, 5, start, es);
    es := PutField(b, if profile == 1 then 0x4000_0000 else 0x2000_0000, 32, start, es);
    es := PutField(b, 0xb, 4, start, es);
    es := PutField(b, 0, 32, start, es);
    es := PutField(b, 0, 12, start, es);
    es := PutField(b, 186, 8, start, es);
    es := PutField(b, 0, 16, start, es);
    assert es == ProfileTierLevel(profile);
  }

  lemma ProfileBit(profile: nat)
    requires 1 <= profile <= 2
    ensures Pow2(31 - profile) == if profile == 1 then 0x4000_0000 else 0x2000_0000
  {
    SmallPowers();
    assert Pow2(31) == 2 * Pow2(30) && Pow2(30) == 2 * Pow2(29);
  }

  // ordering
  method WriteOrdering(b: Bits, k: Coding)
    requires b.Valid()
    modifies b
    ensures b.Valid()
    ensures b.contents == old(b.contents) + Codes(Ordering(k.maxDecPicBufferingMinus1, k.maxDecPicBufferingMinus1, 0))
  {
    hide Packs, Codes;
    ghost var start := b.contents;
    NothingDone(start);
    ghost var es := PutBit(b, false, start, []);
    es := PutUe(b, k.maxDecPicBufferingMinus1, start, es);
    es := PutUe(b, k.maxDecPicBufferingMinus1, start, es);
    es := PutUe(b, 0, start, es);
    assert es == Ordering(k.maxDecPicBufferingMinus1, k.maxDecPicBufferingMinus1, 0);
  }

  method WriteVpsOpening(b: Bits)
    requires b.Valid()
    modifies b
    ensures b.Valid() && b.contents == old(b.contents) + Codes(VpsOpening())
  {
    hide Packs, Codes, Pow2;
    ghost var start := b.contents;
    NothingDone(start);
    SmallPowers();
    ghost var es := PutField(b, 0, 4, start, []);
    es := PutField(b, 3, 2, start, es);
    es := PutField(b, 0, 6, start, es);
    es := PutField(b, 6, 3, start, es);
    es := PutField(b, 1, 1, start, es);
    es := PutField(b, 65535, 16, start, es);
    assert es == VpsOpening();
  }

  method WriteVpsClosing(b: Bits)
    requires b.Valid()
    modifies b
    ensures b.Valid() && b.contents == old(b.contents) + Codes(VpsClosing())
  {
    hide Packs, Codes, Pow2;
    ghost var start := b.contents;
    NothingDone(start);
    SmallPowers();
    ghost var es := PutField(b, 0, 6, start, []);
    es := PutUe(b, 0, start, es);
    es := PutField(b, 0, 1, start, es);
    es := PutField(b, 0, 1, start, es);
    assert es == VpsClosing();
  }

  method WriteVps(b: Bits, profile: nat, k: Coding)
    requires b.Valid() && b.contents == [] && 1 <= profile <= 2
    modifies b
    ensures b.Valid() && b.contents == VpsBits(profile, k)
  {
    hide Packs, Codes, ProfileTierLevel, Ordering;
    ghost var after2 := Codes(VpsClosing()) + [];
    ghost var after1 := Codes(Ordering(k.maxDecPicBufferingMinus1, k.maxDecPicBufferingMinus1, 0)) + after2;
    Behind(b.contents, Codes(VpsOpening()), Codes(ProfileTierLevel(profile)) + after1);
    WriteVpsOpening(b);
    Behind(b.contents, Codes(ProfileTierLevel(profile)), after1);
    WritePtl(b, profile);
    Behind(b.contents, Codes(Ordering(k.maxDecPicBufferingMinus1, k.maxDecPicBufferingMinus1, 0)), after2);
    WriteOrdering(b, k);
    Behind(b.contents, Codes(VpsClosing()), []);
    WriteVpsClosing(b);
    Complete(b.contents);
    Whole(VpsBits(profile, k));
  }

  // Writing a piece leaves what is still to come.
  lemma Behind(written: BitString, piece: BitString, rest: BitString)
    ensures written + (piece + rest) == written + piece + rest
  {
  }

  lemma Complete(written: BitString)
    ensures written + [] == written
  {
  }

  lemma Whole(goal: BitString)
    ensures [] + goal == goal
  {
  }

  lemma Five<T>(a: T, b: T, c: T, d: T, e: T)
    ensures [] + [a] + [b] + [c] + [d] + [e] == [a, b, c, d, e]
  {
  }

  lemma Six<T>(a: T, b: T, c: T, d: T, e: T, f: T)
    ensures [] + [a] + [b] + [c] + [d] + [e] + [f] == [a, b, c, d, e, f]
  {
  }

  lemma Seven<T>(a: T, b: T, c: T, d: T, e: T, f: T, g: T)
    ensures [] + [a] + [b] + [c] + [d] + [e] + [f] + [g] == [a, b, c, d, e, f, g]
  {
  }

  lemma Eight<T>(a: T, b: T, c: T, d: T, e: T, f: T, g: T, h: T)
    ensures [] + [a] + [b] + [c] + [d] + [e] + [f] + [g] + [h] == [a, b, c, d, e, f, g, h]
  {
  }

  // The set to be written is the one of this picture.
  ghost predicate SpsOfPicture(x: Sps, p: Picture, k: Coding) {
    x.ptl.profile < 32 && x == SpsOf(x.ptl.profile, x.depthLumaMinus8, p, k)
  }

  method WriteSpsOpening(b: Bits)
    requires b.Valid()
    modifies b
    ensures b.Valid() && b.contents == old(b.contents) + Codes(SpsOpening())
  {
    hide Packs, Codes, Pow2;
    ghost var start := b.contents;
    NothingDone(start);
    SmallPowers();
    ghost var es := PutField(b, 0, 4, start, []);
    es := PutField(b, 6, 3, start, es);
    es := PutField(b, 1, 1, start, es);
    assert es == SpsOpening();
  }

  method WriteSpsSize(b: Bits, p: Picture, k: Coding, ghost x: Sps)
    requires b.Valid() && SpsOfPicture(x, p, k)
    modifies b
    ensures b.Valid() && b.contents == old(b.contents) + Codes(SpsSize(x))
  {
    hide Packs, Codes, Pow2;
    ghost var start := b.contents;
    NothingDone(start);
    ghost var es := PutUe(b, 0, start, []);
    es := PutUe(b, 1, start, es);
    es := PutUe(b, p.width, start, es);
    es := PutUe(b, p.height, start, es);
    es := PutBit(b, false, start, es);
    Five(Ue(0), Ue(1), Ue(p.width), Ue(p.height), Flag(false));
  }

  method WriteSpsDepth(b: Bits, depth: nat, p: Picture, k: Coding, ghost x: Sps)
    requires b.Valid() && SpsOfPicture(x, p, k) && x.depthLumaMinus8 == depth <= 2
    modifies b
    ensures b.Valid() && b.contents == old(b.contents) + Codes(SpsDepth(x))
  {
    hide Packs, Codes, Pow2;
    ghost var start := b.contents;
    NothingDone(start);
    ghost var es := PutUe(b, depth, start, []);
    es := PutUe(b, depth, start, es);
    es := PutUe(b, p.log2MaxPocLsbMinus4, start, es);
    assert es == SpsDepth(x);
  }

  method WriteSpsBlocks(b: Bits, p: Picture, k: Coding, ghost x: Sps)
    requires b.Valid() && SpsOfPicture(x, p, k)
    modifies b
    ensures b.Valid() && b.contents == old(b.contents) + Codes(SpsBlocks(x))
  {
    hide Packs, Codes, Pow2;
    ghost var start := b.contents;
    NothingDone(start);
    ghost var es := PutUe(b, p.log2MinCbMinus3, start, []);
    es := PutUe(b, p.log2DiffMaxMinCb, start, es);
    es := PutUe(b, k.log2MinTbMinus2, start, es);
    es := PutUe(b, k.log2DiffMaxMinTb, start, es);
    es := PutUe(b, k.hierarchyInter, start, es);
    es := PutUe(b, k.hierarchyIntra, start, es);
    es := PutBit(b, k.scalingListEnabled, start, es);
    Seven(Ue(p.log2MinCbMinus3), Ue(p.log2DiffMaxMinCb), Ue(k.log2MinTbMinus2), Ue(k.log2DiffMaxMinTb),
          Ue(k.hierarchyInter), Ue(k.hierarchyIntra), Flag(k.scalingListEnabled));
  }

  method WriteSpsLists(b: Bits, p: Picture, k: Coding, ghost x: Sps)
    requires b.Valid() && SpsOfPicture(x, p, k)
    modifies b
    ensures b.Valid() && b.contents == old(b.contents) + Codes(SpsLists(x))
  {
    hide Packs, Codes, Pow2;
    ghost var start := b.contents;
    NothingDone(start);
    if k.scalingListEnabled {
      ghost var es := PutBit(b, false, start, []);
      assert es == SpsLists(x);
    }
  }

  method WriteSpsTools(b: Bits, p: Picture, k: Coding, ghost x: Sps)
    requires b.Valid() && SpsOfPicture(x, p, k)
    modifies b
    ensures b.Valid() && b.contents == old(b.contents) + Codes(SpsTools(x))
  {
    hide Packs, Codes, Pow2;
    ghost var start := b.contents;
    NothingDone(start);
    ghost var es := PutBit(b, k.amp, start, []);
    es := PutBit(b, p.sao, start, es);
    es := PutBit(b, k.pcmEnabled, start, es);
    assert es == SpsTools(x);
  }

  method WriteSpsPcm(b: Bits, p: Picture, k: Coding, ghost x: Sps)
    requires b.Valid() && SpsOfPicture(x, p, k)
    modifies b
    ensures b.Valid() && b.contents == old(b.contents) + Codes(SpsPcm(x))
  {
    hide Packs, Codes, Pow2;
    ghost var start := b.contents;
    NothingDone(start);
    SmallPowers();
    if k.pcmEnabled {
      ghost var es := PutBits(b, k.pcmDepthLumaMinus1, 4, start, []);
      es := PutBits(b, k.pcmDepthChromaMinus1, 4, start, es);
      es := PutUe(b, k.log2MinPcmMinus3, start, es);
      es := PutUe(b, k.log2DiffMaxMinPcm, start, es);
      es := PutBit(b, k.pcmLoopFilterDisabled, start, es);
      assert es == SpsPcm(x);
    }
  }

  method WriteSpsSets(b: Bits, p: Picture, k: Coding, ghost x: Sps)
    requires b.Valid() && SpsOfPicture(x, p, k)
    modifies b
    ensures b.Valid() && b.contents == old(b.contents) + Codes(SpsSets(x))
  {
    hide Packs, Codes, Pow2;
    ghost var start := b.contents;
    NothingDone(start);
    ghost var es := PutUe(b, 0, start, []);
    es := PutBit(b, p.longTermPresent, start, es);
    assert es == SpsSets(x);
  }

  method WriteSpsLongTerm(b: Bits, p: Picture, k: Coding, ghost x: Sps)
    requires b.Valid() && SpsOfPicture(x, p, k)
    modifies b
    ensures b.Valid() && b.contents == old(b.contents) + Codes(SpsLongTerm(x))
  {
    hide Packs, Codes, Pow2;
    ghost var start := b.contents;
    NothingDone(start);
    if p.longTermPresent {
      ghost var es := PutUe(b, 0, start, []);
      assert es == SpsLongTerm(x);
    }
  }

  method WriteSpsClosing(b: Bits, p: Picture, k: Coding, ghost x: Sps)
    requires b.Valid() && SpsOfPicture(x, p, k)
    modifies b
    ensures b.Valid() && b.contents == old(b.contents) + Codes(SpsClosing(x))
  {
    hide Packs, Codes, Pow2;
    ghost var start := b.contents;
    NothingDone(start);
    ghost var es := PutBit(b, p.temporalMvp, start, []);
    es := PutBit(b, k.strongIntra, start, es);
    es := PutBit(b, false, start, es);
    es := PutBit(b, false, start, es);
    assert es == SpsClosing(x);
  }

  method WriteSpsTail(b: Bits, p: Picture, k: Coding, ghost x: Sps)
    requires b.Valid() && SpsOfPicture(x, p, k)
    modifies b
    ensures b.Valid() && b.contents == old(b.contents) + SpsTail(x)
  {
    hide Packs, Codes, SpsOf, SpsTools, SpsPcm, SpsSets, SpsLongTerm, SpsClosing;
    ghost var after4 := Codes(SpsClosing(x)) + [];
    ghost var after3 := Codes(SpsLongTerm(x)) + after4;
    ghost var after2 := Codes(SpsSets(x)) + after3;
    ghost var after1 := Codes(SpsPcm(x)) + after2;
    Behind(b.contents, Codes(SpsTools(x)), after1);
    WriteSpsTools(b, p, k, x);
    Behind(b.contents, Codes(SpsPcm(x)), after2);
    WriteSpsPcm(b, p, k, x);
    Behind(b.contents, Codes(SpsSets(x)), after3);
    WriteSpsSets(b, p, k, x);
    Behind(b.contents, Codes(SpsLongTerm(x)), after4);
    WriteSpsLongTerm(b, p, k, x);
    Behind(b.contents, Codes(SpsClosing(x)), []);
    WriteSpsClosing(b, p, k, x);
    Complete(b.contents);
  }

  method WriteSpsMiddle(b: Bits, depth: nat, p: Picture, k: Coding, ghost x: Sps)
    requires b.Valid() && SpsOfPicture(x, p, k) && x.depthLumaMinus8 == depth <= 2
    modifies b
    ensures b.Valid() && b.contents == old(b.contents) + SpsMiddle(x)
  {
    hide Packs, Codes, SpsDepth, Ordering, SpsBlocks, SpsLists, SpsTail;
    ghost var o := Codes(Ordering(x.maxDecPicBufferingMinus1, x.maxNumReorder, x.maxLatencyPlus1));
    ghost var after3 := Codes(SpsLists(x)) + SpsTail(x);
    ghost var after2 := Codes(SpsBlocks(x)) + after3;
    ghost var after1 := o + after2;
    Behind(b.contents, Codes(SpsDepth(x)), after1);
    WriteSpsDepth(b, depth, p, k, x);
    Behind(b.contents, o, after2);
    WriteOrdering(b, k);
    Behind(b.contents, Codes(SpsBlocks(x)), after3);
    WriteSpsBlocks(b, p, k, x);
    Behind(b.contents, Codes(SpsLists(x)), SpsTail(x));
    WriteSpsLists(b, p, k, x);
    WriteSpsTail(b, p, k, x);
  }

  method WriteSps(b: Bits, profile: nat, depth: nat, p: Picture, k: Coding)
    requires b.Valid() && b.contents == [] && 1 <= profile <= 2 && depth <= 2
    modifies b
    ensures b.Valid() && b.contents == SpsBits(SpsOf(profile, depth, p, k))
  {
    hide Packs, Codes, SpsOpening, ProfileTierLevel, SpsSize, SpsMiddle;
    ghost var x := SpsOf(profile, depth, p, k);
    ghost var after2 := Codes(SpsSize(x)) + SpsMiddle(x);
    ghost var after1 := Codes(ProfileTierLevel(profile)) + after2;
    Behind(b.contents, Codes(SpsOpening()), after1);
    WriteSpsOpening(b);
    Behind(b.contents, Codes(ProfileTierLevel(profile)), after2);
    WritePtl(b, profile);
    Behind(b.contents, Codes(SpsSize(x)), SpsMiddle(x));
    WriteSpsSize(b, p, k, x);
    WriteSpsMiddle(b, depth, p, k, x);
    Whole(SpsBits(x));
  }

  // The set to be written is one of this picture.
  ghost predicate PpsOfPicture(x: Pps, p: Picture, k: Coding, lists: Option<seq<CodedList>>) {
    k.WellFormed() && k.Checked() && x == PpsOf(x.id, p, k, lists)
  }

  method WritePpsOpening(b: Bits, id: nat, p: Picture, k: Coding, ghost x: Pps, ghost lists: Option<seq<CodedList>>)
    requires b.Valid() && PpsOfPicture(x, p, k, lists) && x.id == id <= 63 && p.Checked()
    modifies b
    ensures b.Valid() && b.contents == old(b.contents) + Codes(PpsOpening(x))
  {
    hide Packs, Codes, Pow2;
    ghost var start := b.contents;
    NothingDone(start);
    SmallPowers();
    ghost var es := PutUe(b, id, start, []);
    es := PutUe(b, 0, start, es);
    es := PutBit(b, p.dependentEnabled, start, es);
    es := PutBit(b, p.outputFlagPresent, start, es);
    es := PutField(b, p.numExtraSliceHeaderBits, 3, start, es);
    es := PutBit(b, k.signHiding, start, es);
    es := PutBit(b, k.cabacInit, start, es);
    Seven(Ue(id), Ue(0), Flag(p.dependentEnabled), Flag(p.outputFlagPresent), U(p.numExtraSliceHeaderBits, 3),
          Flag(k.signHiding), Flag(k.cabacInit));
  }

  method WritePpsActive(b: Bits, p: Picture, k: Coding, ghost x: Pps, ghost lists: Option<seq<CodedList>>)
    requires b.Valid() && PpsOfPicture(x, p, k, lists)
    modifies b
    ensures b.Valid() && b.contents == old(b.contents) + Codes(PpsActive(x))
  {
    hide Packs, Codes, Pow2;
    ghost var start := b.contents;
    NothingDone(start);
    ghost var es := PutUe(b, p.numRefIdxL0Minus1, start, []);
    es := PutUe(b, p.numRefIdxL1Minus1, start, es);
    es := PutSe(b, k.initQpMinus26, start, es);
    es := PutBit(b, k.constrainedIntra, start, es);
    es := PutBit(b, k.transformSkip, start, es);
    es := PutBit(b, k.cuQpDeltaEnabled, start, es);
    Six(Ue(p.numRefIdxL0Minus1), Ue(p.numRefIdxL1Minus1), Se(k.initQpMinus26), Flag(k.constrainedIntra),
        Flag(k.transformSkip), Flag(k.cuQpDeltaEnabled));
  }

  method WritePpsCuQp(b: Bits, p: Picture, k: Coding, ghost x: Pps, ghost lists: Option<seq<CodedList>>)
    requires b.Valid() && PpsOfPicture(x, p, k, lists)
    modifies b
    ensures b.Valid() && b.contents == old(b.contents) + Codes(PpsCuQp(x))
  {
    hide Packs, Codes, Pow2;
    ghost var start := b.contents;
    NothingDone(start);
    if k.cuQpDeltaEnabled {
      ghost var es := PutUe(b, k.diffCuQpDeltaDepth, start, []);
      assert es == PpsCuQp(x);
    }
  }

  method WritePpsTools(b: Bits, p: Picture, k: Coding, ghost x: Pps, ghost lists: Option<seq<CodedList>>)
    requires b.Valid() && PpsOfPicture(x, p, k, lists)
    modifies b
    ensures b.Valid() && b.contents == old(b.contents) + Codes(PpsTools(x))
  {
    hide Packs, Codes, Pow2;
    ghost var start := b.contents;
    NothingDone(start);
    ghost var es := PutSe(b, k.cbQpOffset, start, []);
    es := PutSe(b, k.crQpOffset, start, es);
    es := PutBit(b, k.sliceChromaOffsets, start, es);
    es := PutBit(b, k.weightedPred, start, es);
    es := PutBit(b, k.weightedBipred, start, es);
    es := PutBit(b, k.transquantBypass, start, es);
    es := PutBit(b, k.tilesEnabled, start, es);
    es := PutBit(b, k.entropySync, start, es);
    Eight(Se(k.cbQpOffset), Se(k.crQpOffset), Flag(k.sliceChromaOffsets), Flag(k.weightedPred),
          Flag(k.weightedBipred), Flag(k.transquantBypass), Flag(k.tilesEnabled), Flag(k.entropySync));
  }

  method WritePpsGrid(b: Bits, p: Picture, k: Coding, ghost x: Pps, ghost lists: Option<seq<CodedList>>)
    requires b.Valid() && PpsOfPicture(x, p, k, lists)
    modifies b
    ensures b.Valid() && b.contents == old(b.contents) + Codes(PpsGrid(x))
  {
    hide Packs, Codes, Pow2;
    ghost var start := b.contents;
    NothingDone(start);
    if k.tilesEnabled {
      ghost var es := PutUe(b, k.tileColumnsMinus1, start, []);
      es := PutUe(b, k.tileRowsMinus1, start, es);
      es := PutBit(b, false, start, es);
      assert es == PpsGrid(x);
    }
  }

  // The loops over column widths and row heights.
  method WriteSizes(b: Bits, sizes: seq<uint16>, count: nat)
    requires b.Valid() && count <= |sizes|
    modifies b
    ensures b.Valid() && b.contents == old(b.contents) + Codes(Sizes(sizes[..count]))
  {
    hide Packs, Codes;
    ghost var start, es := b.contents, [];
    NothingDone(start);
    var i := 0;
    while i < count
      invariant 0 <= i <= count && b.Valid() && es == Sizes(sizes[..i]) && b.contents == start + Codes(es)
    {
      es := PutUe(b, sizes[i], start, es);
      assert es == Sizes(sizes[..i + 1]);
      i := i + 1;
    }
  }

  method WritePpsAcross(b: Bits, p: Picture, k: Coding, ghost x: Pps, ghost lists: Option<seq<CodedList>>)
    requires b.Valid() && PpsOfPicture(x, p, k, lists)
    modifies b
    ensures b.Valid() && b.contents == old(b.contents) + Codes(PpsAcross(x))
  {
    hide Packs, Codes, Pow2;
    ghost var start := b.contents;
    NothingDone(start);
    if k.tilesEnabled {
      ghost var es := PutBit(b, k.loopFilterAcrossTiles, start, []);
      assert es == PpsAcross(x);
    }
  }

  method WritePpsFilters(b: Bits, p: Picture, k: Coding, ghost x: Pps, ghost lists: Option<seq<CodedList>>)
    requires b.Valid() && PpsOfPicture(x, p, k, lists)
    modifies b
    ensures b.Valid() && b.contents == old(b.contents) + Codes(PpsFilters(x))
  {
    hide Packs, Codes, Pow2;
    ghost var start := b.contents;
    NothingDone(start);
    ghost var es := PutBit(b, k.loopFilterAcrossSlices, start, []);
    es := PutBit(b, true, start, es);
    es := PutBit(b, k.deblockingOverride, start, es);
    es := PutBit(b, k.deblockingDisabled, start, es);
    assert es == PpsFilters(x);
  }

  method WritePpsOffsets(b: Bits, p: Picture, k: Coding, ghost x: Pps, ghost lists: Option<seq<CodedList>>)
    requires b.Valid() && PpsOfPicture(x, p, k, lists)
    modifies b
    ensures b.Valid() && b.contents == old(b.contents) + Codes(PpsOffsets(x))
  {
    hide Packs, Codes, Pow2;
    ghost var start := b.contents;
    NothingDone(start);
    if !k.deblockingDisabled {
      ghost var es := PutSe(b, k.betaOffsetDiv2, start, []);
      es := PutSe(b, k.tcOffsetDiv2, start, es);
      assert es == PpsOffsets(x);
    }
  }

  method WritePpsListed(b: Bits, k: Coding)
    requires b.Valid()
    modifies b
    ensures b.Valid() && b.contents == old(b.contents) + Codes([Flag(k.scalingListEnabled)])
  {
    hide Packs, Codes, Pow2;
    ghost var start := b.contents;
    NothingDone(start);
    ghost var es := PutBit(b, k.scalingListEnabled, start, []);
    assert es == [Flag(k.scalingListEnabled)];
  }

  method WritePpsClosing(b: Bits, p: Picture, k: Coding, ghost x: Pps, ghost lists: Option<seq<CodedList>>)
    requires b.Valid() && PpsOfPicture(x, p, k, lists)
    modifies b
    ensures b.Valid() && b.contents == old(b.contents) + Codes(PpsClosing(x))
  {
    hide Packs, Codes, Pow2;
    ghost var start := b.contents;
    NothingDone(start);
    ghost var es := PutBit(b, true, start, []);
    es := PutUe(b, k.mergeLevelMinus2, start, es);
    es := PutBit(b, k.headerExtension, start, es);
    es := PutBit(b, false, start, es);
    assert es == PpsClosing(x);
  }

  lemma OneMoreList(m: seq<CodedList>, i: nat)
    requires i < |m|
    ensures PrintAllLists(m[..i + 1]) == PrintAllLists(m[..i]) + PrintCoded(m[i])
  {
    assert m[..i + 1][..i] == m[..i];
  }

  // matrices
  method WriteMatrices(b: Bits, m: seq<Matrix>) returns (o: Outcome)
    requires b.Valid() && MatricesOk(m)
    modifies b
    ensures b.Valid()
    ensures o.Pass? <==> AllCodable(CodedMatrices(m))
    ensures o.Pass? ==> b.contents == old(b.contents) + PrintAllLists(CodedMatrices(m))
  {
    hide Packs, IsSquare, AllInSquare, CellsFrom, ValuesAt, Nonzero, PrintScalingList, Side;
    ghost var coded := CodedMatrices(m);
    var i := 0;
    while i < |m|
      invariant 0 <= i <= |m| && b.Valid()
      invariant forall k :: 0 <= k < i ==> Codable(coded[k])
      invariant b.contents == old(b.contents) + PrintAllLists(coded[..i])
    {
      OneMoreList(coded, i);
      Behind(old(b.contents), PrintAllLists(coded[..i]), PrintCoded(coded[i]));
      SidePositive(i);
      :- WriteScalingList(b, m[i].values, Side(i), m[i].dc, IsLarge(i));
      i := i + 1;
    }
    assert coded[..i] == coded;
    return Pass;
  }

  lemma SidePositive(i: nat)
    ensures Side(i) > 0
  {
  }

  method WritePpsTail(
    b: Bits, p: Picture, k: Coding, matrices: seq<Matrix>, ghost x: Pps, ghost lists: Option<seq<CodedList>>)
    returns (o: Outcome)
    requires b.Valid() && PpsOfPicture(x, p, k, lists) && (k.scalingListEnabled ==> MatricesOk(matrices))
    requires lists == ScalingLists(k, matrices)
    modifies b
    ensures b.Valid()
    ensures o.Pass? <==> lists.Some? ==> AllCodable(lists.value)
    ensures o.Pass? ==> b.contents == old(b.contents) + PpsTail(x, lists)
  {
    hide Packs, Codes, PpsOf, PpsFilters, PpsOffsets, PpsClosing, PrintAllLists, AllCodable, CodedMatrices, MatricesOk;
    ghost var printed := if lists.Some? then PrintAllLists(lists.value) else [];
    ghost var after4 := Codes(PpsClosing(x)) + [];
    ghost var after3 := printed + after4;
    ghost var after2 := Codes([Flag(lists.Some?)]) + after3;
    ghost var after1 := Codes(PpsOffsets(x)) + after2;
    Behind(b.contents, Codes(PpsFilters(x)), after1);
    WritePpsFilters(b, p, k, x, lists);
    Behind(b.contents, Codes(PpsOffsets(x)), after2);
    WritePpsOffsets(b, p, k, x, lists);
    Behind(b.contents, Codes([Flag(lists.Some?)]), after3);
    WritePpsListed(b, k);
    Behind(b.contents, printed, after4);
    Complete(b.contents);
    if k.scalingListEnabled {
      :- WriteMatrices(b, matrices);
    }
    Behind(b.contents, Codes(PpsClosing(x)), []);
    WritePpsClosing(b, p, k, x, lists);
    Complete(b.contents);
    return Pass;
  }

  method WritePpsTiles(b: Bits, p: Picture, k: Coding, ghost x: Pps, ghost lists: Option<seq<CodedList>>)
    requires b.Valid() && PpsOfPicture(x, p, k, lists)
    modifies b
    ensures b.Valid() && b.contents + PpsTail(x, lists) == old(b.contents) + PpsTiles(x, lists)
  {
    hide Packs, Codes, PpsGrid, PpsAcross, PpsTail, Sizes;
    ghost var after3 := Codes(PpsAcross(x)) + PpsTail(x, lists);
    ghost var after2 := Codes(PpsRows(x)) + after3;
    ghost var after1 := Codes(PpsColumns(x)) + after2;
    Behind(b.contents, Codes(PpsGrid(x)), after1);
    WritePpsGrid(b, p, k, x, lists);
    Behind(b.contents, Codes(PpsColumns(x)), after2);
    NothingDone(b.contents);
    if k.tilesEnabled {
      WriteSizes(b, k.columnWidthsMinus1, k.tileColumnsMinus1);
    }
    Behind(b.contents, Codes(PpsRows(x)), after3);
    NothingDone(b.contents);
    if k.tilesEnabled {
      WriteSizes(b, k.rowHeightsMinus1, k.tileRowsMinus1);
    }
    Behind(b.contents, Codes(PpsAcross(x)), PpsTail(x, lists));
    WritePpsAcross(b, p, k, x, lists);
  }

  // One picture parameter set; it fails exactly on a zero scaling coefficient or DC value.
  method WritePps(b: Bits, id: nat, p: Picture, k: Coding, matrices: seq<Matrix>) returns (o: Outcome)
    requires b.Valid() && b.contents == [] && id <= 63 && p.Checked() && k.WellFormed() && k.Checked()
    requires k.scalingListEnabled ==> MatricesOk(matrices)
    modifies b
    ensures b.Valid()
    ensures o.Pass? <==> ScalingLists(k, matrices).Some? ==> AllCodable(ScalingLists(k, matrices).value)
    ensures o.Pass? ==> b.contents == PpsBits(PpsOf(id, p, k, ScalingLists(k, matrices)), ScalingLists(k, matrices))
  {
    hide Packs, Codes, PpsOpening, PpsActive, PpsCuQp, PpsTools, PpsTiles, PpsTail, ScalingLists, AllCodable,
      MatricesOk;
    ghost var lists := ScalingLists(k, matrices);
    ghost var x := PpsOf(id, p, k, lists);
    ghost var after2 := Codes(PpsCuQp(x)) + PpsMiddle(x, lists);
    ghost var after1 := Codes(PpsActive(x)) + after2;
    Behind(b.contents, Codes(PpsOpening(x)), after1);
    WritePpsOpening(b, id, p, k, x, lists);
    Behind(b.contents, Codes(PpsActive(x)), after2);
    WritePpsActive(b, p, k, x, lists);
    Behind(b.contents, Codes(PpsCuQp(x)), PpsMiddle(x, lists));
    WritePpsCuQp(b, p, k, x, lists);
    Behind(b.contents, Codes(PpsTools(x)), PpsTiles(x, lists));
    WritePpsTools(b, p, k, x, lists);
    WritePpsTiles(b, p, k, x, lists);
    Whole(PpsBits(x, lists));
    o := WritePpsTail(b, p, k, matrices, x, lists);
  }
}
