/**
  The ranges that sections 7.4.3.2.1 and 7.4.3.3.1 of ITU-T H.265 hold the values of parameter sets to, and which values
  of a picture the driver lets through against them.
 */
module HevcRanges {
  import opened Bitstring
  import opened HevcMeaning
  import opened HevcPicture
  import opened HevcSets
  import opened HevcSetWriter
  import opened SyntaxElements
  import opened Wrappers

  function Least(a: nat, b: nat): nat {
    if a < b then a else b
  }

  // ---------- Sequence parameter sets ----------

  function MinCbLog2(x: Sps): nat {
    x.log2MinCbMinus3 + 3
  }

  function CtbLog2(x: Sps): nat {
    MinCbLog2(x) + x.log2DiffMaxMinCb
  }

  function MinTbLog2(x: Sps): nat {
    x.log2MinTbMinus2 + 2
  }

  predicate PcmAllowed(x: Sps, p: Pcm) {
    && p.depthLumaMinus1 + 1 <= x.depthLumaMinus8 + 8 && p.depthChromaMinus1 + 1 <= x.depthChromaMinus8 + 8
    && Least(MinCbLog2(x), 5) <= p.log2MinMinus3 + 3 <= Least(CtbLog2(x), 5)
    && p.log2MinMinus3 + 3 + p.log2DiffMaxMin <= Least(CtbLog2(x), 5)
  }

  predicate SpsAllowed(x: Sps) {
    && x.width > 0 && x.width % Pow2(MinCbLog2(x)) == 0
    && x.height > 0 && x.height % Pow2(MinCbLog2(x)) == 0
    && x.depthLumaMinus8 <= 8 && x.depthChromaMinus8 <= 8 && x.log2MaxPocLsbMinus4 <= 12
    && x.maxDecPicBufferingMinus1 <= 15 && x.maxNumReorder <= x.maxDecPicBufferingMinus1
    && MinTbLog2(x) < MinCbLog2(x) && MinTbLog2(x) + x.log2DiffMaxMinTb <= Least(CtbLog2(x), 5)
    && x.hierarchyInter <= CtbLog2(x) - MinTbLog2(x) && x.hierarchyIntra <= CtbLog2(x) - MinTbLog2(x)
    && (x.pcm.Some? ==> PcmAllowed(x, x.pcm.value))
  }

  // What a decoder that checks the ranges makes of a sequence parameter set.
  function DecodeSps(s: BitString): Result<Sps> {
    var x :- ParseSps(s);
    if SpsAllowed(x) then Success(x) else Failure(Invalid)
  }

  // The block sizes and PCM values of the picture that the driver does not check.
  predicate BlocksAllowed(depth: nat, p: Picture, k: Coding) {
    var minCb := p.log2MinCbMinus3 + 3;
    var ctb := minCb + p.log2DiffMaxMinCb;
    && p.width % Pow2(minCb) == 0 && p.height % Pow2(minCb) == 0
    && k.log2MinTbMinus2 <= p.log2MinCbMinus3
    && k.log2MinTbMinus2 + 2 + k.log2DiffMaxMinTb <= Least(ctb, 5)
    && k.log2MinTbMinus2 + 2 + k.hierarchyInter <= ctb && k.log2MinTbMinus2 + 2 + k.hierarchyIntra <= ctb
    && (k.pcmEnabled ==>
          && k.pcmDepthLumaMinus1 % 16 < depth + 8 && k.pcmDepthChromaMinus1 % 16 < depth + 8
          && Least(minCb, 5) <= k.log2MinPcmMinus3 + 3
          && k.log2MinPcmMinus3 + 3 + k.log2DiffMaxMinPcm <= Least(ctb, 5))
  }

  // Of the pictures that pass the checks of the driver, a decoder accepts the sequence parameter set exactly when these
  // sizes are in range, and then it holds the fields of the picture.
  lemma SpsAcceptedExactly(profile: nat, depth: nat, p: Picture, k: Coding)
    requires profile < 32 && depth <= 2 && p.Checked() && k.Checked()
    ensures DecodeSps(Aligned(SpsBits(SpsOf(profile, depth, p, k)))) ==
            if BlocksAllowed(depth, p, k) then Success(SpsOf(profile, depth, p, k)) else Failure(Invalid)
  {
    hide SpsBits, ParseSps, Aligned, Pow2;
    SpsBackIs(profile, depth, p, k);
  }

  // Transform blocks that are no smaller than the coding blocks.
  const LARGE_TRANSFORMS := Coding(
    0, 1, 0, 0, 0, false, false, false, 0, 0, 0, 0, false, false, false, false, 0, false, false, false, 0, 0, 0, false,
    false, false, false, false, false, 0, 0, seq(19, i => 0), seq(21, i => 0), false, false, false, false, 0,
    0, 0, false)

  // The driver sends them, and a decoder rejects the sequence parameter set.
  lemma LargeTransformsExample()
    ensures IDR_PICTURE.Checked() && LARGE_TRANSFORMS.WellFormed() && LARGE_TRANSFORMS.Checked()
    ensures DecodeSps(Aligned(SpsBits(SpsOf(1, 0, IDR_PICTURE, LARGE_TRANSFORMS)))) == Failure(Invalid)
  {
    hide SpsBits, DecodeSps, Aligned, Pow2;
    SpsAcceptedExactly(1, 0, IDR_PICTURE, LARGE_TRANSFORMS);
  }

  // ---------- Picture parameter sets ----------

  // The coding tree blocks along one side of the picture.
  function SideInCtbs(x: Sps, side: nat): nat {
    CeilDiv(side, Pow2(CtbLog2(x)))
  }

  function Total(sizesMinus1: seq<nat>): nat {
    if sizesMinus1 == [] then 0 else Total(sizesMinus1[..|sizesMinus1| - 1]) + sizesMinus1[|sizesMinus1| - 1] + 1
  }

  // The last column and row take what is left, which is not nothing.
  predicate TilesAllowed(columns: seq<nat>, rows: seq<nat>, width: nat, height: nat) {
    && (columns != [] || rows != [])
    && Total(columns) < width && Total(rows) < height
  }

  predicate ListAllowed(x: ReadList) {
    1 <= x.dc <= 255 && forall i :: 0 <= i < |x.coefs| ==> 1 <= x.coefs[i] <= 255
  }

  predicate PpsAllowed(sps: Sps, x: Pps) {
    && x.id <= 63 && x.activeL0Minus1 <= 14 && x.activeL1Minus1 <= 14
    && -(26 + 6 * sps.depthLumaMinus8) <= x.initQpMinus26 <= 25
    && (x.cuQpDeltaDepth.Some? ==> x.cuQpDeltaDepth.value <= sps.log2DiffMaxMinCb)
    && -12 <= x.cbQpOffset <= 12 && -12 <= x.crQpOffset <= 12
    && (x.tiles.Some? ==>
          TilesAllowed(x.tiles.value.columns, x.tiles.value.rows, SideInCtbs(sps, sps.width),
                       SideInCtbs(sps, sps.height)))
    && (x.deblocking.offsets.Some? ==>
          -6 <= x.deblocking.offsets.value.0 <= 6 && -6 <= x.deblocking.offsets.value.1 <= 6)
    && (x.scalingLists.Some? ==>
          forall i :: 0 <= i < |x.scalingLists.value| ==> ListAllowed(x.scalingLists.value[i]))
    && x.mergeLevelMinus2 + 2 <= CtbLog2(sps)
  }

  // What a decoder that holds the sequence parameter set makes of a picture parameter set.
  function DecodePps(sps: Sps, s: BitString): Result<Pps> {
    var x :- ParsePps(s);
    if PpsAllowed(sps, x) then Success(x) else Failure(Invalid)
  }

  // The values of the picture that the driver does not check.
  predicate ControlsAllowed(depth: nat, p: Picture, k: Coding)
    requires k.WellFormed() && k.Checked()
  {
    var ctb := Pow2(p.log2MinCbMinus3 + 3 + p.log2DiffMaxMinCb);
    && p.numRefIdxL0Minus1 <= 14 && p.numRefIdxL1Minus1 <= 14
    && -(26 + 6 * depth) <= k.initQpMinus26 <= 25
    && (k.cuQpDeltaEnabled ==> k.diffCuQpDeltaDepth <= p.log2DiffMaxMinCb)
    && -12 <= k.cbQpOffset <= 12 && -12 <= k.crQpOffset <= 12
    && (k.tilesEnabled ==>
          && k.tileColumnsMinus1 + k.tileRowsMinus1 > 0
          && Total(k.columnWidthsMinus1[..k.tileColumnsMinus1]) < CeilDiv(p.width, ctb)
          && Total(k.rowHeightsMinus1[..k.tileRowsMinus1]) < CeilDiv(p.height, ctb))
    && (!k.deblockingDisabled ==> -6 <= k.betaOffsetDiv2 <= 6 && -6 <= k.tcOffsetDiv2 <= 6)
    && k.mergeLevelMinus2 <= p.log2MinCbMinus3 + 1 + p.log2DiffMaxMinCb
  }

  // Lists that can be printed hold no zero.
  lemma {:induction false} PrintedAllowed(m: seq<CodedList>)
    requires AllCodable(m)
    ensures forall i :: 0 <= i < |m| ==> ListAllowed(AsRead(m)[i])
  {
    if m != [] {
      var n := |m| - 1;
      PrintedAllowed(m[..n]);
      assert Codable(m[n]);
    }
  }

  // Of the pictures that pass the checks of the driver, a decoder accepts the picture parameter sets exactly when these
  // values are in range, and then they hold the fields of the picture.
  lemma PpsAcceptedExactly(
    profile: nat, depth: nat, id: nat, p: Picture, k: Coding, matrices: seq<Matrix>)
    requires profile < 32 && depth <= 2 && id <= 63 && k.WellFormed() && k.Checked() && p.Checked()
    requires k.scalingListEnabled ==> MatricesOk(matrices) && AllCodable(CodedMatrices(matrices))
    ensures
      var lists := ScalingLists(k, matrices);
      var x := PpsOf(id, p, k, lists);
      DecodePps(SpsOf(profile, depth, p, k), Aligned(PpsBits(x, lists))) ==
      if ControlsAllowed(depth, p, k) then Success(x) else Failure(Invalid)
  {
    hide PpsBits, ParsePps, Aligned, Pow2, Total, CodedMatrices, AsRead, AllCodable, CeilDiv;
    PpsBackIs(id, p, k, matrices);
    if k.scalingListEnabled {
      PrintedAllowed(CodedMatrices(matrices));
    }
  }
}
