/** The fields of the VA picture and slice parameter buffers that the HEVC rebuilder reads. */
module HevcPicture {
  import opened Bitstring

  const INVALID_SURFACE: uint32 := 0xffff_ffff

  /** One VAPictureHEVC with its flags. */
  datatype VaPicture = VaPicture(
    surface: uint32, poc: int32, invalid: bool, longTerm: bool,
    stCurrBefore: bool, stCurrAfter: bool, ltCurr: bool)
  {
    predicate Present() {
      surface != INVALID_SURFACE && !invalid
    }

    predicate Used() {
      stCurrBefore || stCurrAfter || ltCurr
    }
  }

  function CeilDiv(a: nat, m: nat): nat
    requires m > 0
  {
    (a + m - 1) / m
  }

  datatype Picture = Picture(
    currPoc: int32,
    frames: seq<VaPicture>,
    width: uint16,
    height: uint16,
    log2MaxPocLsbMinus4: uint8,
    stRpsBits: uint32,
    numShortTermRps: uint8,
    numLongTermSps: uint8,
    numRefIdxL0Minus1: uint8,
    numRefIdxL1Minus1: uint8,
    log2MinCbMinus3: uint8,
    log2DiffMaxMinCb: uint8,
    numExtraSliceHeaderBits: uint8,
    longTermPresent: bool,
    temporalMvp: bool,
    outputFlagPresent: bool,
    dependentEnabled: bool,
    sao: bool,
    listsModification: bool)
  {
    // The sequence parameter checks of hevc_bitstream that the slice rewrite relies on.
    predicate Checked() {
      && width > 0 && height > 0
      && log2MaxPocLsbMinus4 <= 12
      && numShortTermRps <= 64 && numLongTermSps <= 32
      && log2MinCbMinus3 + log2DiffMaxMinCb <= 3
      && numExtraSliceHeaderBits <= 7
    }

    function LsbBits(): nat {
      log2MaxPocLsbMinus4 + 4
    }

    // PicSizeInCtbsY
    function CtbCount(): nat {
      var ctb := Pow2(log2MinCbMinus3 + 3 + log2DiffMaxMinCb);
      CeilDiv(width, ctb) * CeilDiv(height, ctb)
    }
  }

  /** The fields that only the emitted parameter sets carry on. */
  datatype Coding = Coding(
    maxDecPicBufferingMinus1: uint8,
    log2MinTbMinus2: uint8,
    log2DiffMaxMinTb: uint8,
    hierarchyInter: uint8,
    hierarchyIntra: uint8,
    scalingListEnabled: bool,
    amp: bool,
    pcmEnabled: bool,
    pcmDepthLumaMinus1: uint8,
    pcmDepthChromaMinus1: uint8,
    log2MinPcmMinus3: uint8,
    log2DiffMaxMinPcm: uint8,
    pcmLoopFilterDisabled: bool,
    strongIntra: bool,
    signHiding: bool,
    cabacInit: bool,
    initQpMinus26: int8,
    constrainedIntra: bool,
    transformSkip: bool,
    cuQpDeltaEnabled: bool,
    diffCuQpDeltaDepth: uint8,
    cbQpOffset: int8,
    crQpOffset: int8,
    sliceChromaOffsets: bool,
    weightedPred: bool,
    weightedBipred: bool,
    transquantBypass: bool,
    tilesEnabled: bool,
    entropySync: bool,
    tileColumnsMinus1: uint8,
    tileRowsMinus1: uint8,
    columnWidthsMinus1: seq<uint16>,
    rowHeightsMinus1: seq<uint16>,
    loopFilterAcrossTiles: bool,
    loopFilterAcrossSlices: bool,
    deblockingOverride: bool,
    deblockingDisabled: bool,
    betaOffsetDiv2: int8,
    tcOffsetDiv2: int8,
    mergeLevelMinus2: uint8,
    headerExtension: bool)
  {
    // The checks of hevc_bitstream on these fields.
    predicate Checked() {
      maxDecPicBufferingMinus1 <= 15 && tileColumnsMinus1 <= 19 && tileRowsMinus1 <= 21
    }

    predicate WellFormed() {
      |columnWidthsMinus1| == 19 && |rowHeightsMinus1| == 21
    }
  }

  /** One scaling matrix in raster order, and the DC value of a large one. */
  datatype Matrix = Matrix(values: seq<uint8>, dc: uint8)

  // ReferenceFrames is an array of fifteen.
  predicate WellFormed(p: Picture) {
    |p.frames| == 15
  }

  /** One VASliceParameterBufferHEVC, and the slice's NAL unit bytes. */
  datatype Slice = Slice(
    bytes: seq<byte>, address: uint32, sliceType: nat, dataByteOffset: uint32,
    refPicList0: seq<uint8>, refPicList1: seq<uint8>)
  {
    function RefPicList(l: nat): seq<uint8> {
      if l == 0 then refPicList0 else refPicList1
    }
  }

  predicate WellFormedSlice(x: Slice) {
    x.sliceType < 4 && |x.refPicList0| == 15 && |x.refPicList1| == 15
  }
}
