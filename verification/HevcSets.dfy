/**
  Video, sequence and picture parameter sets as ITU-T H.265 lays them out in sections 7.3.2.1 to 7.3.2.3. The parsers
  stop at syntax the driver never writes: more chroma formats, cropping, predicted sets, VUI and extensions.
 */
module HevcSets {
  import opened Bitstring
  import opened ExpGolomb
  import opened HevcElements
  import opened HevcScaling
  import opened Limits
  import opened SyntaxElements
  import opened Wrappers

  // rbsp_trailing_bits() and nothing behind it.
  function Closed<T>(s: BitString, pos: nat, x: T): Result<T> {
    if pos <= |s| && s[pos..] == AlignmentBits(pos) then Success(x) else Failure(Unsupported)
  }

  lemma ClosedBehind<T>(bits: BitString, x: T)
    ensures Closed(Aligned(bits), |bits|, x) == Success(x)
  {
    assert Aligned(bits)[|bits|..] == AlignmentBits(|bits|);
  }

  predicate AllZero(es: seq<Element>) {
    forall i :: 0 <= i < |es| ==> es[i].Number() == 0
  }

  // ---------- Profile, tier and level ----------

  // profile_tier_level(1, 6): neighbouring fields of fixed length are taken together, the flags of the six absent
  // sub-layers and the reserved bits behind them in the last one.
  function ProfileTierLevel(profile: nat): seq<Element>
    requires profile < 32
  {
    [U(0, 3), U(profile, 5), U(Pow2(31 - profile), 32), U(11, 4), U(0, 32), U(0, 12), U(186, 8), U(0, 16)]
  }

  const PTL_KINDS := [UKind(3), UKind(5), UKind(32), UKind(4), UKind(32), UKind(12), UKind(8), UKind(16)]

  lemma PtlFits(profile: nat)
    requires profile < 32
    ensures AllFit(ProfileTierLevel(profile)) && Shaped(ProfileTierLevel(profile), PTL_KINDS)
  {
    Pow2Values();
    Pow2Monotonic(31 - profile, 31);
    SmallPowers();
    hide Pow2;
  }

  lemma SmallPowers()
    ensures Pow2(1) == 2 && Pow2(2) == 4 && Pow2(3) == 8 && Pow2(4) == 16 && Pow2(5) == 32 && Pow2(6) == 64
    ensures Pow2(8) == 256 && Pow2(12) == 4096 && Pow2(16) == 65536 && Pow2(31) == 0x8000_0000
    ensures Pow2(32) == 0x1_0000_0000
  {
    assert Pow2(8) == 256;
    assert Pow2(12) == 16 * Pow2(8);
    assert Pow2(16) == 16 * Pow2(12);
    assert Pow2(20) == 16 * Pow2(16);
    assert Pow2(24) == 16 * Pow2(20);
    assert Pow2(28) == 16 * Pow2(24);
  }

  function Nat(e: Element): nat {
    if e.Number() >= 0 then e.Number() else 0
  }

  /** Profile space and tier, profile, compatibility flags, source flags, reserved bits, level, sub-layer flags. */
  datatype Ptl = Ptl(
    tier: nat, profile: nat, compatible: nat, source: nat, reserved: nat, constraints: nat, level: nat, subLayers: nat)

  function PtlOf(l: seq<Element>): Ptl
    requires |l| == 8
  {
    Ptl(Nat(l[0]), Nat(l[1]), Nat(l[2]), Nat(l[3]), Nat(l[4]), Nat(l[5]), Nat(l[6]), Nat(l[7]))
  }

  // Sub-layer ordering, told for the highest sub-layer only.
  function Ordering(minus1: nat, reorder: nat, latency: nat): seq<Element> {
    [Flag(false), Ue(minus1), Ue(reorder), Ue(latency)]
  }

  const ORDERING_KINDS := [UKind(1), UeKind, UeKind, UeKind]

  // ---------- Video parameter sets ----------

  datatype Vps = Vps(
    id: nat, baseLayer: nat, layersMinus1: nat, nested: bool, ptl: Ptl, maxDecPicBufferingMinus1: nat,
    maxNumReorder: nat, maxLatencyPlus1: nat)

  const VPS_OPENING_KINDS := [UKind(4), UKind(2), UKind(6), UKind(3), UKind(1), UKind(16)]

  const VPS_CLOSING_KINDS := [UKind(6), UeKind, UKind(1), UKind(1)]

  // Seven sub-layers of which none is described, sixteen reserved ones, no layer sets, timing or extension.
  function ParseVps(s: BitString): Result<Vps> {
    var (a, p0) :- ReadElements(s, 0, VPS_OPENING_KINDS);
    var (l, p1) :- ReadElements(s, p0, PTL_KINDS);
    var (o, p2) :- ReadElements(s, p1, ORDERING_KINDS);
    var (e, q) :- ReadElements(s, p2, VPS_CLOSING_KINDS);
    if a[3].Number() != 6 || a[5].Number() != 65535 || l[7].Number() != 0 || o[0].Number() != 0 || !AllZero(e) then
      Failure(Unsupported)
    else
      Closed(s, q, Vps(Nat(a[0]), Nat(a[1]), Nat(a[2]), a[4].Number() != 0, PtlOf(l), Nat(o[1]), Nat(o[2]), Nat(o[3])))
  }

  // ---------- Sequence parameter sets ----------

  datatype Pcm = Pcm(
    depthLumaMinus1: nat, depthChromaMinus1: nat, log2MinMinus3: nat, log2DiffMaxMin: nat, loopFilterDisabled: bool)

  datatype Sps = Sps(
    ptl: Ptl, width: nat, height: nat, depthLumaMinus8: nat, depthChromaMinus8: nat, log2MaxPocLsbMinus4: nat,
    maxDecPicBufferingMinus1: nat, maxNumReorder: nat, maxLatencyPlus1: nat,
    log2MinCbMinus3: nat, log2DiffMaxMinCb: nat, log2MinTbMinus2: nat, log2DiffMaxMinTb: nat,
    hierarchyInter: nat, hierarchyIntra: nat, scalingListEnabled: bool, amp: bool, sao: bool, pcm: Option<Pcm>,
    shortTermRps: nat, longTermPresent: bool, longTermSps: nat, temporalMvp: bool, strongIntra: bool)

  function SpsOpening(): seq<Element> {
    [U(0, 4), U(6, 3), U(1, 1)]
  }

  const SPS_OPENING_KINDS := [UKind(4), UKind(3), UKind(1)]

  function SpsSize(x: Sps): seq<Element> {
    [Ue(0), Ue(1), Ue(x.width), Ue(x.height), Flag(false)]
  }

  const SPS_SIZE_KINDS := [UeKind, UeKind, UeKind, UeKind, UKind(1)]

  function SpsDepth(x: Sps): seq<Element> {
    [Ue(x.depthLumaMinus8), Ue(x.depthChromaMinus8), Ue(x.log2MaxPocLsbMinus4)]
  }

  const SPS_DEPTH_KINDS := [UeKind, UeKind, UeKind]

  function SpsBlocks(x: Sps): seq<Element> {
    [Ue(x.log2MinCbMinus3), Ue(x.log2DiffMaxMinCb), Ue(x.log2MinTbMinus2), Ue(x.log2DiffMaxMinTb),
     Ue(x.hierarchyInter), Ue(x.hierarchyIntra), Flag(x.scalingListEnabled)]
  }

  const SPS_BLOCKS_KINDS := [UeKind, UeKind, UeKind, UeKind, UeKind, UeKind, UKind(1)]

  // sps_scaling_list_data_present_flag: the picture parameter sets carry the lists.
  function SpsLists(x: Sps): seq<Element> {
    if x.scalingListEnabled then [Flag(false)] else []
  }

  function SpsTools(x: Sps): seq<Element> {
    [Flag(x.amp), Flag(x.sao), Flag(x.pcm.Some?)]
  }

  const THREE_FLAGS := [UKind(1), UKind(1), UKind(1)]

  function SpsPcm(x: Sps): seq<Element> {
    if x.pcm.None? then []
    else
      var p := x.pcm.value;
      [U(p.depthLumaMinus1, 4), U(p.depthChromaMinus1, 4), Ue(p.log2MinMinus3), Ue(p.log2DiffMaxMin),
       Flag(p.loopFilterDisabled)]
  }

  const SPS_PCM_KINDS := [UKind(4), UKind(4), UeKind, UeKind, UKind(1)]

  function SpsSets(x: Sps): seq<Element> {
    [Ue(x.shortTermRps), Flag(x.longTermPresent)]
  }

  function SpsLongTerm(x: Sps): seq<Element> {
    if x.longTermPresent then [Ue(x.longTermSps)] else []
  }

  function SpsClosing(x: Sps): seq<Element> {
    [Flag(x.temporalMvp), Flag(x.strongIntra), Flag(false), Flag(false)]
  }

  const FOUR_FLAGS := [UKind(1), UKind(1), UKind(1), UKind(1)]

  function SpsTail(x: Sps): BitString {
    Codes(SpsTools(x)) + (Codes(SpsPcm(x)) + (Codes(SpsSets(x)) + (Codes(SpsLongTerm(x)) +
    (Codes(SpsClosing(x)) + []))))
  }

  function SpsMiddle(x: Sps): BitString {
    Codes(SpsDepth(x)) + (Codes(Ordering(x.maxDecPicBufferingMinus1, x.maxNumReorder, x.maxLatencyPlus1)) +
    (Codes(SpsBlocks(x)) + (Codes(SpsLists(x)) + SpsTail(x))))
  }

  // seq_parameter_set_rbsp() before its trailing bits.
  function SpsBits(x: Sps): BitString
    requires x.ptl.profile < 32
  {
    Codes(SpsOpening()) + (Codes(ProfileTierLevel(x.ptl.profile)) + (Codes(SpsSize(x)) + SpsMiddle(x)))
  }

  // Opening, profile and size: seven sub-layers of which none is described, chroma 4:2:0, no cropping.
  function ParseSpsGeneral(s: BitString): Result<(Sps, nat)> {
    var (a, p0) :- ReadElements(s, 0, SPS_OPENING_KINDS);
    var (l, p1) :- ReadElements(s, p0, PTL_KINDS);
    var (z, q) :- ReadElements(s, p1, SPS_SIZE_KINDS);
    if a[1].Number() != 6 || l[7].Number() != 0 || z[1].Number() != 1 || z[4].Number() != 0 then Failure(Unsupported)
    else Success((NO_SPS.(ptl := PtlOf(l), width := Nat(z[2]), height := Nat(z[3])), q))
  }

  function ParseSpsBlocks(s: BitString, pos: nat, head: Sps): Result<(Sps, nat)> {
    var (d, p0) :- ReadElements(s, pos, SPS_DEPTH_KINDS);
    var (o, p1) :- ReadElements(s, p0, ORDERING_KINDS);
    var (b, p2) :- ReadElements(s, p1, SPS_BLOCKS_KINDS);
    var (m, q) :- ReadIf(b[6].Number() != 0, s, p2, [UKind(1)]);
    if o[0].Number() != 0 || !AllZero(m) then Failure(Unsupported)
    else
      Success((head.(
        depthLumaMinus8 := Nat(d[0]), depthChromaMinus8 := Nat(d[1]), log2MaxPocLsbMinus4 := Nat(d[2]),
        maxDecPicBufferingMinus1 := Nat(o[1]), maxNumReorder := Nat(o[2]), maxLatencyPlus1 := Nat(o[3]),
        log2MinCbMinus3 := Nat(b[0]), log2DiffMaxMinCb := Nat(b[1]), log2MinTbMinus2 := Nat(b[2]),
        log2DiffMaxMinTb := Nat(b[3]), hierarchyInter := Nat(b[4]), hierarchyIntra := Nat(b[5]),
        scalingListEnabled := b[6].Number() != 0), q))
  }

  function ParseSpsTail(s: BitString, pos: nat, head: Sps): Result<Sps> {
    var (t, p0) :- ReadElements(s, pos, THREE_FLAGS);
    var (c, p1) :- ReadIf(t[2].Number() != 0, s, p0, SPS_PCM_KINDS);
    var (r, p2) :- ReadElements(s, p1, [UeKind, UKind(1)]);
    var (l, p3) :- ReadIf(r[1].Number() != 0, s, p2, [UeKind]);
    var (e, q) :- ReadElements(s, p3, FOUR_FLAGS);
    // Predicted sets, long-term pictures, VUI and extensions stop this parser.
    if r[0].Number() != 0 || !AllZero(l) || e[2].Number() != 0 || e[3].Number() != 0 then Failure(Unsupported)
    else
      Closed(s, q, head.(
        amp := t[0].Number() != 0, sao := t[1].Number() != 0,
        pcm := if |c| == 5 then Some(PcmOf(c)) else None,
        shortTermRps := 0, longTermPresent := r[1].Number() != 0, longTermSps := 0,
        temporalMvp := e[0].Number() != 0, strongIntra := e[1].Number() != 0))
  }

  function PcmOf(c: seq<Element>): Pcm
    requires |c| == 5
  {
    Pcm(Nat(c[0]), Nat(c[1]), Nat(c[2]), Nat(c[3]), c[4].Number() != 0)
  }

  const NO_SPS := Sps(
    Ptl(0, 0, 0, 0, 0, 0, 0, 0), 0, 0, 0, 0, 0, 0, 0, 0, 0, 0, 0, 0, 0, 0, false, false, false, None, 0, false, 0,
    false, false)

  function ParseSps(s: BitString): Result<Sps> {
    var (general, p0) :- ParseSpsGeneral(s);
    var (head, p1) :- ParseSpsBlocks(s, p0, general);
    ParseSpsTail(s, p1, head)
  }

  // The values that fit their fields, in a set without predicted sets and long-term pictures of its own.
  predicate SpsOk(x: Sps) {
    && x.ptl.profile < 32 && x.ptl == PtlOf(ProfileTierLevel(x.ptl.profile))
    && x.width < UINT32_MAX && x.height < UINT32_MAX
    && x.depthLumaMinus8 < UINT32_MAX && x.depthChromaMinus8 < UINT32_MAX && x.log2MaxPocLsbMinus4 < UINT32_MAX
    && x.maxDecPicBufferingMinus1 < UINT32_MAX && x.maxNumReorder < UINT32_MAX && x.maxLatencyPlus1 < UINT32_MAX
    && x.log2MinCbMinus3 < UINT32_MAX && x.log2DiffMaxMinCb < UINT32_MAX
    && x.log2MinTbMinus2 < UINT32_MAX && x.log2DiffMaxMinTb < UINT32_MAX
    && x.hierarchyInter < UINT32_MAX && x.hierarchyIntra < UINT32_MAX
    && (x.pcm.Some? ==> PcmOk(x.pcm.value))
    && x.shortTermRps == 0 && x.longTermSps == 0
  }

  predicate PcmOk(p: Pcm) {
    && p.depthLumaMinus1 < 16 && p.depthChromaMinus1 < 16
    && p.log2MinMinus3 < UINT32_MAX && p.log2DiffMaxMin < UINT32_MAX
  }

  lemma SpsTailFits(x: Sps)
    requires SpsOk(x)
    ensures AllFit(SpsTools(x)) && Shaped(SpsTools(x), THREE_FLAGS)
    ensures AllFit(SpsPcm(x)) && (x.pcm.Some? ==> Shaped(SpsPcm(x), SPS_PCM_KINDS))
    ensures AllFit(SpsSets(x)) && Shaped(SpsSets(x), [UeKind, UKind(1)])
    ensures AllFit(SpsLongTerm(x)) && (x.longTermPresent ==> Shaped(SpsLongTerm(x), [UeKind]))
    ensures AllFit(SpsClosing(x)) && Shaped(SpsClosing(x), FOUR_FLAGS)
  {
    SmallPowers();
    hide Pow2;
  }

  lemma SpsTailBack(s: BitString, pos: nat, x: Sps, head: Sps, bits: BitString)
    requires SpsOk(x) && s == Aligned(bits) && Reads(s, pos, SpsTail(x), |bits|)
    requires x == head.(
      amp := x.amp, sao := x.sao, pcm := x.pcm, shortTermRps := 0, longTermPresent := x.longTermPresent,
      longTermSps := 0, temporalMvp := x.temporalMvp, strongIntra := x.strongIntra)
    ensures ParseSpsTail(s, pos, head) == Success(x)
  {
    hide Codes, ReadElements, ReadIf, At, AllFit, Shaped, Aligned, Closed;
    SpsTailFits(x);
    var t, c, r, l, e := SpsTools(x), SpsPcm(x), SpsSets(x), SpsLongTerm(x), SpsClosing(x);
    var after3 := Codes(e) + [];
    var after2 := Codes(l) + after3;
    var after1 := Codes(r) + after2;
    ReadNext(s, pos, t, THREE_FLAGS, Codes(c) + after1, |bits|);
    var p0 := pos + |Codes(t)|;
    ReadNextIf(s, p0, x.pcm.Some?, c, SPS_PCM_KINDS, after1, |bits|);
    var p1 := p0 + |Codes(c)|;
    ReadNext(s, p1, r, [UeKind, UKind(1)], after2, |bits|);
    var p2 := p1 + |Codes(r)|;
    ReadNextIf(s, p2, x.longTermPresent, l, [UeKind], after3, |bits|);
    var p3 := p2 + |Codes(l)|;
    ReadNext(s, p3, e, FOUR_FLAGS, [], |bits|);
    ClosedBehind(bits, x);
  }

  lemma SpsHeadFits(x: Sps)
    requires SpsOk(x)
    ensures AllFit(SpsOpening()) && Shaped(SpsOpening(), SPS_OPENING_KINDS)
    ensures AllFit(SpsSize(x)) && Shaped(SpsSize(x), SPS_SIZE_KINDS)
    ensures AllFit(SpsDepth(x)) && Shaped(SpsDepth(x), SPS_DEPTH_KINDS)
    ensures AllFit(SpsLists(x)) && (x.scalingListEnabled ==> Shaped(SpsLists(x), [UKind(1)]))
  {
    SmallPowers();
    hide Pow2;
  }

  lemma SpsBlocksFit(x: Sps)
    requires SpsOk(x)
    ensures
      var o := Ordering(x.maxDecPicBufferingMinus1, x.maxNumReorder, x.maxLatencyPlus1);
      AllFit(o) && Shaped(o, ORDERING_KINDS)
    ensures AllFit(SpsBlocks(x)) && Shaped(SpsBlocks(x), SPS_BLOCKS_KINDS)
  {
    SmallPowers();
    hide Pow2;
  }

  function SpsGeneral(x: Sps): Sps {
    NO_SPS.(ptl := x.ptl, width := x.width, height := x.height)
  }

  function SpsHead(x: Sps): Sps {
    x.(amp := false, sao := false, pcm := None, longTermPresent := false, temporalMvp := false, strongIntra := false)
  }

  lemma SpsGeneralBack(s: BitString, x: Sps, q: nat)
    requires SpsOk(x) && Reads(s, 0, SpsBits(x), q)
    ensures
      var p := |Codes(SpsOpening())| + |Codes(ProfileTierLevel(x.ptl.profile))| + |Codes(SpsSize(x))|;
      ParseSpsGeneral(s) == Success((SpsGeneral(x), p)) && Reads(s, p, SpsMiddle(x), q)
  {
    hide Codes, ReadElements, At, AllFit, Shaped, SpsMiddle, Pow2;
    SpsHeadFits(x);
    PtlFits(x.ptl.profile);
    var a, l, z := SpsOpening(), ProfileTierLevel(x.ptl.profile), SpsSize(x);
    var after1 := Codes(z) + SpsMiddle(x);
    ReadNext(s, 0, a, SPS_OPENING_KINDS, Codes(l) + after1, q);
    ReadNext(s, |Codes(a)|, l, PTL_KINDS, after1, q);
    ReadNext(s, |Codes(a)| + |Codes(l)|, z, SPS_SIZE_KINDS, SpsMiddle(x), q);
  }

  // What ParseSpsBlocks makes of these elements.
  lemma SpsHeadIs(x: Sps)
    requires SpsOk(x)
    ensures |SpsDepth(x)| == 3 && |SpsBlocks(x)| == 7
    ensures
      var d, b := SpsDepth(x), SpsBlocks(x);
      var o := Ordering(x.maxDecPicBufferingMinus1, x.maxNumReorder, x.maxLatencyPlus1);
      && |o| == 4 && o[0].Number() == 0 && AllZero(SpsLists(x))
      && (x.scalingListEnabled <==> b[6].Number() != 0) && (!x.scalingListEnabled ==> SpsLists(x) == [])
      && SpsHead(x) == SpsGeneral(x).(
        depthLumaMinus8 := Nat(d[0]), depthChromaMinus8 := Nat(d[1]), log2MaxPocLsbMinus4 := Nat(d[2]),
        maxDecPicBufferingMinus1 := Nat(o[1]), maxNumReorder := Nat(o[2]), maxLatencyPlus1 := Nat(o[3]),
        log2MinCbMinus3 := Nat(b[0]), log2DiffMaxMinCb := Nat(b[1]), log2MinTbMinus2 := Nat(b[2]),
        log2DiffMaxMinTb := Nat(b[3]), hierarchyInter := Nat(b[4]), hierarchyIntra := Nat(b[5]),
        scalingListEnabled := b[6].Number() != 0)
  {
    hide Pow2, ProfileTierLevel;
  }

  lemma SpsBlocksBack(s: BitString, pos: nat, x: Sps, q: nat)
    requires SpsOk(x) && Reads(s, pos, SpsMiddle(x), q)
    ensures
      var p := pos + |Codes(SpsDepth(x))| +
        |Codes(Ordering(x.maxDecPicBufferingMinus1, x.maxNumReorder, x.maxLatencyPlus1))| +
        |Codes(SpsBlocks(x))| + |Codes(SpsLists(x))|;
      ParseSpsBlocks(s, pos, SpsGeneral(x)) == Success((SpsHead(x), p)) && Reads(s, p, SpsTail(x), q)
  {
    hide Codes, ReadElements, ReadIf, At, AllFit, Shaped, SpsTail, Pow2, SpsOk, SpsDepth, SpsBlocks, SpsLists, Ordering;
    SpsHeadFits(x);
    SpsBlocksFit(x);
    SpsHeadIs(x);
    var d, o, b, m := SpsDepth(x), Ordering(x.maxDecPicBufferingMinus1, x.maxNumReorder, x.maxLatencyPlus1),
      SpsBlocks(x), SpsLists(x);
    var after3 := SpsTail(x);
    var after2 := Codes(m) + after3;
    var after1 := Codes(b) + after2;
    ReadNext(s, pos, d, SPS_DEPTH_KINDS, Codes(o) + after1, q);
    var p0 := pos + |Codes(d)|;
    ReadNext(s, p0, o, ORDERING_KINDS, after1, q);
    var p1 := p0 + |Codes(o)|;
    ReadNext(s, p1, b, SPS_BLOCKS_KINDS, after2, q);
    ReadNextIf(s, p1 + |Codes(b)|, x.scalingListEnabled, m, [UKind(1)], after3, q);
  }

  lemma SpsRanges(x: Sps)
    requires SpsOk(x)
    ensures x.ptl.profile < 32 && x.shortTermRps == 0 && x.longTermSps == 0
  {
  }

  // A printed sequence parameter set is read back.
  lemma SpsBack(x: Sps)
    requires SpsOk(x)
    ensures ParseSps(Aligned(SpsBits(x))) == Success(x)
  {
    hide Codes, At, Aligned, SpsBits, SpsMiddle, SpsTail, ParseSpsGeneral, ParseSpsBlocks, ParseSpsTail, Pow2, SpsDepth,
      SpsBlocks, SpsLists, SpsSize, Ordering, ProfileTierLevel, SpsOk;
    SpsRanges(x);
    var bits := SpsBits(x);
    var s := Aligned(bits);
    AlignedReads(bits);
    SpsGeneralBack(s, x, |bits|);
    var p0 := |Codes(SpsOpening())| + |Codes(ProfileTierLevel(x.ptl.profile))| + |Codes(SpsSize(x))|;
    SpsBlocksBack(s, p0, x, |bits|);
    var p1 := p0 + |Codes(SpsDepth(x))| +
      |Codes(Ordering(x.maxDecPicBufferingMinus1, x.maxNumReorder, x.maxLatencyPlus1))| +
      |Codes(SpsBlocks(x))| + |Codes(SpsLists(x))|;
    SpsTailBack(s, p1, x, SpsHead(x), bits);
  }

  lemma AlignedReads(bits: BitString)
    ensures Reads(Aligned(bits), 0, bits, |bits|)
  {
    ReadsPrefix(bits, AlignmentBits(|bits|));
  }

  // ---------- Scaling lists ----------

  /** One coded list: its coefficients in scan order, and the DC value of a large one. */
  datatype CodedList = CodedList(coefs: seq<uint8>, dc: uint8, large: bool)

  // The number of coefficients of list i, and whether it has a DC value: sizes 4x4, 8x8, 16x16 and 32x32.
  function ListSize(i: nat): nat {
    if i < 6 then 16 else 64
  }

  predicate IsLarge(i: nat) {
    i >= 12
  }

  const LISTS := 20

  function PrintCoded(x: CodedList): BitString {
    PrintScalingList(x.coefs, x.dc, x.large)
  }

  function PrintAllLists(m: seq<CodedList>): BitString {
    if m == [] then [] else PrintAllLists(m[..|m| - 1]) + PrintCoded(m[|m| - 1])
  }

  /** What a decoder takes from one list. */
  datatype ReadList = ReadList(dc: int, coefs: seq<int>)

  // scaling_list_data() as far as its first n lists, all of them explicit.
  function ParseAllLists(s: BitString, pos: nat, n: nat): Result<(seq<ReadList>, nat)>
    decreases n
  {
    if n == 0 then Success(([], pos))
    else
      var (before, p) :- ParseAllLists(s, pos, n - 1);
      var (list, q) :- ParseScalingList(s, p, ListSize(n - 1), IsLarge(n - 1));
      Success((before + [ReadList(list.0, list.1)], q))
  }

  predicate ListsOk(m: seq<CodedList>) {
    forall i :: 0 <= i < |m| ==> |m[i].coefs| == ListSize(i) && m[i].large == IsLarge(i)
  }

  function AsRead(m: seq<CodedList>): (r: seq<ReadList>)
    ensures |r| == |m|
  {
    if m == [] then []
    else
      var x := m[|m| - 1];
      AsRead(m[..|m| - 1]) + [ReadList(if x.large then x.dc else 16, x.coefs)]
  }

  lemma {:induction false} ListsBack(s: BitString, pos: nat, m: seq<CodedList>, q: nat)
    requires ListsOk(m) && Reads(s, pos, PrintAllLists(m), q)
    ensures ParseAllLists(s, pos, |m|) == Success((AsRead(m), q))
    decreases |m|
  {
    hide At, PrintScalingList, ParseScalingList;
    if m != [] {
      var n := |m| - 1;
      ReadsConcat(s, pos, PrintAllLists(m[..n]), PrintCoded(m[n]), q);
      ListsBack(s, pos, m[..n], pos + |PrintAllLists(m[..n])|);
      ListBack(s, pos + |PrintAllLists(m[..n])|, m[n], q);
    }
  }

  lemma ListBack(s: BitString, pos: nat, x: CodedList, q: nat)
    requires Reads(s, pos, PrintCoded(x), q)
    ensures ParseScalingList(s, pos, |x.coefs|, x.large) == Success(((if x.large then x.dc else 16, x.coefs), q))
  {
    ScalingListReads(s, pos, x.coefs, x.dc, x.large, q);
  }

  // ---------- Picture parameter sets ----------

  datatype Tiles = Tiles(columns: seq<nat>, rows: seq<nat>, loopFilterAcross: bool)

  datatype Deblocking = Deblocking(overrideEnabled: bool, offsets: Option<(int, int)>)

  datatype Pps = Pps(
    id: nat, dependent: bool, outputFlagPresent: bool, extraBits: nat, signHiding: bool, cabacInit: bool,
    activeL0Minus1: nat, activeL1Minus1: nat, initQpMinus26: int, constrainedIntra: bool, transformSkip: bool,
    cuQpDeltaDepth: Option<nat>, cbQpOffset: int, crQpOffset: int, sliceChromaOffsets: bool, weightedPred: bool,
    weightedBipred: bool, transquantBypass: bool, entropySync: bool, tiles: Option<Tiles>, loopFilterAcross: bool,
    deblocking: Deblocking, scalingLists: Option<seq<ReadList>>, listsModification: bool, mergeLevelMinus2: nat,
    headerExtension: bool)

  function PpsOpening(x: Pps): seq<Element> {
    [Ue(x.id), Ue(0), Flag(x.dependent), Flag(x.outputFlagPresent), U(x.extraBits, 3), Flag(x.signHiding),
     Flag(x.cabacInit)]
  }

  const PPS_OPENING_KINDS := [UeKind, UeKind, UKind(1), UKind(1), UKind(3), UKind(1), UKind(1)]

  function PpsActive(x: Pps): seq<Element> {
    [Ue(x.activeL0Minus1), Ue(x.activeL1Minus1), Se(x.initQpMinus26), Flag(x.constrainedIntra), Flag(x.transformSkip),
     Flag(x.cuQpDeltaDepth.Some?)]
  }

  const PPS_ACTIVE_KINDS := [UeKind, UeKind, SeKind, UKind(1), UKind(1), UKind(1)]

  function PpsCuQp(x: Pps): seq<Element> {
    if x.cuQpDeltaDepth.Some? then [Ue(x.cuQpDeltaDepth.value)] else []
  }

  function PpsTools(x: Pps): seq<Element> {
    [Se(x.cbQpOffset), Se(x.crQpOffset), Flag(x.sliceChromaOffsets), Flag(x.weightedPred), Flag(x.weightedBipred),
     Flag(x.transquantBypass), Flag(x.tiles.Some?), Flag(x.entropySync)]
  }

  const PPS_TOOLS_KINDS := [SeKind, SeKind, UKind(1), UKind(1), UKind(1), UKind(1), UKind(1), UKind(1)]

  // Tiles with their sizes told one by one; the last column and row take what is left.
  function PpsGrid(x: Pps): seq<Element> {
    if x.tiles.Some? then [Ue(|x.tiles.value.columns|), Ue(|x.tiles.value.rows|), Flag(false)] else []
  }

  const PPS_GRID_KINDS := [UeKind, UeKind, UKind(1)]

  function Sizes(s: seq<nat>): (r: seq<Element>)
    ensures |r| == |s|
  {
    seq(|s|, i requires 0 <= i < |s| => Ue(s[i]))
  }

  function SizeKinds(n: nat): (r: seq<Kind>)
    ensures |r| == n
  {
    seq(n, i => UeKind)
  }

  function PpsColumns(x: Pps): seq<Element> {
    if x.tiles.Some? then Sizes(x.tiles.value.columns) else []
  }

  function PpsRows(x: Pps): seq<Element> {
    if x.tiles.Some? then Sizes(x.tiles.value.rows) else []
  }

  function PpsAcross(x: Pps): seq<Element> {
    if x.tiles.Some? then [Flag(x.tiles.value.loopFilterAcross)] else []
  }

  // Deblocking control is always present.
  function PpsFilters(x: Pps): seq<Element> {
    [Flag(x.loopFilterAcross), Flag(true), Flag(x.deblocking.overrideEnabled), Flag(x.deblocking.offsets.None?)]
  }

  function PpsOffsets(x: Pps): seq<Element> {
    if x.deblocking.offsets.Some? then [Se(x.deblocking.offsets.value.0), Se(x.deblocking.offsets.value.1)] else []
  }

  function PpsClosing(x: Pps): seq<Element> {
    [Flag(x.listsModification), Ue(x.mergeLevelMinus2), Flag(x.headerExtension), Flag(false)]
  }

  const PPS_CLOSING_KINDS := [UKind(1), UeKind, UKind(1), UKind(1)]

  // From the loop filter flags on; lists are the coded scaling lists, if there are any.
  function PpsTail(x: Pps, lists: Option<seq<CodedList>>): BitString {
    Codes(PpsFilters(x)) + (Codes(PpsOffsets(x)) + (Codes([Flag(lists.Some?)]) +
    ((if lists.Some? then PrintAllLists(lists.value) else []) + (Codes(PpsClosing(x)) + []))))
  }

  function PpsTiles(x: Pps, lists: Option<seq<CodedList>>): BitString {
    Codes(PpsGrid(x)) + (Codes(PpsColumns(x)) + (Codes(PpsRows(x)) + (Codes(PpsAcross(x)) + PpsTail(x, lists))))
  }

  function PpsMiddle(x: Pps, lists: Option<seq<CodedList>>): BitString {
    Codes(PpsTools(x)) + PpsTiles(x, lists)
  }

  // pic_parameter_set_rbsp() before its trailing bits.
  function PpsBits(x: Pps, lists: Option<seq<CodedList>>): BitString {
    Codes(PpsOpening(x)) + (Codes(PpsActive(x)) + (Codes(PpsCuQp(x)) + PpsMiddle(x, lists)))
  }

  function ParseLists(present: bool, s: BitString, pos: nat): Result<(Option<seq<ReadList>>, nat)> {
    if !present then Success((None, pos))
    else
      var (m, q) :- ParseAllLists(s, pos, LISTS);
      Success((Some(m), q))
  }

  function ParsePpsTail(s: BitString, pos: nat, head: Pps): Result<Pps> {
    var (f, p0) :- ReadElements(s, pos, FOUR_FLAGS);
    if f[1].Number() == 0 then Failure(Unsupported)
    else
      var (o, p1) :- ReadIf(f[3].Number() == 0, s, p0, [SeKind, SeKind]);
      var (m, p2) :- ReadElements(s, p1, [UKind(1)]);
      var (lists, p3) :- ParseLists(m[0].Number() != 0, s, p2);
      var (e, q) :- ReadElements(s, p3, PPS_CLOSING_KINDS);
      if e[3].Number() != 0 then Failure(Unsupported)
      else
        Closed(s, q, head.(
          loopFilterAcross := f[0].Number() != 0,
          deblocking := Deblocking(
            f[2].Number() != 0, if |o| == 2 then Some((o[0].Number(), o[1].Number())) else None),
          scalingLists := lists, listsModification := e[0].Number() != 0, mergeLevelMinus2 := Nat(e[1]),
          headerExtension := e[2].Number() != 0))
  }

  function Naturals(es: seq<Element>): (r: seq<nat>)
    ensures |r| == |es|
  {
    seq(|es|, i requires 0 <= i < |es| => Nat(es[i]))
  }

  function ParseTiles(present: bool, s: BitString, pos: nat): Result<(Option<Tiles>, nat)> {
    if !present then Success((None, pos))
    else
      var (g, p0) :- ReadElements(s, pos, PPS_GRID_KINDS);
      if g[2].Number() != 0 then Failure(Unsupported)
      else
        var (c, p1) :- ReadElements(s, p0, SizeKinds(Nat(g[0])));
        var (r, p2) :- ReadElements(s, p1, SizeKinds(Nat(g[1])));
        var (a, q) :- ReadElements(s, p2, [UKind(1)]);
        Success((Some(Tiles(Naturals(c), Naturals(r), a[0].Number() != 0)), q))
  }

  const NO_PPS := Pps(
    0, false, false, 0, false, false, 0, 0, 0, false, false, None, 0, 0, false, false, false, false, false, None, false,
    Deblocking(false, None), None, false, 0, false)

  function ParsePpsOpening(s: BitString): Result<(Pps, nat)> {
    var (a, p0) :- ReadElements(s, 0, PPS_OPENING_KINDS);
    var (b, p1) :- ReadElements(s, p0, PPS_ACTIVE_KINDS);
    var (c, q) :- ReadIf(b[5].Number() != 0, s, p1, [UeKind]);
    // The only sequence parameter set has id 0.
    if a[1].Number() != 0 then Failure(Unsupported) else Success((PpsStartOf(a, b, c), q))
  }

  function PpsStartOf(a: seq<Element>, b: seq<Element>, c: seq<Element>): Pps
    requires |a| == 7 && |b| == 6
  {
    NO_PPS.(id := Nat(a[0]), dependent := a[2].Number() != 0, outputFlagPresent := a[3].Number() != 0,
      extraBits := Nat(a[4]), signHiding := a[5].Number() != 0, cabacInit := a[6].Number() != 0,
      activeL0Minus1 := Nat(b[0]), activeL1Minus1 := Nat(b[1]), initQpMinus26 := b[2].Number(),
      constrainedIntra := b[3].Number() != 0, transformSkip := b[4].Number() != 0,
      cuQpDeltaDepth := if |c| == 1 then Some(Nat(c[0])) else None)
  }

  function ParsePpsTools(s: BitString, pos: nat, head: Pps): Result<(Pps, nat)> {
    var (t, p0) :- ReadElements(s, pos, PPS_TOOLS_KINDS);
    var (tiles, q) :- ParseTiles(t[6].Number() != 0, s, p0);
    Success((head.(
      cbQpOffset := t[0].Number(), crQpOffset := t[1].Number(), sliceChromaOffsets := t[2].Number() != 0,
      weightedPred := t[3].Number() != 0, weightedBipred := t[4].Number() != 0,
      transquantBypass := t[5].Number() != 0, entropySync := t[7].Number() != 0, tiles := tiles), q))
  }

  function ParsePps(s: BitString): Result<Pps> {
    var (opening, p0) :- ParsePpsOpening(s);
    var (head, p1) :- ParsePpsTools(s, p0, opening);
    ParsePpsTail(s, p1, head)
  }

  predicate Signed(v: int) {
    -0x8000_0000 < v < 0x8000_0000
  }

  predicate TileSizesOk(s: seq<nat>) {
    |s| < UINT32_MAX && forall i :: 0 <= i < |s| ==> s[i] < UINT32_MAX
  }

  predicate PpsOk(x: Pps) {
    && x.id < UINT32_MAX && x.extraBits < 8
    && x.activeL0Minus1 < UINT32_MAX && x.activeL1Minus1 < UINT32_MAX && Signed(x.initQpMinus26)
    && (x.cuQpDeltaDepth.Some? ==> x.cuQpDeltaDepth.value < UINT32_MAX)
    && Signed(x.cbQpOffset) && Signed(x.crQpOffset)
    && (x.tiles.Some? ==> TileSizesOk(x.tiles.value.columns) && TileSizesOk(x.tiles.value.rows))
    && (x.deblocking.offsets.Some? ==> Signed(x.deblocking.offsets.value.0) && Signed(x.deblocking.offsets.value.1))
    && x.mergeLevelMinus2 < UINT32_MAX
  }

  lemma PpsOpeningFits(x: Pps)
    requires PpsOk(x)
    ensures AllFit(PpsOpening(x)) && Shaped(PpsOpening(x), PPS_OPENING_KINDS)
    ensures AllFit(PpsCuQp(x)) && (x.cuQpDeltaDepth.Some? ==> Shaped(PpsCuQp(x), [UeKind]))
  {
    SmallPowers();
    hide Pow2;
  }

  lemma PpsActiveFits(x: Pps)
    requires PpsOk(x)
    ensures AllFit(PpsActive(x)) && Shaped(PpsActive(x), PPS_ACTIVE_KINDS)
  {
    SmallPowers();
    hide Pow2;
  }

  lemma PpsToolsFit(x: Pps)
    requires PpsOk(x)
    ensures AllFit(PpsTools(x)) && Shaped(PpsTools(x), PPS_TOOLS_KINDS)
  {
    SmallPowers();
    hide Pow2;
  }

  lemma PpsTilesFit(x: Pps)
    requires PpsOk(x) && x.tiles.Some?
    ensures AllFit(PpsGrid(x)) && Shaped(PpsGrid(x), PPS_GRID_KINDS)
    ensures AllFit(PpsColumns(x)) && Shaped(PpsColumns(x), SizeKinds(|x.tiles.value.columns|))
    ensures AllFit(PpsRows(x)) && Shaped(PpsRows(x), SizeKinds(|x.tiles.value.rows|))
    ensures AllFit(PpsAcross(x)) && Shaped(PpsAcross(x), [UKind(1)])
  {
    SmallPowers();
    hide Pow2;
  }

  lemma PpsTailFits(x: Pps, listed: bool)
    requires PpsOk(x)
    ensures AllFit(PpsFilters(x)) && Shaped(PpsFilters(x), FOUR_FLAGS)
    ensures AllFit(PpsOffsets(x)) && (x.deblocking.offsets.Some? ==> Shaped(PpsOffsets(x), [SeKind, SeKind]))
    ensures AllFit([Flag(listed)]) && Shaped([Flag(listed)], [UKind(1)])
    ensures AllFit(PpsClosing(x)) && Shaped(PpsClosing(x), PPS_CLOSING_KINDS)
  {
    SmallPowers();
    hide Pow2;
  }

  lemma ListsNext(s: BitString, pos: nat, lists: Option<seq<CodedList>>, rest: BitString, q: nat)
    requires lists.Some? ==> |lists.value| == LISTS && ListsOk(lists.value)
    requires Reads(s, pos, (if lists.Some? then PrintAllLists(lists.value) else []) + rest, q)
    ensures
      var p := pos + if lists.Some? then |PrintAllLists(lists.value)| else 0;
      && ParseLists(lists.Some?, s, pos) == Success((if lists.Some? then Some(AsRead(lists.value)) else None, p))
      && Reads(s, p, rest, q)
  {
    hide At, PrintAllLists, ParseAllLists, AsRead;
    if lists.Some? {
      ReadsConcat(s, pos, PrintAllLists(lists.value), rest, q);
      ListsBack(s, pos, lists.value, pos + |PrintAllLists(lists.value)|);
    } else {
      assert [] + rest == rest;
    }
  }

  lemma PpsTailBack(s: BitString, pos: nat, x: Pps, head: Pps, lists: Option<seq<CodedList>>, bits: BitString)
    requires PpsOk(x) && s == Aligned(bits) && Reads(s, pos, PpsTail(x, lists), |bits|)
    requires lists.Some? ==> |lists.value| == LISTS && ListsOk(lists.value)
    requires x.scalingLists == if lists.Some? then Some(AsRead(lists.value)) else None
    requires x == head.(
      loopFilterAcross := x.loopFilterAcross, deblocking := x.deblocking, scalingLists := x.scalingLists,
      listsModification := x.listsModification, mergeLevelMinus2 := x.mergeLevelMinus2,
      headerExtension := x.headerExtension)
    ensures ParsePpsTail(s, pos, head) == Success(x)
  {
    hide Codes, ReadElements, ReadIf, At, AllFit, Shaped, Aligned, Closed, ParseLists, AsRead, PrintAllLists, ListsOk;
    PpsTailFits(x, lists.Some?);
    var f, o, m, e := PpsFilters(x), PpsOffsets(x), [Flag(lists.Some?)], PpsClosing(x);
    var printed := if lists.Some? then PrintAllLists(lists.value) else [];
    var after3 := Codes(e) + [];
    var after2 := printed + after3;
    var after1 := Codes(m) + after2;
    ReadNext(s, pos, f, FOUR_FLAGS, Codes(o) + after1, |bits|);
    var p0 := pos + |Codes(f)|;
    ReadNextIf(s, p0, x.deblocking.offsets.Some?, o, [SeKind, SeKind], after1, |bits|);
    var p1 := p0 + |Codes(o)|;
    ReadNext(s, p1, m, [UKind(1)], after2, |bits|);
    var p2 := p1 + |Codes(m)|;
    ListsNext(s, p2, lists, after3, |bits|);
    var p3 := p2 + |printed|;
    ReadNext(s, p3, e, PPS_CLOSING_KINDS, [], |bits|);
    ClosedBehind(bits, x);
  }

  lemma SizesBack(s: seq<nat>)
    ensures Naturals(Sizes(s)) == s
  {
  }

  lemma TilesNext(s: BitString, pos: nat, x: Pps, rest: BitString, q: nat)
    requires PpsOk(x)
    requires Reads(s, pos, Codes(PpsGrid(x)) + (Codes(PpsColumns(x)) + (Codes(PpsRows(x)) + (Codes(PpsAcross(x)) +
      rest))), q)
    ensures
      var p := pos + TilesLength(x);
      ParseTiles(x.tiles.Some?, s, pos) == Success((x.tiles, p)) && Reads(s, p, rest, q)
  {
    hide Codes, ReadElements, At, AllFit, Shaped, Sizes, SizeKinds, Naturals;
    var g, c, r, a := PpsGrid(x), PpsColumns(x), PpsRows(x), PpsAcross(x);
    var after2 := Codes(a) + rest;
    var after1 := Codes(r) + after2;
    if x.tiles.Some? {
      PpsTilesFit(x);
      SizesBack(x.tiles.value.columns);
      SizesBack(x.tiles.value.rows);
      ReadNext(s, pos, g, PPS_GRID_KINDS, Codes(c) + after1, q);
      var p0 := pos + |Codes(g)|;
      ReadNext(s, p0, c, SizeKinds(|x.tiles.value.columns|), after1, q);
      var p1 := p0 + |Codes(c)|;
      ReadNext(s, p1, r, SizeKinds(|x.tiles.value.rows|), after2, q);
      ReadNext(s, p1 + |Codes(r)|, a, [UKind(1)], rest, q);
    } else {
      NoCodes(Codes(c) + after1);
      NoCodes(after1);
      NoCodes(after2);
      NoCodes(rest);
    }
  }

  function PpsStart(x: Pps): Pps {
    NO_PPS.(id := x.id, dependent := x.dependent, outputFlagPresent := x.outputFlagPresent, extraBits := x.extraBits,
      signHiding := x.signHiding, cabacInit := x.cabacInit, activeL0Minus1 := x.activeL0Minus1,
      activeL1Minus1 := x.activeL1Minus1, initQpMinus26 := x.initQpMinus26, constrainedIntra := x.constrainedIntra,
      transformSkip := x.transformSkip, cuQpDeltaDepth := x.cuQpDeltaDepth)
  }

  function PpsHead(x: Pps): Pps {
    x.(loopFilterAcross := false, deblocking := Deblocking(false, None), scalingLists := None,
       listsModification := false, mergeLevelMinus2 := 0, headerExtension := false)
  }

  lemma PpsStartBack(x: Pps)
    ensures PpsStartOf(PpsOpening(x), PpsActive(x), PpsCuQp(x)) == PpsStart(x)
  {
  }

  lemma PpsOpeningBack(s: BitString, x: Pps, lists: Option<seq<CodedList>>, q: nat)
    requires PpsOk(x) && Reads(s, 0, PpsBits(x, lists), q)
    ensures
      var p := |Codes(PpsOpening(x))| + |Codes(PpsActive(x))| + |Codes(PpsCuQp(x))|;
      ParsePpsOpening(s) == Success((PpsStart(x), p)) && Reads(s, p, PpsMiddle(x, lists), q)
  {
    hide Codes, ReadElements, ReadIf, At, AllFit, Shaped, PpsMiddle, PpsStartOf, PpsStart;
    PpsOpeningFits(x);
    PpsActiveFits(x);
    PpsStartBack(x);
    var a, b, c := PpsOpening(x), PpsActive(x), PpsCuQp(x);
    var after1 := Codes(c) + PpsMiddle(x, lists);
    ReadNext(s, 0, a, PPS_OPENING_KINDS, Codes(b) + after1, q);
    ReadNext(s, |Codes(a)|, b, PPS_ACTIVE_KINDS, after1, q);
    ReadNextIf(s, |Codes(a)| + |Codes(b)|, x.cuQpDeltaDepth.Some?, c, [UeKind], PpsMiddle(x, lists), q);
  }

  // The length of the tiles' elements.
  function TilesLength(x: Pps): nat {
    |Codes(PpsGrid(x))| + |Codes(PpsColumns(x))| + |Codes(PpsRows(x))| + |Codes(PpsAcross(x))|
  }

  lemma PpsToolsBack(s: BitString, pos: nat, x: Pps, lists: Option<seq<CodedList>>, q: nat)
    requires PpsOk(x) && Reads(s, pos, PpsMiddle(x, lists), q)
    ensures
      var p := pos + |Codes(PpsTools(x))| + TilesLength(x);
      ParsePpsTools(s, pos, PpsStart(x)) == Success((PpsHead(x), p)) && Reads(s, p, PpsTail(x, lists), q)
  {
    hide Codes, ReadElements, At, AllFit, Shaped, ParseTiles, PpsTail, PpsGrid, PpsColumns, PpsRows, PpsAcross;
    PpsToolsFit(x);
    ReadNext(s, pos, PpsTools(x), PPS_TOOLS_KINDS, PpsTiles(x, lists), q);
    TilesNext(s, pos + |Codes(PpsTools(x))|, x, PpsTail(x, lists), q);
  }

  // A printed picture parameter set is read back.
  lemma PpsBack(x: Pps, lists: Option<seq<CodedList>>)
    requires PpsOk(x)
    requires lists.Some? ==> |lists.value| == LISTS && ListsOk(lists.value)
    requires x.scalingLists == if lists.Some? then Some(AsRead(lists.value)) else None
    ensures ParsePps(Aligned(PpsBits(x, lists))) == Success(x)
  {
    hide Codes, At, Aligned, PpsBits, PpsMiddle, PpsTail, ParsePpsOpening, ParsePpsTools, ParsePpsTail, AsRead, ListsOk,
      TilesLength;
    var bits := PpsBits(x, lists);
    var s := Aligned(bits);
    AlignedReads(bits);
    PpsOpeningBack(s, x, lists, |bits|);
    var p0 := |Codes(PpsOpening(x))| + |Codes(PpsActive(x))| + |Codes(PpsCuQp(x))|;
    PpsToolsBack(s, p0, x, lists, |bits|);
    PpsTailBack(s, p0 + |Codes(PpsTools(x))| + TilesLength(x), x, PpsHead(x), lists, bits);
  }
}
