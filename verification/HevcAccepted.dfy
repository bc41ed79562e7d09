/**
  Exactly which pictures and slices are accepted, told by the fields of VA's buffers and the bits of the client's
  slices: hevc_bitstream and rewrite_slice of src/hevc_annexb.cpp, and the preparation in src/decode.c.
 */
module HevcAccepted {
  import opened Bitstring
  import opened HevcAccessUnit
  import opened HevcDecoder
  import opened HevcMeaning
  import opened HevcParameterSets
  import opened HevcPicture
  import opened HevcReferences
  import opened HevcRewrite
  import opened HevcRps
  import opened HevcRuns
  import opened HevcScaling
  import opened HevcSets
  import opened HevcSetWriter
  import opened HevcSyntax
  import opened NalStream
  import opened SyntaxElements
  import opened Wrappers

  // ---------- What the client's own parameter sets say ----------

  // x and y are the client's parameter sets, of which p tells the fields.
  predicate ClientSets(p: Picture, x: Sps, y: Pps) {
    && x.width == p.width && x.height == p.height
    && x.log2MinCbMinus3 == p.log2MinCbMinus3 && x.log2DiffMaxMinCb == p.log2DiffMaxMinCb
    && x.log2MaxPocLsbMinus4 == p.log2MaxPocLsbMinus4
    && x.shortTermRps == p.numShortTermRps && x.longTermPresent == p.longTermPresent
    && x.longTermSps == p.numLongTermSps && x.temporalMvp == p.temporalMvp && x.sao == p.sao
    && y.dependent == p.dependentEnabled && y.outputFlagPresent == p.outputFlagPresent
    && y.extraBits == p.numExtraSliceHeaderBits && y.listsModification == p.listsModification
    && y.activeL0Minus1 == p.numRefIdxL0Minus1 && y.activeL1Minus1 == p.numRefIdxL1Minus1
  }

  // What a parser of the client's slices knows: its sets, the length VA tells of a predicted reference picture set, and
  // the number of current references, in place of the header's own sets.
  function ClientContext(p: Picture, x: Sps, y: Pps, nalType: nat, current: nat): Context {
    SetsContext(x, y, nalType).(predictedRpsBits := p.stRpsBits, totalCurr := Some(current), maxZeros := 30)
  }

  // Slices are read as under the client's own sets.
  lemma OriginalIsClients(p: Picture, refs: References, nalType: nat, x: Sps, y: Pps)
    requires ClientSets(p, x, y)
    ensures Original(p, refs, nalType) == ClientContext(p, x, y, nalType, |refs.list0|)
  {
    hide CeilDiv, CeilLog2, Pow2;
  }

  lemma CeilDivIs(n: nat, d: nat)
    requires d > 0
    ensures n <= CeilDiv(n, d) * d < n + d
  {
    var q := CeilDiv(n, d);
    assert n + d - 1 == d * q + (n + d - 1) % d;
  }

  lemma {:induction false} BitLengthLeast(v: nat)
    requires v > 0
    ensures BitLength(v) > 0 && Pow2(BitLength(v) - 1) <= v < Pow2(BitLength(v))
  {
    if v > 1 {
      BitLengthLeast(v / 2);
    }
  }

  // The number of bits that n values take: the least with as many values.
  lemma CeilLog2Is(n: nat)
    ensures n <= Pow2(CeilLog2(n))
    ensures CeilLog2(n) > 0 ==> Pow2(CeilLog2(n) - 1) < n
  {
    hide Pow2, BitLength;
    if n > 1 {
      BitLengthLeast(n - 1);
    } else {
      NoBits();
    }
  }

  lemma NoBits()
    ensures BitLength(0) == 0 && Pow2(0) == 1
  {
  }

  // A slice segment address takes the bits that number the coding tree blocks, of which whole columns and rows cover
  // the picture.
  lemma AddressBitsAre(x: Sps, y: Pps, nalType: nat)
    returns (side: nat, columns: nat, rows: nat)
    ensures side == Pow2(x.log2MinCbMinus3 + 3 + x.log2DiffMaxMinCb)
    ensures x.width <= columns * side < x.width + side && x.height <= rows * side < x.height + side
    ensures
      var bits := SetsContext(x, y, nalType).addressBits;
      columns * rows <= Pow2(bits) && (bits > 0 ==> Pow2(bits - 1) < columns * rows)
  {
    hide Pow2, CeilDiv, CeilLog2;
    side := Pow2(x.log2MinCbMinus3 + 3 + x.log2DiffMaxMinCb);
    columns, rows := CeilDiv(x.width, side), CeilDiv(x.height, side);
    CeilDivIs(x.width, side);
    CeilDivIs(x.height, side);
    CeilLog2Is(columns * rows);
  }

  // ---------- References that can be coded ----------

  // Frame i is a short-term reference before or behind the picture.
  predicate OnSide(p: Picture, i: nat, after: bool) {
    && i < |p.frames| && Given(p.frames[i]) && !p.frames[i].longTerm
    && (p.frames[i].poc < p.currPoc) == !after
  }

  // The picture, or a reference on the same side that is nearer to it, lies within 32768 of frame i.
  ghost predicate Reached(p: Picture, i: nat, after: bool)
    requires OnSide(p, i, after)
  {
    Delta(p.currPoc, p.frames[i].poc, after) <= 32768 ||
    exists j: nat :: OnSide(p, j, after) && 0 < Delta(p.frames[j].poc, p.frames[i].poc, after) <= 32768
  }

  ghost predicate SideCodable(p: Picture, after: bool) {
    forall i: nat :: OnSide(p, i, after) ==> Reached(p, i, after)
  }

  // A long-term reference can be coded, in as many whole POC cycles as it lies back.
  predicate LongCodable(p: Picture) {
    forall i :: 0 <= i < |p.frames| && Given(p.frames[i]) && p.frames[i].longTerm ==>
      && p.longTermPresent
      && p.frames[i].poc / Pow2(p.log2MaxPocLsbMinus4 + 4) <= p.currPoc / Pow2(p.log2MaxPocLsbMinus4 + 4)
  }

  // The frames that stand in one group of the driver's references.
  predicate IsGroup(p: Picture, s: seq<Reference>, after: bool) {
    && Holds(p.currPoc, p.frames, |p.frames|, if after then After else Before, s)
    && StrictlySorted(s, !after)
  }

  lemma GroupIsOnSide(p: Picture, s: seq<Reference>, after: bool, k: nat)
    requires IsGroup(p, s, after) && k < |s|
    ensures OnSide(p, s[k].index, after) && p.frames[s[k].index].poc == s[k].poc
  {
    assert s[k] in s;
  }

  lemma OnSideIsInGroup(p: Picture, s: seq<Reference>, after: bool, i: nat) returns (k: nat)
    requires IsGroup(p, s, after) && OnSide(p, i, after)
    ensures k < |s| && s[k].poc == p.frames[i].poc
  {
    assert In(p.currPoc, p.frames, i, if after then After else Before);
    assert HevcReferences.Entry(p.frames, i) in s;
    k :| 0 <= k < |s| && s[k] == HevcReferences.Entry(p.frames, i);
  }

  // The group stands in the order in which its frames lie away from the picture.
  lemma Farther(p: Picture, s: seq<Reference>, after: bool, j: nat, k: nat)
    requires IsGroup(p, s, after) && j < |s| && k < |s|
    ensures j < k <==> 0 < Delta(s[j].poc, s[k].poc, after)
  {
    if j < k {
      assert HevcReferences.Key(s[j], !after) < HevcReferences.Key(s[k], !after);
    } else if k < j {
      assert HevcReferences.Key(s[k], !after) < HevcReferences.Key(s[j], !after);
    }
  }

  lemma NearReached(p: Picture, s: seq<Reference>, after: bool, i: nat)
    requires IsGroup(p, s, after) && OnSide(p, i, after) && Near(p.currPoc, s, after)
    ensures Reached(p, i, after)
  {
    hide IsGroup, Delta;
    var k := OnSideIsInGroup(p, s, after, i);
    assert Delta(Prior(p.currPoc, s, k), s[k].poc, after) <= 32768;
    if k > 0 {
      GroupIsOnSide(p, s, after, k - 1);
      Farther(p, s, after, k - 1, k);
    }
  }

  lemma ReachedNear(p: Picture, s: seq<Reference>, after: bool, k: nat)
    requires IsGroup(p, s, after) && k < |s| && OnSide(p, s[k].index, after) && Reached(p, s[k].index, after)
    requires p.frames[s[k].index].poc == s[k].poc
    ensures Delta(Prior(p.currPoc, s, k), s[k].poc, after) <= 32768
  {
    hide IsGroup, Delta;
    if Delta(p.currPoc, s[k].poc, after) > 32768 {
      var j: nat :| OnSide(p, j, after) && 0 < Delta(p.frames[j].poc, s[k].poc, after) <= 32768;
      var m := OnSideIsInGroup(p, s, after, j);
      Farther(p, s, after, m, k);
      Farther(p, s, after, m, k - 1);
      Shorter(s[m].poc, s[k - 1].poc, s[k].poc, after);
    } else if k > 0 {
      GroupIsOnSide(p, s, after, k - 1);
      FromPicture(p, s[k - 1].index, s[k].poc, after);
    }
  }

  lemma Shorter(a: int, b: int, c: int, after: bool)
    requires a == b || 0 < Delta(a, b, after)
    ensures Delta(b, c, after) <= Delta(a, c, after)
  {
  }

  lemma FromPicture(p: Picture, i: nat, poc: int, after: bool)
    requires OnSide(p, i, after)
    ensures Delta(p.frames[i].poc, poc, after) <= Delta(p.currPoc, poc, after)
  {
  }

  lemma NearExactly(p: Picture, s: seq<Reference>, after: bool)
    requires IsGroup(p, s, after)
    ensures Near(p.currPoc, s, after) <==> SideCodable(p, after)
  {
    hide IsGroup, Reached, OnSide, Delta;
    if Near(p.currPoc, s, after) {
      forall i: nat | OnSide(p, i, after) ensures Reached(p, i, after) {
        NearReached(p, s, after, i);
      }
    }
    if SideCodable(p, after) {
      forall k | 0 <= k < |s| ensures Delta(Prior(p.currPoc, s, k), s[k].poc, after) <= 32768 {
        GroupIsOnSide(p, s, after, k);
        ReachedNear(p, s, after, k);
      }
    }
  }

  // Flooring keeps the order.
  lemma QuotientGrows(a: int, b: int, d: nat)
    requires a <= b && d > 0
    ensures a / d <= b / d
  {
    if a / d > b / d {
      ProductMonotonic(1, a / d - b / d, d);
    }
  }

  lemma LongExactly(p: Picture, s: seq<Reference>)
    requires Holds(p.currPoc, p.frames, |p.frames|, LongTermGroup, s) && StrictlySorted(s, true)
    ensures
      (s == [] || (p.longTermPresent && Cycle(p.currPoc, p.LsbBits(), s[0].poc) >= 0)) <==> LongCodable(p)
  {
    hide Pow2;
    var d := Pow2(p.LsbBits());
    forall i | 0 <= i < |p.frames| && Given(p.frames[i]) && p.frames[i].longTerm
      ensures s != [] && p.frames[i].poc / d <= s[0].poc / d
    {
      assert In(p.currPoc, p.frames, i, LongTermGroup);
      var k :| 0 <= k < |s| && s[k] == HevcReferences.Entry(p.frames, i);
      assert k > 0 ==> HevcReferences.Key(s[0], true) < HevcReferences.Key(s[k], true);
      QuotientGrows(p.frames[i].poc, s[0].poc, d);
    }
    if s != [] {
      assert s[0] in s;
      assert Given(p.frames[s[0].index]) && p.frames[s[0].index].longTerm;
    }
  }

  // The references can be coded if and only if every short-term one is reached from the picture in steps of at most
  // 32768, and every long-term one is allowed and lies no cycle ahead.
  lemma CodableExactly(p: Picture, refs: References)
    requires DistinctPocs(p.currPoc, p.frames) && IsReferences(p, refs)
    ensures Writable(p, refs) <==> SideCodable(p, false) && SideCodable(p, true) && LongCodable(p)
  {
    hide Holds, StrictlySorted, SideCodable, LongCodable, Writable, Near, Cycle, DistinctPocs, UsedIndexes;
    WritableExactly(p, refs);
    NearExactly(p, refs.before, false);
    NearExactly(p, refs.after, true);
    LongExactly(p, refs.longTerm);
  }

  // ---------- Lists ----------

  lemma {:induction false} UsedAre(s: seq<Reference>, v: nat)
    ensures v in UsedIndexes(s) <==> exists k :: 0 <= k < |s| && s[k].used && s[k].index == v
  {
    if s != [] {
      UsedAre(s[1..], v);
      if k :| 0 <= k < |s| && s[k].used && s[k].index == v {
        assert k > 0 ==> s[1..][k - 1] == s[k];
      }
      if v in UsedIndexes(s[1..]) {
        var k :| 0 <= k < |s[1..]| && s[1..][k].used && s[1..][k].index == v;
        assert s[k + 1] == s[1..][k];
      }
    }
  }

  lemma GroupUses(p: Picture, g: Group, s: seq<Reference>, v: nat)
    requires Holds(p.currPoc, p.frames, |p.frames|, g, s)
    ensures v in UsedIndexes(s) <==> In(p.currPoc, p.frames, v, g) && Current(p.frames[v])
  {
    hide UsedIndexes;
    UsedAre(s, v);
    if In(p.currPoc, p.frames, v, g) && Current(p.frames[v]) {
      assert HevcReferences.Entry(p.frames, v) in s;
      var k :| 0 <= k < |s| && s[k] == HevcReferences.Entry(p.frames, v);
      assert s[k].used && s[k].index == v;
    }
    if k :| 0 <= k < |s| && s[k].used && s[k].index == v {
      assert s[k] in s;
    }
  }

  // Either list holds exactly the frames that the picture itself refers to.
  lemma ListHolds(p: Picture, refs: References, l: nat, v: nat)
    requires IsReferences(p, refs)
    ensures v in refs.List(l) <==> v < |p.frames| && Given(p.frames[v]) && Current(p.frames[v])
  {
    hide Holds, StrictlySorted, UsedIndexes;
    GroupUses(p, Before, refs.before, v);
    GroupUses(p, After, refs.after, v);
    GroupUses(p, LongTermGroup, refs.longTerm, v);
  }

  // The frames that the picture itself refers to.
  function Refers(p: Picture): set<nat> {
    set i: nat | i < |p.frames| && Given(p.frames[i]) && Current(p.frames[i])
  }

  predicate Distinct(s: seq<nat>) {
    forall i, j :: 0 <= i < j < |s| ==> s[i] != s[j]
  }

  lemma {:induction false} DistinctCount(s: seq<nat>, c: set<nat>)
    requires Distinct(s) && forall v :: v in s <==> v in c
    ensures |s| == |c|
  {
    if s == [] {
      assert c == {};
    } else {
      forall v ensures v in s[1..] <==> v in c - {s[0]} {
        assert v in s <==> v == s[0] || v in s[1..];
      }
      DistinctCount(s[1..], c - {s[0]});
    }
  }

  lemma {:induction false} UsedDistinct(s: seq<Reference>)
    requires forall i, j :: 0 <= i < j < |s| ==> s[i].index != s[j].index
    ensures Distinct(UsedIndexes(s))
  {
    if s != [] {
      UsedDistinct(s[1..]);
      UsedAre(s[1..], s[0].index);
    }
  }

  lemma GroupDistinct(p: Picture, g: Group, s: seq<Reference>, descending: bool)
    requires Holds(p.currPoc, p.frames, |p.frames|, g, s) && StrictlySorted(s, descending)
    ensures Distinct(UsedIndexes(s))
  {
    hide UsedIndexes;
    forall i, j | 0 <= i < j < |s| ensures s[i].index != s[j].index {
      assert HevcReferences.Key(s[i], descending) < HevcReferences.Key(s[j], descending);
      assert s[i] in s && s[j] in s;
    }
    UsedDistinct(s);
  }

  lemma ThreeDistinct(a: seq<nat>, b: seq<nat>, c: seq<nat>)
    requires Distinct(a) && Distinct(b) && Distinct(c)
    requires forall v :: !(v in a && v in b) && !(v in a && v in c) && !(v in b && v in c)
    ensures Distinct(a + b + c)
  {
    var s := a + b + c;
    forall i | 0 <= i < |s|
      ensures if i < |a| then s[i] == a[i] && s[i] in a
              else if i < |a| + |b| then s[i] == b[i - |a|] && s[i] in b
              else s[i] == c[i - |a| - |b|] && s[i] in c
    {
    }
  }

  // The driver counts the frames that the picture refers to.
  lemma ListCounts(p: Picture, refs: References)
    requires IsReferences(p, refs)
    ensures |refs.list0| == |Refers(p)|
  {
    hide Holds, StrictlySorted, UsedIndexes, Given, Current, Distinct;
    var a, b, c := UsedIndexes(refs.before), UsedIndexes(refs.after), UsedIndexes(refs.longTerm);
    GroupDistinct(p, Before, refs.before, true);
    GroupDistinct(p, After, refs.after, false);
    GroupDistinct(p, LongTermGroup, refs.longTerm, true);
    forall v: nat ensures !(v in a && v in b) && !(v in a && v in c) && !(v in b && v in c) {
      GroupUses(p, Before, refs.before, v);
      GroupUses(p, After, refs.after, v);
      GroupUses(p, LongTermGroup, refs.longTerm, v);
    }
    ThreeDistinct(a, b, c);
    forall v: nat ensures v in refs.list0 <==> v in Refers(p) {
      ListHolds(p, refs, 0, v);
    }
    DistinctCount(refs.list0, Refers(p));
  }

  // The active entries of a VA list, fifteen at most, name frames that the picture refers to.
  predicate ListFits(p: Picture, va: seq<uint8>, n: nat)
    requires |va| == 15
  {
    forall j :: 0 <= j < n && j < 15 ==> va[j] < |p.frames| && Given(p.frames[va[j]]) && Current(p.frames[va[j]])
  }

  lemma FoundExactly(p: Picture, refs: References, slice: Slice, l: nat, n: nat)
    requires IsReferences(p, refs) && WellFormedSlice(slice)
    ensures Found(refs.List(l), ActiveEntries(slice, l, n)) <==> ListFits(p, slice.RefPicList(l), n)
  {
    hide IsReferences, Given, Current;
    var va := slice.RefPicList(l);
    forall j | 0 <= j < 15
      ensures va[j] in refs.List(l) <==> va[j] < |p.frames| && Given(p.frames[va[j]]) && Current(p.frames[va[j]])
    {
      ListHolds(p, refs, l, va[j]);
    }
  }

  // ---------- Slices ----------

  // The header's body agrees with VA, and what it refers to can be written.
  ghost predicate BodyFits(c: Context, slice: Slice, p: Picture, x: Body)
    requires WellFormedSlice(slice)
  {
    && x.kind.sliceType == slice.sliceType
    && (x.rps.Some? ==> SideCodable(p, false) && SideCodable(p, true) && LongCodable(p))
    && (x.lists.Some? ==>
          && ListFits(p, slice.refPicList0, ActiveCount(c, x.lists.value, 0))
          && (x.kind.sliceType == 0 ==> ListFits(p, slice.refPicList1, ActiveCount(c, x.lists.value, 1))))
  }

  lemma BodyExactly(c: Context, slice: Slice, p: Picture, refs: References, x: Body)
    requires WellFormedSlice(slice) && DistinctPocs(p.currPoc, p.frames) && IsReferences(p, refs)
    ensures BodyAccepted(c, slice, p, refs, x) <==> BodyFits(c, slice, p, x)
  {
    hide IsReferences, DistinctPocs, Writable, SideCodable, LongCodable, Found, ListFits, ActiveCount;
    CodableExactly(p, refs);
    if x.lists.Some? {
      FoundExactly(p, refs, slice, 0, ActiveCount(c, x.lists.value, 0));
      FoundExactly(p, refs, slice, 1, ActiveCount(c, x.lists.value, 1));
    }
  }

  // The slice data begin at bit d, behind the header, which ends at q, and behind a one bit at most eight bits back.
  ghost predicate DataFits(s: BitString, q: nat, d: int) {
    q <= d <= |s| && exists a: nat :: q <= a < d && d - a <= 8 && s[a]
  }

  lemma {:induction false} AlignmentFound(s: BitString, q: nat, at: nat, d: nat, a: nat)
    requires at <= d <= |s| && q <= a < at && d - a <= 8 && s[a]
    ensures Alignment(s, q, at, d).Some?
    decreases at
  {
    if !s[at - 1] {
      AlignmentFound(s, q, at - 1, d, a);
    }
  }

  lemma DataExactly(slice: Slice, s: BitString, q: nat)
    ensures DataAccepted(slice, s, q) <==> slice.dataByteOffset >= 3 && DataFits(s, q, 8 * (slice.dataByteOffset - 2))
  {
    var d := DataStart(slice);
    if DataAccepted(slice, s, q) {
      var a := Alignment(s, q, d, d).value;
      assert q <= a < d && d - a <= 8 && s[a];
    }
    if slice.dataByteOffset >= 3 && DataFits(s, q, d) {
      var a: nat :| q <= a < d && d - a <= 8 && s[a];
      AlignmentFound(s, q, d, d, a);
    }
  }

  // The first two bytes are those of a slice, in the base layer.
  predicate SliceHeaderBytes(bytes: seq<byte>) {
    |bytes| >= 3 && bytes[0] < 64 && bytes[0] % 2 == 0 && 0 < bytes[1] < 8
  }

  // The client's slice, read under its own parameter sets, agrees with VA's fields.
  ghost predicate SliceFits(slice: Slice, p: Picture, sps: Sps, pps: Pps)
    requires WellFormedSlice(slice)
  {
    && SliceHeaderBytes(slice.bytes)
    && var c := ClientContext(p, sps, pps, slice.bytes[0] / 2, |Refers(p)|);
       var s := BytesBits(Unescape(slice.bytes[2..]));
       && ParseHeader(c, s).Success?
       && var (x, q) := ParseHeader(c, s).value;
          && (x.prologue.first || x.prologue.address == slice.address)
          && (x.body.Some? ==> BodyFits(c, slice, p, x.body.value))
          && slice.dataByteOffset >= 3 && DataFits(s, q, 8 * (slice.dataByteOffset - 2))
  }

  // A slice is accepted if and only if its bits and VA's fields fit together and its references can be coded.
  lemma AcceptsExactly(slice: Slice, p: Picture, refs: References, sps: Sps, pps: Pps)
    requires WellFormedSlice(slice) && DistinctPocs(p.currPoc, p.frames) && IsReferences(p, refs)
    requires ClientSets(p, sps, pps)
    ensures Accepts(slice, p, refs) <==> SliceFits(slice, p, sps, pps)
  {
    hide IsReferences, DistinctPocs, ParseHeader, BodyAccepted, BodyFits, DataAccepted, DataFits, Unescape, BytesBits,
      CeilLog2, CeilDiv, Pow2, SetsContext, ClientSets;
    if SliceHeaderBytes(slice.bytes) {
      OriginalIsClients(p, refs, slice.bytes[0] / 2, sps, pps);
      ListCounts(p, refs);
      var c := Original(p, refs, NalType(slice.bytes));
      var s := SliceBits(slice);
      if ParseHeader(c, s).Success? {
        var (x, q) := ParseHeader(c, s).value;
        DataExactly(slice, s, q);
        if x.body.Some? {
          BodyExactly(c, slice, p, refs, x.body.value);
        }
      }
    }
  }

  // ---------- Pictures ----------

  // The format is that of the profile.
  predicate FormatFits(profile: Profile, f: Format) {
    && f.chromaFormatIdc == 1 && !f.separateColourPlane && !f.fieldPic
    && f.bitDepthLumaMinus8 == (if profile.Main10? then 2 else 0)
    && f.bitDepthChromaMinus8 == (if profile.Main10? then 2 else 0)
  }

  predicate FieldsFit(p: Picture, k: Coding) {
    && p.width > 0 && p.height > 0 && p.log2MaxPocLsbMinus4 <= 12
    && p.numShortTermRps <= 64 && p.numLongTermSps <= 32
    && p.log2MinCbMinus3 + p.log2DiffMaxMinCb <= 3 && p.numExtraSliceHeaderBits <= 7
    && k.maxDecPicBufferingMinus1 <= 15 && k.tileColumnsMinus1 <= 19 && k.tileRowsMinus1 <= 21
  }

  // No scaling factor is zero, and no DC value of the two largest sizes.
  predicate MatrixFits(x: Matrix, i: nat) {
    (i >= 12 ==> x.dc != 0) && forall j :: 0 <= j < |x.values| ==> x.values[j] != 0
  }

  predicate MatricesFit(m: seq<Matrix>) {
    forall i :: 0 <= i < |m| ==> MatrixFits(m[i], i)
  }

  // No two references agree in their picture order count, nor does one with the picture.
  predicate PocsFit(p: Picture) {
    && (forall i :: 0 <= i < |p.frames| && Given(p.frames[i]) ==> p.frames[i].poc != p.currPoc)
    && forall i, j :: 0 <= i < j < |p.frames| && Given(p.frames[i]) && Given(p.frames[j]) ==>
         p.frames[i].poc != p.frames[j].poc
  }

  lemma CellOf(side: nat, j: nat) returns (c: Cell)
    requires j < side * side
    ensures InSquare(side, c) && c.y * side + c.x == j
  {
    assert side > 0;
    c := Cell(j % side, j / side);
    if c.y >= side {
      ProductMonotonic(side, c.y, side);
    }
  }

  // The scan visits every factor.
  lemma ScannedExactly(x: Matrix, side: nat)
    requires IsSquare(x.values, side) && side > 0
    ensures Nonzero(Scanned(x, side)) <==> forall j :: 0 <= j < |x.values| ==> x.values[j] != 0
  {
    hide CellsFrom, ValuesAt;
    ScanInSquare(side);
    ScanIsUpRightDiagonal(side);
    var s, v := Scan(side), Scanned(x, side);
    forall i | 0 <= i < |v| ensures exists j :: 0 <= j < |x.values| && x.values[j] == v[i] {
      ValuesAtIndex(x.values, side, s, i);
      CellIndex(x.values, side, s[i]);
    }
    forall j | 0 <= j < |x.values| ensures exists i :: 0 <= i < |v| && v[i] == x.values[j] {
      var c := CellOf(side, j);
      assert c in s;
      var i :| 0 <= i < |s| && s[i] == c;
      ValuesAtIndex(x.values, side, s, i);
    }
  }

  lemma MatrixExactly(x: Matrix, i: nat)
    requires IsSquare(x.values, Side(i))
    ensures Codable(CodedMatrix(x, i)) <==> MatrixFits(x, i)
  {
    hide Scanned, Nonzero;
    ScannedExactly(x, Side(i));
  }

  lemma MatricesExactly(m: seq<Matrix>)
    requires MatricesOk(m)
    ensures AllCodable(CodedMatrices(m)) <==> MatricesFit(m)
  {
    hide CodedMatrix, Codable, MatrixFits;
    forall i | 0 <= i < |m|
      ensures CodedMatrices(m)[i] == CodedMatrix(m[i], i)
      ensures Codable(CodedMatrix(m[i], i)) <==> MatrixFits(m[i], i)
    {
      MatrixExactly(m[i], i);
    }
  }

  // The picture's fields and its matrices, if it needs them.
  predicate PictureFits(x: Payload)
    requires WellFormedPayload(x)
  {
    && FormatFits(x.profile, x.format) && FieldsFit(x.picture, x.coding)
    && (x.coding.scalingListEnabled ==> x.matrices.Some? && MatricesFit(x.matrices.value))
  }

  lemma ReadyExactly(x: Payload)
    requires WellFormedPayload(x)
    ensures Ready(x) && ListsCodable(x) <==> PictureFits(x)
  {
    hide CodedMatrices, AllCodable, MatricesFit, MatricesOk, WellFormedSlice;
    if x.coding.scalingListEnabled && x.matrices.Some? {
      MatricesExactly(x.matrices.value);
    }
  }

  // The first slice is one the run may go on with: the first picture is an intra random access point, and no leading
  // picture follows one whose references are not there.
  predicate TypeFits(started: bool, noRaslOutput: bool, nalType: nat) {
    (started || 16 <= nalType <= 21) && !(noRaslOutput && 8 <= nalType <= 9)
  }

  // All slices, one behind the other.
  function Strung(slices: seq<Slice>): seq<byte> {
    if slices == [] then [] else slices[0].bytes + Strung(slices[1..])
  }

  lemma {:induction false} StrungLast(slices: seq<Slice>, x: Slice)
    ensures Strung(slices + [x]) == Strung(slices) + x.bytes
  {
    if slices == [] {
      assert [x][1..] == [] && [] + [x] == [x];
    } else {
      assert (slices + [x])[1..] == slices[1..] + [x];
      StrungLast(slices[1..], x);
    }
  }

  lemma {:induction false} TotalIs(slices: seq<Slice>)
    ensures TotalBytes(slices) == |Strung(slices)|
  {
    if slices != [] {
      var n := |slices| - 1;
      TotalIs(slices[..n]);
      StrungLast(slices[..n], slices[n]);
      assert slices == slices[..n] + [slices[n]];
    }
  }

  lemma BareKeeps(x: Slice)
    ensures Bare(x) == x.(bytes := Bare(x).bytes)
  {
  }

  // The slice, without its start code, read under the client's parameter sets.
  ghost predicate ClientSliceFits(x: Slice, p: Picture, sps: Sps, pps: Pps) {
    WellFormedSlice(Bare(x)) && SliceFits(Bare(x), p, sps, pps)
  }

  lemma SamePicture(x: Payload)
    requires WellFormedPayload(x)
    ensures WellFormedPayload(Prepared(x)) && PictureFits(Prepared(x)) == PictureFits(x)
    ensures Prepared(x).picture == x.picture && |Prepared(x).slices| == |x.slices|
    ensures forall i :: 0 <= i < |x.slices| ==> Prepared(x).slices[i] == Bare(x.slices[i])
  {
    hide Bare, MatricesFit, FieldsFit, FormatFits;
  }

  lemma SliceExactly(x: Payload, sps: Sps, pps: Pps, i: nat)
    requires WellFormedPayload(x) && PocsFit(x.picture) && ClientSets(x.picture, sps, pps) && i < |x.slices|
    ensures
      var bare, p := Prepared(x).slices[i], x.picture;
      (WellFormedSlice(bare) && Accepts(bare, p, ReferencesOf(p))) <==> ClientSliceFits(x.slices[i], p, sps, pps)
  {
    hide Bare, IsReferences, Accepts, SliceFits, ClientSets;
    var refs := ReferencesOf(x.picture);
    var some := ReferencesExist(x.picture);
    assert HasReferences(x.picture);
    BareKeeps(x.slices[i]);
    AcceptsExactly(Bare(x.slices[i]), x.picture, refs, sps, pps);
  }

  lemma SlicesExactly(x: Payload, sps: Sps, pps: Pps)
    requires WellFormedPayload(x) && PocsFit(x.picture) && ClientSets(x.picture, sps, pps)
    ensures
      AllAccepted(Prepared(x).slices, x.picture, ReferencesOf(x.picture)) <==>
      forall i :: 0 <= i < |x.slices| ==> ClientSliceFits(x.slices[i], x.picture, sps, pps)
  {
    hide Accepts, ClientSliceFits, ClientSets, ReferencesOf, WellFormedSlice, Prepared;
    SamePicture(x);
    forall i | 0 <= i < |x.slices|
      ensures
        var bare, p := Prepared(x).slices[i], x.picture;
        (WellFormedSlice(bare) && Accepts(bare, p, ReferencesOf(p))) <==> ClientSliceFits(x.slices[i], p, sps, pps)
    {
      SliceExactly(x, sps, pps, i);
    }
  }

  // The picture's type fits the run; its fields, its matrices and its picture order counts fit; every slice fits.
  ghost predicate Fits(x: Payload, state: State, sps: Sps, pps: Pps)
    requires WellFormedPayload(x)
  {
    && x.slices != [] && |Bare(x.slices[0]).bytes| >= 2
    && TypeFits(state.started, state.noRaslOutput, Bare(x.slices[0]).bytes[0] / 2 % 64)
    && PictureFits(x) && PocsFit(x.picture)
    && forall i :: 0 <= i < |x.slices| ==> ClientSliceFits(x.slices[i], x.picture, sps, pps)
  }

  // A picture yields an access unit if and only if it fits, has 1 to 64 slices of 8 MiB at most, none of them empty,
  // and the access unit has 8 MiB at most.
  lemma BuildableExactly(x: Payload, state: State, sps: Sps, pps: Pps)
    requires WellFormedPayload(x) && ClientSets(x.picture, sps, pps)
    ensures Builds(Prepared(x), state) <==> Fits(x, state, sps, pps)
    ensures
      Buildable(x, state) <==>
      && 1 <= |x.slices| <= 64 && |Strung(x.slices)| <= 0x80_0000
      && (forall i :: 0 <= i < |x.slices| ==> x.slices[i].bytes != [])
      && Builds(Prepared(x), state) && 0 < |AccessUnit(Prepared(x), state)| <= 0x80_0000
  {
    hide Bare, PictureFits, ClientSliceFits, AllAccepted, WellFormedPayload, Ready, ListsCodable, AccessUnit,
      ReferencesOf, ClientSets, Strung, TotalBytes;
    TotalIs(x.slices);
    if PocsFit(x.picture) {
      SlicesExactly(x, sps, pps);
    }
    SamePicture(x);
    ReadyExactly(Prepared(x));
  }
}
