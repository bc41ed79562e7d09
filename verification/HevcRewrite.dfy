/** rewrite_slice of src/hevc_annexb.cpp: what it accepts, and the NAL unit it makes of a slice. */
module HevcRewrite {
  import opened Bitstring
  import opened ExpGolomb
  import opened HevcBits
  import opened HevcDecoder
  import opened HevcPicture
  import opened HevcReferences
  import opened HevcRps
  import opened HevcSyntax
  import opened HevcSyntaxProofs
  import opened NalStream
  import opened SyntaxElements
  import opened Wrappers

  // ---------- Contexts ----------

  function NalType(bytes: seq<byte>): nat
    requires bytes != []
  {
    (bytes[0] / 2) % 64
  }

  // forbidden_zero_bit and nuh_layer_id zero, nuh_temporal_id_plus1 nonzero, a VCL unit.
  predicate NalHeaderOk(bytes: seq<byte>)
    requires |bytes| >= 2
  {
    bytes[0] < 0x80 && bytes[0] % 2 == 0 && bytes[1] < 8 && bytes[1] != 0 && NalType(bytes) <= 31
  }

  // What VA tells about the original parameter sets.
  function Original(p: Picture, refs: References, nalType: nat): Context {
    Context(
      nalType, p.dependentEnabled, CeilLog2(p.CtbCount()), p.numExtraSliceHeaderBits, p.outputFlagPresent,
      p.LsbBits(), p.numShortTermRps, p.stRpsBits, p.longTermPresent, p.numLongTermSps, p.temporalMvp, p.sao,
      p.numRefIdxL0Minus1 + 1, p.numRefIdxL1Minus1 + 1, p.listsModification, Some(|refs.list0|), READER_ZEROS)
  }

  // The emitted parameter sets: no reference picture sets in the SPS, list modification enabled.
  function Emitted(p: Picture, refs: References, nalType: nat): Context {
    Original(p, refs, nalType).(spsRpsCount := 0, predictedRpsBits := 0, spsLongTermCount := 0,
      listsModification := true, totalCurr := None, maxZeros := 31)
  }

  // The same, with NumPicTotalCurr taken to be the length of the driver's lists, as the writer does.
  function Written(p: Picture, refs: References, nalType: nat): Context {
    Emitted(p, refs, nalType).(totalCurr := Some(|refs.list0|))
  }

  // ---------- The new header ----------

  // std::find
  function Find(list: seq<nat>, v: nat): (r: nat)
    ensures r <= |list|
    ensures r < |list| ==> list[r] == v
    ensures r == |list| ==> v !in list
  {
    if list == [] || list[0] == v then 0 else 1 + Find(list[1..], v)
  }

  predicate Found(list: seq<nat>, active: seq<uint8>) {
    forall j :: 0 <= j < |active| ==> active[j] in list
  }

  function Positions(list: seq<nat>, active: seq<uint8>): (r: seq<nat>)
    ensures |r| == |active|
  {
    if active == [] then [] else [Find(list, active[0])] + Positions(list, active[1..])
  }

  // The VA entries of list l that are active.
  function ActiveEntries(slice: Slice, l: nat, count: nat): (r: seq<uint8>)
    requires WellFormedSlice(slice)
    ensures |r| <= 15
  {
    slice.RefPicList(l)[..if count <= 15 then count else 15]
  }

  function NewPrologue(x: Prologue): Prologue {
    x.(noOutputOfPriorPics := if x.noOutputOfPriorPics.Some? then Some(false) else None)
  }

  function NewKind(x: Kind): Kind {
    x.(picOutput := if x.picOutput.Some? then Some(true) else None)
  }

  function NewEntries(refs: References, l: nat, active: seq<uint8>): Option<seq<nat>> {
    if |refs.list0| > 1 then Some(Positions(refs.List(l), active)) else None
  }

  function NewLists(c: Context, slice: Slice, refs: References, x: Lists, sliceType: nat): Lists
    requires WellFormedSlice(slice)
  {
    Lists(
      x.active,
      NewEntries(refs, 0, ActiveEntries(slice, 0, ActiveCount(c, x, 0))),
      if sliceType == 0 then NewEntries(refs, 1, ActiveEntries(slice, 1, ActiveCount(c, x, 1))) else None)
  }

  function NewRps(p: Picture, refs: References, x: Rps): Rps {
    EmittedRps(p, refs, x.lsb, x.mvp)
  }

  function NewBody(c: Context, slice: Slice, p: Picture, refs: References, x: Body): Body
    requires WellFormedSlice(slice)
  {
    Body(
      NewKind(x.kind),
      if x.rps.Some? then Some(NewRps(p, refs, x.rps.value)) else None,
      x.sao,
      if x.lists.Some? then Some(NewLists(c, slice, refs, x.lists.value, x.kind.sliceType)) else None)
  }

  function NewHeader(c: Context, slice: Slice, p: Picture, refs: References, x: Header): Header
    requires WellFormedSlice(slice)
  {
    Header(NewPrologue(x.prologue), if x.body.Some? then Some(NewBody(c, slice, p, refs, x.body.value)) else None)
  }

  // ---------- What is accepted ----------

  predicate ListsAccepted(c: Context, slice: Slice, refs: References, x: Lists, sliceType: nat)
    requires WellFormedSlice(slice)
  {
    && Found(refs.list0, ActiveEntries(slice, 0, ActiveCount(c, x, 0)))
    && (sliceType == 0 ==> Found(refs.list1, ActiveEntries(slice, 1, ActiveCount(c, x, 1))))
  }

  predicate BodyAccepted(c: Context, slice: Slice, p: Picture, refs: References, x: Body)
    requires WellFormedSlice(slice)
  {
    && x.kind.sliceType == slice.sliceType
    && (x.rps.Some? ==> Writable(p, refs))
    && (x.lists.Some? ==> ListsAccepted(c, slice, refs, x.lists.value, x.kind.sliceType))
  }

  predicate HeaderAccepted(c: Context, slice: Slice, p: Picture, refs: References, x: Header)
    requires WellFormedSlice(slice)
  {
    && (x.prologue.first || x.prologue.address == slice.address)
    && (x.body.Some? ==> BodyAccepted(c, slice, p, refs, x.body.value))
  }

  // The one bit of byte_alignment() in front of data: the last one bit, at most eight bits back.
  function Alignment(s: BitString, parsed: nat, at: nat, data: nat): (r: Option<nat>)
    requires at <= data <= |s|
    ensures r.Some? ==> parsed <= r.value < at && data - r.value <= 8 && s[r.value]
    ensures r.Some? ==> forall k :: r.value < k < at ==> !s[k]
    decreases at
  {
    if at <= parsed || data - at >= 8 then None
    else if s[at - 1] then Some(at - 1)
    else Alignment(s, parsed, at - 1, data)
  }

  // The payload bits behind the two header bytes.
  function SliceBits(slice: Slice): BitString
    requires |slice.bytes| >= 2
  {
    BytesBits(Unescape(slice.bytes[2..]))
  }

  function DataStart(slice: Slice): int {
    (slice.dataByteOffset - 2) * 8
  }

  predicate DataAccepted(slice: Slice, s: BitString, parsed: nat) {
    && slice.dataByteOffset >= 3
    && parsed <= DataStart(slice) <= |s|
    && Alignment(s, parsed, DataStart(slice), DataStart(slice)).Some?
  }

  predicate Accepts(slice: Slice, p: Picture, refs: References)
    requires WellFormedSlice(slice)
  {
    && |slice.bytes| >= 3
    && NalHeaderOk(slice.bytes)
    && var c := Original(p, refs, NalType(slice.bytes));
       var s := SliceBits(slice);
       && ParseHeader(c, s).Success?
       && var (x, q) := ParseHeader(c, s).value;
          HeaderAccepted(c, slice, p, refs, x) && DataAccepted(slice, s, q)
  }

  // The header tail, up to byte_alignment(), that neither side parses.
  function Tail(slice: Slice, s: BitString, parsed: nat): BitString
    requires DataAccepted(slice, s, parsed)
  {
    s[parsed..Alignment(s, parsed, DataStart(slice), DataStart(slice)).value]
  }

  // The slice segment data.
  function Payload(slice: Slice, s: BitString): BitString
    requires 0 <= DataStart(slice) <= |s|
  {
    s[DataStart(slice)..]
  }

  // ---------- Carrying copied bits ----------

  // Written bits w, followed by the bits read but not yet copied, spell x.
  predicate Carried(w: BitString, s: BitString, copied: nat, pos: nat, x: BitString) {
    copied <= pos <= |s| && w + s[copied..pos] == x
  }

  lemma CarryRead(w: BitString, s: BitString, copied: nat, pos: nat, x: BitString, y: BitString, q: nat)
    requires Carried(w, s, copied, pos, x) && Reads(s, pos, y, q)
    ensures Carried(w, s, copied, q, x + y)
  {
    assert s[copied..q] == s[copied..pos] + s[pos..q];
  }

  lemma CarryNothing(w: BitString, s: BitString, pos: nat)
    requires pos <= |s|
    ensures Carried(w, s, pos, pos, w)
  {
  }

  // copy_to: bring the writer up to the reader's position.
  method CopyTo(r: Reader, b: Bits, copied: nat, ghost x: BitString) returns (now: nat)
    requires r.Valid() && b.Valid()
    requires Carried(b.contents, r.Str(), copied, r.pos, x)
    modifies r, b
    ensures r.Valid() && b.Valid() && r.pos == old(r.pos) == now
    ensures b.contents == x
  {
    hide Packs, BytesBits;
    var position := r.pos;
    var _ := r.Seek(copied);
    var _ := r.Copy(b, position);
    now := position;
    var _ := r.Seek(position);
  }

  // ---------- Reading the original header ----------

  lemma CtbCountBound(p: Picture)
    requires p.Checked()
    ensures p.CtbCount() < 0x1_0000_0000
  {
    hide CeilDiv, Pow2;
    var ctb := Pow2(p.log2MinCbMinus3 + 3 + p.log2DiffMaxMinCb);
    CeilDivBound(p.width, ctb);
    CeilDivBound(p.height, ctb);
    ProductBound(CeilDiv(p.width, ctb), CeilDiv(p.height, ctb));
  }

  lemma CeilDivBound(a: nat, m: nat)
    requires 0 < a < 0x1_0000 && m > 0
    ensures CeilDiv(a, m) < 0x1_0000
  {
    var q := (a + m - 1) / m;
    assert a + m - 1 == m * q + (a + m - 1) % m;
    assert m * (q - 1) == m * q - m;
    MulGrows(m, q - 1);
  }

  lemma ProductBound(w: nat, h: nat)
    requires w < 0x1_0000 && h < 0x1_0000
    ensures w * h < 0x1_0000_0000
  {
    ProductMonotonic(w, 0xffff, h);
  }

  lemma AddressBitsBound(p: Picture)
    requires p.Checked()
    ensures CeilLog2(p.CtbCount()) <= 32
  {
    hide BitLength, Pow2;
    var n := p.CtbCount();
    CtbCountBound(p);
    Pow2Values();
    BitLengthAtMost(if n > 0 then n - 1 else 0, 32);
  }

  lemma {:induction false} BitLengthAtMost(v: nat, n: nat)
    requires v < Pow2(n)
    ensures BitLength(v) <= n
  {
    if v > 0 {
      BitLengthAtMost(v / 2, n - 1);
    }
  }

  // dependent_slice_segment_flag and slice_segment_address.
  method ReadSegment(r: Reader, first: bool, slice: Slice, p: Picture, ghost c: Context) returns (res: Result<bool>)
    requires r.Valid() && p.Checked()
    requires c.dependentEnabled == p.dependentEnabled && c.addressBits == CeilLog2(p.CtbCount())
    modifies r
    ensures r.Valid()
    ensures res.Success? <==>
      && ParseSegment(c, r.Str(), old(r.pos), first).Success?
      && (first || ParseSegment(c, r.Str(), old(r.pos), first).value.0.1 == slice.address)
    ensures res.Success? ==>
      ParseSegment(c, r.Str(), old(r.pos), first) == Success(((res.value, if first then 0 else slice.address), r.pos))
  {
    hide BytesBits, CeilLog2, DecodeFixed, CeilDiv, Pow2;
    var dependent := false;
    if !first {
      if p.dependentEnabled {
        dependent :- r.Bit();
      }
      AddressBitsBound(p);
      var ctb := Pow2(p.log2MinCbMinus3 + 3 + p.log2DiffMaxMinCb);
      var count := CeilDiv(p.width, ctb) * CeilDiv(p.height, ctb);
      var address :- r.Bits(CeilLog2(count));
      :- Need(address == slice.address, Invalid);
    }
    return Success(dependent);
  }

  // first_slice_segment_in_pic_flag is kept; no_output_of_prior_pics_flag is cleared.
  method RewriteOpening(r: Reader, b: Bits, ghost c: Context, nalType: nat) returns (res: Result<bool>)
    requires r.Valid() && b.Valid() && r.pos == 0 && b.contents == [] && c.nalType == nalType
    modifies r, b
    ensures r.Valid() && b.Valid()
    ensures res.Success? <==>
      && DecodeFlag(r.Str(), 0).Success?
      && ParseFlag(c.Irap(), r.Str(), DecodeFlag(r.Str(), 0).value.1).Success?
    ensures res.Success? ==>
      && DecodeFlag(r.Str(), 0) == Success((res.value, 1))
      && var (noOutput, q) := ParseFlag(c.Irap(), r.Str(), 1).value;
         && q == r.pos && noOutput.Some? == c.Irap()
         && b.contents == [res.value] + PrintFlag(if noOutput.Some? then Some(false) else None)
  {
    hide Packs, BytesBits;
    var first :- r.Bit();
    b.Bit(BitValue(first));
    if nalType >= 16 && nalType <= 23 {
      var _ := r.Bit();  // never short: it lies in the byte of the first flag
      b.Bit(0);
    }
    return Success(first);
  }

  /** The state after the prologue: the flags that steer the rest, and how far bits were copied. */
  datatype Start = Start(first: bool, ppsId: nat, dependent: bool, copied: nat)

  method RewritePrologue(r: Reader, b: Bits, slice: Slice, p: Picture, ghost c: Context, nalType: nat)
    returns (res: Result<Start>)
    requires r.Valid() && b.Valid() && r.pos == 0 && b.contents == [] && p.Checked()
    requires c.dependentEnabled == p.dependentEnabled && c.addressBits == CeilLog2(p.CtbCount())
    requires c.maxZeros == READER_ZEROS && c.nalType == nalType
    modifies r, b
    ensures r.Valid() && b.Valid()
    ensures res.Success? <==>
      && ParsePrologue(c, r.Str(), 0).Success?
      && var x := ParsePrologue(c, r.Str(), 0).value.0; x.first || x.address == slice.address
    ensures res.Success? ==>
      var (x, q) := ParsePrologue(c, r.Str(), 0).value;
      && q == r.pos
      && res.value.first == x.first && res.value.ppsId == x.ppsId && res.value.dependent == x.dependent
      && Carried(b.contents, r.Str(), res.value.copied, q, PrintPrologue(c, NewPrologue(x)))
  {
    hide Packs, BytesBits, UeCode, FixedBits, DecodeUe, DecodeFixed, Carried, Reads, Pow2, CeilLog2,
      ParseSegment, DecodeFlag, ParseFlag;
    ghost var s := r.Str();
    var first :- RewriteOpening(r, b, c, nalType);
    var copied := r.pos;
    ghost var kept := b.contents;
    CarryNothing(kept, s, copied);
    var ppsId :- r.Ue();
    ghost var p2 := r.pos;
    UeExact(c, s, copied, ppsId, p2);
    CarryRead(kept, s, copied, copied, kept, UeCode(ppsId), p2);
    :- Need(ppsId <= 63, Invalid);
    var dependent :- ReadSegment(r, first, slice, p, c);
    ghost var address := if first then 0 else slice.address;
    SegmentSound(c, s, p2, first);
    CarryRead(kept, s, copied, p2, kept + UeCode(ppsId), PrintSegment(c, first, dependent, address), r.pos);
    return Success(Start(first, ppsId, dependent, copied));
  }

  method RewriteKind(
    r: Reader, b: Bits, copied: nat, slice: Slice, p: Picture, ghost c: Context, ghost before: BitString)
    returns (res: Result<(nat, nat)>)
    requires r.Valid() && b.Valid() && Carried(b.contents, r.Str(), copied, r.pos, before)
    requires c.extraBits == p.numExtraSliceHeaderBits && c.outputFlagPresent == p.outputFlagPresent
    requires c.maxZeros == READER_ZEROS
    modifies r, b
    ensures r.Valid() && b.Valid()
    ensures res.Success? <==>
      && ParseKind(c, r.Str(), old(r.pos)).Success?
      && ParseKind(c, r.Str(), old(r.pos)).value.0.sliceType == slice.sliceType
    ensures res.Success? ==>
      var (x, q) := ParseKind(c, r.Str(), old(r.pos)).value;
      && q == r.pos && res.value.0 == x.sliceType
      && Carried(b.contents, r.Str(), res.value.1, q, before + PrintKind(NewKind(x)))
  {
    hide Packs, BytesBits, UeCode, DecodeUe, Carried, Reads;
    ghost var s, start := r.Str(), r.pos;
    var skipped := r.Skip(p.numExtraSliceHeaderBits);
    if skipped.Fail? {
      return Failure(skipped.error);
    }
    ghost var extra := s[start..r.pos];
    RawExact(s, start, c.extraBits, extra, r.pos);
    CarryRead(b.contents, s, copied, start, before, extra, r.pos);
    ghost var p0 := r.pos;
    var sliceType :- r.Ue();
    UeExact(c, s, p0, sliceType, r.pos);
    CarryRead(b.contents, s, copied, p0, before + extra, UeCode(sliceType), r.pos);
    :- Need(sliceType <= 2 && sliceType == slice.sliceType, Invalid);
    KindPieces(before, extra, UeCode(sliceType));
    var now := copied;
    if p.outputFlagPresent {
      now := CopyTo(r, b, copied, before + extra + UeCode(sliceType));
      var _ :- r.Bit();
      b.Bit(1);
      now := r.pos;
      CarryNothing(b.contents, s, now);
    }
    return Success((sliceType, now));
  }

  lemma KindPieces(before: BitString, extra: BitString, code: BitString)
    ensures before + extra + code + [true] == before + (extra + code + [true])
    ensures before + extra + code == before + (extra + code + [])
  {
    assert extra + code + [] == extra + code;
  }

  // Where a parse ends, if it succeeds.
  function End<T>(res: Result<(T, nat)>): Option<nat> {
    if res.Success? then Some(res.value.1) else None
  }

  // Pass over the deltas of an explicit short-term set.
  method SkipStEntries(r: Reader, n: nat, ghost c: Context) returns (o: Outcome)
    requires r.Valid() && c.maxZeros == READER_ZEROS
    modifies r
    ensures r.Valid()
    ensures End(ParseStEntries(c, r.Str(), old(r.pos), n)) == if o.Pass? then Some(r.pos) else None
  {
    hide BytesBits, DecodeUe;
    ghost var goal := End(ParseStEntries(c, r.Str(), r.pos, n));
    var i := 0;
    while i < n
      invariant 0 <= i <= n && r.Valid()
      invariant End(ParseStEntries(c, r.Str(), r.pos, n - i)) == goal
    {
      var delta := r.Ue();
      if delta.Failure? {
        return Fail(delta.error);
      }
      var used := r.Bit();
      if used.Failure? {
        return Fail(used.error);
      }
      i := i + 1;
    }
    return Pass;
  }

  method SkipShortTerm(r: Reader, p: Picture, ghost c: Context) returns (o: Outcome)
    requires r.Valid() && c.maxZeros == READER_ZEROS && p.Checked()
    requires c.spsRpsCount == p.numShortTermRps && c.predictedRpsBits == p.stRpsBits
    modifies r
    ensures r.Valid()
    ensures End(ParseShortTerm(c, r.Str(), old(r.pos))) == if o.Pass? then Some(r.pos) else None
  {
    hide BytesBits, DecodeUe, DecodeFixed, ParseStEntries, CeilLog2;
    ghost var s := r.Str();
    var fromSps := r.Bit();
    if fromSps.Failure? {
      return Fail(fromSps.error);
    }
    if fromSps.value {
      :- Check(p.numShortTermRps > 0, Invalid);
      SmallIndex(p.numShortTermRps);
      var index := r.Bits(CeilLog2(p.numShortTermRps));
      return if index.Success? then Pass else Fail(index.error);
    }
    var start := r.pos;
    if p.numShortTermRps > 0 {
      var predicted := r.Bit();
      if predicted.Failure? {
        return Fail(predicted.error);
      }
      if predicted.value {
        :- Check(p.stRpsBits > 0, Invalid);
        var _ := r.Seek(start);
        o := r.Skip(p.stRpsBits);
        return;
      }
    }
    o := SkipExplicit(r, c);
  }

  method SkipExplicit(r: Reader, ghost c: Context) returns (o: Outcome)
    requires r.Valid() && c.maxZeros == READER_ZEROS
    modifies r
    ensures r.Valid()
    ensures End(ParseExplicit(c, r.Str(), old(r.pos))) == if o.Pass? then Some(r.pos) else None
  {
    hide BytesBits, DecodeUe, ParseStEntries;
    var neg := r.Ue();
    if neg.Failure? {
      return Fail(neg.error);
    }
    var plus := r.Ue();
    if plus.Failure? {
      return Fail(plus.error);
    }
    var n: nat := neg.value + plus.value;
    :- Check(n <= 15, Invalid);
    StEntriesCount(c, r.Str(), r.pos, n);
    o := SkipStEntries(r, n, c);
  }

  lemma StEntriesCount(c: Context, s: BitString, pos: nat, n: nat)
    requires pos <= |s|
    ensures ParseStEntries(c, s, pos, n).Success? ==> |ParseStEntries(c, s, pos, n).value.0| == n
  {
    if ParseStEntries(c, s, pos, n).Success? {
      StEntriesSound(c, s, pos, n);
    }
  }

  lemma SmallIndex(n: nat)
    requires n <= 64
    ensures CeilLog2(n) <= 32
  {
    hide BitLength, Pow2;
    Pow2Values();
    BitLengthAtMost(if n > 0 then n - 1 else 0, 32);
  }

  method SkipCycle(r: Reader, ghost c: Context) returns (o: Outcome)
    requires r.Valid() && c.maxZeros == READER_ZEROS
    modifies r
    ensures r.Valid()
    ensures End(ParseCycle(c, r.Str(), old(r.pos))) == if o.Pass? then Some(r.pos) else None
  {
    hide BytesBits, DecodeUe;
    var present := r.Bit();
    if present.Failure? {
      return Fail(present.error);
    }
    if present.value {
      var cycle := r.Ue();
      if cycle.Failure? {
        return Fail(cycle.error);
      }
    }
    return Pass;
  }

  method SkipLtEntry(r: Reader, p: Picture, fromSps: bool, ghost c: Context) returns (o: Outcome)
    requires r.Valid() && c.maxZeros == READER_ZEROS && p.Checked()
    requires c.spsLongTermCount == p.numLongTermSps && c.lsbBits == p.LsbBits()
    modifies r
    ensures r.Valid()
    ensures End(ParseLtEntry(c, r.Str(), old(r.pos), fromSps)) == if o.Pass? then Some(r.pos) else None
  {
    hide BytesBits, DecodeUe, DecodeFixed, CeilLog2, ParseCycle;
    if fromSps {
      SmallIndex(p.numLongTermSps);
      var index := r.Bits(CeilLog2(p.numLongTermSps));
      if index.Failure? {
        return Fail(index.error);
      }
    } else {
      var lsb := r.Bits(p.log2MaxPocLsbMinus4 + 4);
      if lsb.Failure? {
        return Fail(lsb.error);
      }
      var used := r.Bit();
      if used.Failure? {
        return Fail(used.error);
      }
    }
    o := SkipCycle(r, c);
  }

  method SkipLongTerm(r: Reader, p: Picture, ghost c: Context) returns (o: Outcome)
    requires r.Valid() && c.maxZeros == READER_ZEROS && p.Checked()
    requires c.spsLongTermCount == p.numLongTermSps && c.lsbBits == p.LsbBits()
    modifies r
    ensures r.Valid()
    ensures End(ParseLongTerm(c, r.Str(), old(r.pos))) == if o.Pass? then Some(r.pos) else None
  {
    hide BytesBits, DecodeUe, ParseLtEntry, ParseLtEntries;
    var fromSps: nat := 0;
    if p.numLongTermSps > 0 {
      var count := r.Ue();
      if count.Failure? {
        return Fail(count.error);
      }
      fromSps := count.value;
    }
    var inSlice := r.Ue();
    if inSlice.Failure? {
      return Fail(inSlice.error);
    }
    var n := fromSps + inSlice.value;
    :- Check(fromSps <= p.numLongTermSps && n <= 15, Invalid);
    o := SkipLtEntries(r, p, fromSps, n, c);
  }

  method SkipLtEntries(r: Reader, p: Picture, fromSps: nat, n: nat, ghost c: Context) returns (o: Outcome)
    requires r.Valid() && c.maxZeros == READER_ZEROS && p.Checked()
    requires c.spsLongTermCount == p.numLongTermSps && c.lsbBits == p.LsbBits()
    modifies r
    ensures r.Valid()
    ensures End(ParseLtEntries(c, r.Str(), old(r.pos), fromSps, n)) == if o.Pass? then Some(r.pos) else None
  {
    hide BytesBits, ParseLtEntry;
    ghost var goal := End(ParseLtEntries(c, r.Str(), r.pos, fromSps, n));
    var i := 0;
    while i < n
      invariant 0 <= i <= n && r.Valid()
      invariant End(ParseLtEntries(c, r.Str(), r.pos, if i < fromSps then fromSps - i else 0, n - i)) == goal
    {
      :- SkipLtEntry(r, p, i < fromSps, c);
      i := i + 1;
    }
    return Pass;
  }

  // The original set is passed over; the driver's explicit set takes its place.
  method RewriteRps(
    r: Reader, b: Bits, copied: nat, p: Picture, refs: References, ghost c: Context, ghost e: Context,
    ghost before: BitString)
    returns (res: Result<nat>)
    requires r.Valid() && b.Valid() && Carried(b.contents, r.Str(), copied, r.pos, before)
    requires p.Checked() && c.maxZeros == READER_ZEROS
    requires c.spsRpsCount == p.numShortTermRps && c.predictedRpsBits == p.stRpsBits
    requires c.longTermPresent == p.longTermPresent && c.temporalMvp == p.temporalMvp
    requires c.spsLongTermCount == p.numLongTermSps && c.lsbBits == p.LsbBits() && ExplicitOnly(e, p)
    requires |refs.before| + |refs.after| + |refs.longTerm| <= 15
    modifies r, b
    ensures r.Valid() && b.Valid()
    ensures res.Success? <==> ParseRps(c, r.Str(), old(r.pos)).Success? && Writable(p, refs)
    ensures res.Success? ==>
      var (x, q) := ParseRps(c, r.Str(), old(r.pos)).value;
      && q == r.pos
      && Carried(b.contents, r.Str(), res.value, q, before + PrintRps(e, NewRps(p, refs, x)))
  {
    hide Packs, BytesBits, DecodeFixed, Carried, Reads, ParseShortTerm, ParseLongTerm, FixedBits, Pow2,
      PrintShortTerm, PrintOptLongTerm, Writable, EmittedShortTerm, LtCodes;
    ghost var s, start := r.Str(), r.pos;
    var lsb :- r.Bits(p.log2MaxPocLsbMinus4 + 4);
    FixedExact(s, start, c.lsbBits, lsb, r.pos);
    ghost var lsbCode := FixedBits(lsb, c.lsbBits);
    CarryRead(b.contents, s, copied, start, before, lsbCode, r.pos);
    var _ := CopyTo(r, b, copied, before + lsbCode);
    var skipped := SkipShortTerm(r, p, c);
    if skipped.Fail? {
      return Failure(skipped.error);
    }
    if p.longTermPresent {
      skipped := SkipLongTerm(r, p, c);
      if skipped.Fail? {
        return Failure(skipped.error);
      }
    }
    var now := r.pos;
    var written := WriteRps(b, refs, p, e);
    if written.Fail? {
      return Failure(written.error);
    }
    CarryNothing(b.contents, s, now);
    ghost var kept := b.contents;
    ghost var mvp: Option<bool> := None;
    if p.temporalMvp {
      var flag :- r.Bit();
      mvp := Some(flag);
    }
    OptFlagExact(c.temporalMvp, s, now, mvp, r.pos);
    CarryRead(kept, s, now, now, kept, PrintFlag(mvp), r.pos);
    RpsPieces(before, lsbCode, PrintShortTerm(e, EmittedShortTerm(p, refs)),
              PrintOptLongTerm(e, EmittedLongTerm(p, refs)), PrintFlag(mvp));
    return Success(now);
  }

  lemma RpsPieces(before: BitString, a: BitString, b: BitString, d: BitString, z: BitString)
    ensures before + a + b + d + z == before + (a + b + d + z)
  {
  }

  // The two SAO flags stay where they are.
  method ReadSao(r: Reader, p: Picture, ghost c: Context) returns (o: Outcome)
    requires r.Valid() && c.sao == p.sao
    modifies r
    ensures r.Valid()
    ensures End(ParseSao(c, r.Str(), old(r.pos))) == if o.Pass? then Some(r.pos) else None
  {
    hide BytesBits;
    if p.sao {
      var luma := r.Bit();
      if luma.Failure? {
        return Fail(luma.error);
      }
      var chroma := r.Bit();
      if chroma.Failure? {
        return Fail(chroma.error);
      }
    }
    return Pass;
  }

  method ReadActive(r: Reader, p: Picture, sliceType: nat, ghost c: Context) returns (res: Result<(nat, nat)>)
    requires r.Valid() && c.maxZeros == READER_ZEROS
    requires c.defaultActive0 == p.numRefIdxL0Minus1 + 1 && c.defaultActive1 == p.numRefIdxL1Minus1 + 1
    modifies r
    ensures r.Valid()
    ensures End(ParseActive(c, r.Str(), old(r.pos), sliceType)) == if res.Success? then Some(r.pos) else None
    ensures res.Success? ==>
      var x := Lists(ParseActive(c, r.Str(), old(r.pos), sliceType).value.0, None, None);
      res.value == (ActiveCount(c, x, 0), ActiveCount(c, x, 1))
  {
    hide BytesBits, DecodeUe;
    var count0: nat, count1: nat := p.numRefIdxL0Minus1 + 1, p.numRefIdxL1Minus1 + 1;
    var explicit :- r.Bit();
    if explicit {
      var l0 :- r.Ue();
      count0 := l0 + 1;
      if sliceType == 0 {
        var l1 :- r.Ue();
        count1 := l1 + 1;
      }
    }
    return Success((count0, count1));
  }

  lemma {:induction false} EntriesEnd(s: BitString, pos: nat, n: nat, width: nat)
    requires pos <= |s|
    ensures n * width >= 0
    ensures End(ParseEntries(s, pos, n, width)) == if pos + n * width <= |s| then Some(pos + n * width) else None
    decreases n
  {
    hide ValueOf;
    if n > 0 {
      var rest := (n - 1) * width;
      assert n * width == width + rest;
      if pos + width <= |s| {
        EntriesEnd(s, pos + width, n - 1, width);
      } else {
        ProductMonotonic(0, n - 1, width);
      }
    }
  }

  // The list_entry values of the original list, if any, are passed over.
  method SkipList(r: Reader, present: bool, count: nat, width: nat) returns (o: Outcome)
    requires r.Valid()
    modifies r
    ensures r.Valid()
    ensures End(ParseList(present, r.Str(), old(r.pos), count, width)) == if o.Pass? then Some(r.pos) else None
  {
    hide BytesBits, ParseEntries;
    if present {
      var modified := r.Bit();
      if modified.Failure? {
        return Fail(modified.error);
      }
      if modified.value {
        EntriesEnd(r.Str(), r.pos, count, width);
        o := r.Skip(count * width);
        return;
      }
    }
    return Pass;
  }

  lemma PositionsStep(a: BitString, list: seq<nat>, active: seq<uint8>, j: nat, width: nat)
    requires j < |active|
    ensures a + PrintEntries(Positions(list, active[j..]), width) ==
            a + FixedBits(Find(list, active[j]), width) + PrintEntries(Positions(list, active[j + 1..]), width)
  {
    hide FixedBits, Find;
    assert active[j..][1..] == active[j + 1..];
    var rest := Positions(list, active[j + 1..]);
    assert ([Find(list, active[j])] + rest)[1..] == rest;
  }

  lemma PositionsDone(a: BitString, list: seq<nat>, active: seq<uint8>, width: nat)
    ensures a + PrintEntries(Positions(list, active[|active|..]), width) == a
  {
    assert active[|active|..] == [];
  }

  // Write where each active VA reference stands in the driver's list.
  method WriteEntries(b: Bits, list: seq<nat>, active: seq<uint8>, width: nat, total: nat) returns (o: Outcome)
    requires b.Valid() && |list| <= 15 && width <= 4
    modifies b
    ensures b.Valid()
    ensures o.Pass? <==> Found(list, active)
    ensures o.Pass? ==>
      b.contents == old(b.contents) + if total > 1 then PrintEntries(Positions(list, active), width) else []
  {
    hide Packs, FixedBits, PrintEntries, Positions;
    ghost var start := b.contents;
    ghost var goal := start + if total > 1 then PrintEntries(Positions(list, active), width) else [];
    var j := 0;
    assert active[0..] == active;
    while j < |active|
      invariant 0 <= j <= |active| && b.Valid()
      invariant forall k :: 0 <= k < j ==> active[k] in list
      invariant goal ==
        if total > 1 then b.contents + PrintEntries(Positions(list, active[j..]), width) else b.contents
    {
      PositionsStep(b.contents, list, active, j, width);
      var at := Find(list, active[j]);
      :- Check(at < |list|, Invalid);
      if total > 1 {
        var _ := b.Bits(at, width);
      }
      j := j + 1;
    }
    PositionsDone(b.contents, list, active, width);
    return Pass;
  }

  lemma SmallTotal(total: nat)
    requires total <= 15
    ensures CeilLog2(total) <= 4
  {
    hide BitLength;
    assert Pow2(4) == 16;
    BitLengthAtMost(if total > 0 then total - 1 else 0, 4);
  }

  // One list: its modification is replaced by the positions of the VA references.
  method RewriteList(r: Reader, b: Bits, slice: Slice, p: Picture, refs: References, l: nat, count: nat)
    returns (o: Outcome)
    requires r.Valid() && b.Valid() && WellFormedSlice(slice)
    requires l < 2 && 1 <= |refs.list0| <= 15 && |refs.List(l)| <= 15
    modifies r, b
    ensures r.Valid() && b.Valid()
    ensures
      var total := |refs.list0|;
      var parse := End(ParseList(p.listsModification && total > 1, r.Str(), old(r.pos), count, CeilLog2(total)));
      && (o.Pass? <==> count <= 15 && parse.Some? && Found(refs.List(l), ActiveEntries(slice, l, count)))
      && (o.Pass? ==> parse == Some(r.pos))
    ensures o.Pass? ==>
      b.contents == old(b.contents) +
        if |refs.list0| > 1
        then PrintList(NewEntries(refs, l, ActiveEntries(slice, l, count)), CeilLog2(|refs.list0|)) else []
  {
    hide Packs, BytesBits, ParseList, PrintEntries, Positions, CeilLog2, Found;
    ghost var start := b.contents;
    :- Check(count <= 15, Invalid);
    var total := |refs.list0|;
    var width := CeilLog2(total);
    SmallTotal(total);
    :- SkipList(r, p.listsModification && total > 1, count, width);
    if total > 1 {
      b.Bit(1);
    }
    var active := slice.RefPicList(l)[..count];
    :- WriteEntries(b, refs.List(l), active, width, total);
    ListPieces(start, PrintEntries(Positions(refs.List(l), active), width));
    return Pass;
  }

  lemma ListPieces(start: BitString, x: BitString)
    ensures start + [true] + x == start + ([true] + x)
    ensures start + [] == start
  {
  }

  method RewriteLists(
    r: Reader, b: Bits, copied: nat, slice: Slice, p: Picture, refs: References, ghost c: Context, ghost e: Context,
    sliceType: nat, ghost before: BitString)
    returns (res: Result<nat>)
    requires r.Valid() && b.Valid() && Carried(b.contents, r.Str(), copied, r.pos, before)
    requires WellFormedSlice(slice) && |refs.list0| <= 15 && |refs.list1| <= 15 && c.maxZeros == READER_ZEROS
    requires c.defaultActive0 == p.numRefIdxL0Minus1 + 1 && c.defaultActive1 == p.numRefIdxL1Minus1 + 1
    requires c.listsModification == p.listsModification && e.listsModification
    modifies r, b
    ensures r.Valid() && b.Valid()
    ensures
      var parse := ParseLists(c, r.Str(), old(r.pos), sliceType, |refs.list0|);
      && (res.Success? <==> parse.Success? && ListsAccepted(c, slice, refs, parse.value.0, sliceType))
      && (res.Success? ==>
          var (x, q) := parse.value;
          && q == r.pos
          && Carried(b.contents, r.Str(), res.value, q,
                     before + PrintLists(e, NewLists(c, slice, refs, x, sliceType), sliceType, |refs.list0|)))
  {
    hide Packs, BytesBits, Carried, Reads, ParseActive, ParseList, PrintActive, PrintList, CeilLog2, Found,
      ActiveEntries, Positions;
    ghost var s, start, total := r.Str(), r.pos, |refs.list0|;
    var counts :- ReadActive(r, p, sliceType, c);
    ghost var (active, p0) := ParseActive(c, s, start, sliceType).value;
    ActiveSound(c, s, start, sliceType);
    CarryRead(b.contents, s, copied, start, before, PrintActive(active), r.pos);
    :- Need(|refs.list0| > 0 && |refs.list0| <= 15, Invalid);
    var _ := CopyTo(r, b, copied, before + PrintActive(active));
    var o := RewriteList(r, b, slice, p, refs, 0, counts.0);
    if o.Fail? {
      return Failure(o.error);
    }
    ghost var z0 :=
      if total > 1 then PrintList(NewEntries(refs, 0, ActiveEntries(slice, 0, counts.0)), CeilLog2(total)) else [];
    ghost var z1 := [];
    if sliceType == 0 {
      o := RewriteList(r, b, slice, p, refs, 1, counts.1);
      if o.Fail? {
        return Failure(o.error);
      }
      z1 :=
        if total > 1 then PrintList(NewEntries(refs, 1, ActiveEntries(slice, 1, counts.1)), CeilLog2(total)) else [];
    }
    if sliceType != 0 {
      ListAbsent(s, r.pos, counts.1, CeilLog2(total));
    }
    CarryNothing(b.contents, s, r.pos);
    ListsPieces(before, PrintActive(active), z0, z1);
    return Success(r.pos);
  }

  lemma ListAbsent(s: BitString, pos: nat, n: nat, width: nat)
    ensures ParseList(false, s, pos, n, width) == Success((None, pos))
  {
  }

  lemma ListsPieces(before: BitString, a: BitString, x: BitString, y: BitString)
    ensures before + a + x + y == before + (a + (x + y))
    ensures before + a + x == before + a + x + []
  {
  }

  method RewriteBody(
    r: Reader, b: Bits, copied: nat, slice: Slice, p: Picture, refs: References, nalType: nat, ghost before: BitString)
    returns (res: Result<nat>)
    requires r.Valid() && b.Valid() && Carried(b.contents, r.Str(), copied, r.pos, before)
    requires WellFormedSlice(slice) && p.Checked()
    requires |refs.list0| <= 15 && |refs.list1| <= 15
    requires |refs.before| + |refs.after| + |refs.longTerm| <= 15
    modifies r, b
    ensures r.Valid() && b.Valid()
    ensures
      var c := Original(p, refs, nalType);
      var parse := ParseBody(c, r.Str(), old(r.pos));
      && (res.Success? <==> parse.Success? && BodyAccepted(c, slice, p, refs, parse.value.0))
      && (res.Success? ==>
          var (x, q) := parse.value;
          && q == r.pos
          && Carried(b.contents, r.Str(), res.value, q,
                     before + PrintBody(Written(p, refs, nalType), NewBody(c, slice, p, refs, x))))
  {
    hide Packs, BytesBits, Carried, Reads, ParseKind, ParseRps, ParseSao, ParseLists, PrintKind, PrintRps, PrintSao,
      PrintLists, CeilLog2, Writable, ListsAccepted, NewLists, EmittedShortTerm, LtCodes;
    ghost var c, w, s, start := Original(p, refs, nalType), Written(p, refs, nalType), r.Str(), r.pos;
    var kind :- RewriteKind(r, b, copied, slice, p, c, before);
    ghost var (k, p0) := ParseKind(c, s, start).value;
    var sliceType, now := kind.0, kind.1;
    ghost var x1, b1 := before + PrintKind(NewKind(k)), [];
    if nalType != 19 && nalType != 20 {
      now :- RewriteRps(r, b, now, p, refs, c, w, x1);
      ghost var (rps, p1) := ParseRps(c, s, p0).value;
      b1 := PrintRps(w, NewRps(p, refs, rps));
    }
    ghost var p1 := r.pos;
    NothingMore(x1);
    var read := ReadSao(r, p, c);
    if read.Fail? {
      return Failure(read.error);
    }
    ghost var (sao, p2) := ParseSao(c, s, p1).value;
    SaoSound(c, s, p1);
    CarryRead(b.contents, s, now, p1, x1 + b1, PrintSao(sao), p2);
    ghost var x3, b3 := x1 + b1 + PrintSao(sao), [];
    if sliceType != 2 {
      now :- RewriteLists(r, b, now, slice, p, refs, c, w, sliceType, x3);
      ghost var (lists, p3) := ParseLists(c, s, p2, sliceType, |refs.list0|).value;
      b3 := PrintLists(w, NewLists(c, slice, refs, lists, sliceType), sliceType, |refs.list0|);
    }
    NothingMore(x3);
    BodyPieces(before, PrintKind(NewKind(k)), b1, PrintSao(sao), b3);
    return Success(now);
  }

  lemma NothingMore(x: BitString)
    ensures x + [] == x
  {
  }

  lemma BodyPieces(before: BitString, a: BitString, b: BitString, d: BitString, z: BitString)
    ensures before + a + b + d + z == before + (a + b + d + z)
  {
  }

  // ---------- The NAL unit ----------

  // The header the driver emits for an accepted slice.
  function EmittedHeader(slice: Slice, p: Picture, refs: References): Header
    requires WellFormedSlice(slice) && Accepts(slice, p, refs)
  {
    var c := Original(p, refs, NalType(slice.bytes));
    NewHeader(c, slice, p, refs, ParseHeader(c, SliceBits(slice)).value.0)
  }

  function HeaderBits(slice: Slice, p: Picture, refs: References): BitString
    requires WellFormedSlice(slice) && Accepts(slice, p, refs)
  {
    var c := Original(p, refs, NalType(slice.bytes));
    var s := SliceBits(slice);
    PrintHeader(Written(p, refs, NalType(slice.bytes)), EmittedHeader(slice, p, refs)) +
    Tail(slice, s, ParseHeader(c, s).value.1)
  }

  function RewrittenBits(slice: Slice, p: Picture, refs: References): BitString
    requires WellFormedSlice(slice) && Accepts(slice, p, refs)
  {
    Aligned(HeaderBits(slice, p, refs)) + Payload(slice, SliceBits(slice))
  }

  function RewrittenUnit(slice: Slice, p: Picture, refs: References): seq<byte>
    requires WellFormedSlice(slice) && Accepts(slice, p, refs)
  {
    NalUnit(slice.bytes[..2], FromBits(RewrittenBits(slice, p, refs)))
  }

  lemma RewrittenWhole(slice: Slice, p: Picture, refs: References)
    requires WellFormedSlice(slice) && Accepts(slice, p, refs)
    ensures |RewrittenBits(slice, p, refs)| % 8 == 0
  {
    hide *;
    AlignedLength(HeaderBits(slice, p, refs));
    PayloadWhole(slice, p, refs);
    RewrittenLength(slice, p, refs);
  }

  lemma RewrittenLength(slice: Slice, p: Picture, refs: References)
    requires WellFormedSlice(slice) && Accepts(slice, p, refs)
    ensures 0 <= DataStart(slice) <= |SliceBits(slice)|
    ensures |RewrittenBits(slice, p, refs)| ==
            |Aligned(HeaderBits(slice, p, refs))| + |Payload(slice, SliceBits(slice))|
  {
    hide HeaderBits, Aligned, ParseHeader, HeaderAccepted, BytesBits, Alignment, NalHeaderOk;
  }

  lemma PayloadWhole(slice: Slice, p: Picture, refs: References)
    requires WellFormedSlice(slice) && Accepts(slice, p, refs)
    ensures 0 <= DataStart(slice) <= |SliceBits(slice)|
    ensures |Payload(slice, SliceBits(slice))| % 8 == 0
  {
    hide HeaderBits, Aligned, ParseHeader, HeaderAccepted, BytesBits, Alignment, NalHeaderOk;
  }

  // byte_alignment() of the original header, searched backwards from the slice data.
  method FindAlignment(r: Reader, data: nat) returns (res: Result<nat>)
    requires r.Valid() && r.pos <= data <= |r.Str()|
    modifies r
    ensures r.Valid()
    ensures Alignment(r.Str(), old(r.pos), data, data) == if res.Success? then Some(res.value) else None
  {
    hide BytesBits;
    var alignment, parsed, found := data, r.pos, false;
    while !found
      invariant r.Valid() && parsed <= alignment <= data
      invariant Alignment(r.Str(), parsed, data, data) ==
        if found then Some(alignment) else Alignment(r.Str(), parsed, alignment, data)
      decreases !found, alignment
    {
      :- Need(alignment > parsed && data - alignment < 8, Invalid);
      alignment := alignment - 1;
      var _ := r.Seek(alignment);
      var bit := r.Bit();
      found := bit.value;
    }
    return Success(alignment);
  }

  lemma CarryTail(w: BitString, s: BitString, copied: nat, pos: nat, x: BitString, at: nat)
    requires Carried(w, s, copied, pos, x) && pos <= at <= |s|
    ensures w + s[copied..at] == x + s[pos..at]
  {
    assert s[copied..at] == s[copied..pos] + s[pos..at];
  }

  // Copy the tail, align, copy the slice data.
  method FinishSlice(r: Reader, b: Bits, copied: nat, slice: Slice, ghost before: BitString) returns (o: Outcome)
    requires r.Valid() && b.Valid() && Carried(b.contents, r.Str(), copied, r.pos, before)
    modifies r, b
    ensures r.Valid() && b.Valid()
    ensures o.Pass? <==> DataAccepted(slice, r.Str(), old(r.pos))
    ensures o.Pass? ==>
      b.contents == Aligned(before + Tail(slice, r.Str(), old(r.pos))) + Payload(slice, r.Str())
  {
    hide Packs, BytesBits, AlignmentBits, Alignment;
    ghost var s, parsed := r.Str(), r.pos;
    :- Check(slice.dataByteOffset >= 3, Invalid);
    var data := (slice.dataByteOffset - 2) * 8;
    :- Check(data <= 8 * |r.bytes| && data >= r.pos, Invalid);
    var alignment := FindAlignment(r, data);
    if alignment.Failure? {
      return Fail(alignment.error);
    }
    CarryTail(b.contents, s, copied, parsed, before, alignment.value);
    var _ := r.Seek(copied);
    var _ := r.Copy(b, alignment.value);
    b.Align();
    var _ := r.Seek(data);
    var _ := r.Copy(b, 8 * |r.bytes|);
    assert s[data..|s|] == s[data..];
    return Pass;
  }

  lemma HeaderBytes(high: byte, low: byte)
    ensures (high * 256 + low) / 256 == high && (high * 256 + low) % 256 == low
    ensures (high * 256 + low) % 8 == low % 8
    ensures (high * 256 + low) / 0x8000 % 2 == 0 <==> high < 0x80
  {
  }

  lemma HeaderType(high: byte, low: byte)
    ensures (high * 256 + low) / 512 == high / 2
  {
  }

  lemma HeaderLayer(high: byte, low: byte)
    ensures (high * 256 + low) / 8 % 64 == 0 <==> high % 2 == 0 && low < 8
  {
    assert (high * 256 + low) / 8 == 32 * high + low / 8;
    var k := high / 2;
    if high % 2 == 0 {
      assert 32 * high + low / 8 == 64 * k + low / 8;
    } else {
      assert 32 * high + low / 8 == 64 * k + 32 + low / 8;
    }
  }

  lemma NewBodyPrintable(c: Context, slice: Slice, p: Picture, refs: References, x: Body)
    requires WellFormedSlice(slice)
    ensures Printable(NewBody(c, slice, p, refs, x))
  {
    hide NewLists, NewKind, LtCodes, StDeltas;
  }

  lemma NewHeaderPrintable(c: Context, slice: Slice, p: Picture, refs: References, x: Header)
    requires WellFormedSlice(slice)
    ensures NewHeader(c, slice, p, refs, x).body.Some? ==> Printable(NewHeader(c, slice, p, refs, x).body.value)
  {
    hide NewBody, Printable;
    if x.body.Some? {
      NewBodyPrintable(c, slice, p, refs, x.body.value);
    }
  }

  lemma SamePrologue(p: Picture, refs: References, nalType: nat, x: Prologue)
    ensures PrintPrologue(Written(p, refs, nalType), x) == PrintPrologue(Original(p, refs, nalType), x)
  {
  }

  method RewriteHeader(r: Reader, b: Bits, slice: Slice, p: Picture, refs: References, nalType: nat)
    returns (res: Result<(nat, nat)>)
    requires r.Valid() && b.Valid() && r.pos == 0 && b.contents == []
    requires WellFormedSlice(slice) && p.Checked()
    requires |refs.list0| <= 15 && |refs.list1| <= 15
    requires |refs.before| + |refs.after| + |refs.longTerm| <= 15
    modifies r, b
    ensures r.Valid() && b.Valid()
    ensures
      var c := Original(p, refs, nalType);
      var parse := ParseHeader(c, r.Str());
      && (res.Success? <==> parse.Success? && HeaderAccepted(c, slice, p, refs, parse.value.0))
      && (res.Success? ==>
          var (x, q) := parse.value;
          && q == r.pos && res.value.0 == x.prologue.ppsId
          && Carried(b.contents, r.Str(), res.value.1, q,
                     PrintHeader(Written(p, refs, nalType), NewHeader(c, slice, p, refs, x))))
  {
    hide Packs, BytesBits, Carried, ParsePrologue, ParseBody, PrintPrologue, PrintBody, CeilLog2, BodyAccepted, NewBody,
      Printable;
    ghost var c, w, s := Original(p, refs, nalType), Written(p, refs, nalType), r.Str();
    var start :- RewritePrologue(r, b, slice, p, c, nalType);
    ghost var (x, p0) := ParsePrologue(c, s, 0).value;
    var copied := start.copied;
    ghost var before := PrintPrologue(c, NewPrologue(x));
    SamePrologue(p, refs, nalType, NewPrologue(x));
    NothingMore(before);
    if !start.dependent {
      copied :- RewriteBody(r, b, copied, slice, p, refs, nalType, before);
      ghost var (y, q) := ParseBody(c, s, p0).value;
      NewBodyPrintable(c, slice, p, refs, y);
    }
    return Success((start.ppsId, copied));
  }

  lemma PackedBytes(bytes: seq<byte>, x: BitString)
    requires Packs(bytes, x, 0)
    ensures bytes == FromBits(x)
  {
    hide BytesBits, FromBits;
    BitsOfFromBits(x);
    BytesBitsInjective(bytes, FromBits(x));
  }

  method RewriteSlice(slice: Slice, p: Picture, refs: References, out: seq<byte>)
    returns (res: Result<(nat, seq<byte>)>)
    requires WellFormedSlice(slice) && p.Checked()
    requires |refs.list0| <= 15 && |refs.list1| <= 15
    requires |refs.before| + |refs.after| + |refs.longTerm| <= 15
    ensures res.Success? <==> Accepts(slice, p, refs)
    ensures res.Success? ==>
      && res.value.0 == EmittedHeader(slice, p, refs).prologue.ppsId
      && res.value.1 == out + Framed(RewrittenUnit(slice, p, refs))
  {
    hide Packs, BytesBits, Carried, ParseHeader, HeaderAccepted, PrintHeader, NewBody, Printable, Alignment, Tail,
      Aligned, AlignmentBits, DataAccepted, Payload, Unescape, Original, FromBits, Escape;
    var r :- OpenReader(slice.bytes);
    var b := new Bits();
    var high: int, low: int := slice.bytes[0], slice.bytes[1];
    var header := high * 256 + low;
    var nalType := (header / 512) % 64;
    HeaderBytes(high, low);
    HeaderType(high, low);
    HeaderLayer(high, low);
    :- Need(header / 0x8000 % 2 == 0 && (header / 8) % 64 == 0 && header % 8 != 0 && nalType <= 31, Invalid);
    var rewritten :- RewriteHeader(r, b, slice, p, refs, nalType);
    ghost var x := ParseHeader(Original(p, refs, nalType), r.Str()).value.0;
    NewHeaderPrintable(Original(p, refs, nalType), slice, p, refs, x);
    ghost var before :=
      PrintHeader(Written(p, refs, nalType), NewHeader(Original(p, refs, nalType), slice, p, refs, x));
    var o := FinishSlice(r, b, rewritten.1, slice, before);
    if o.Fail? {
      return Failure(o.error);
    }
    RewrittenWhole(slice, p, refs);
    var unit := b.Nal(out, header, false);
    PackedBytes(b.bytes, b.contents);
    assert slice.bytes[..2] == [header / 256, header % 256];
    return Success((rewritten.0, unit.value));
  }
}
