/** The rewritten slice means what the original slice meant. */
module HevcMeaning {
  import opened Bitstring
  import opened ExpGolomb
  import opened HevcBits
  import opened HevcDecoder
  import opened HevcPicture
  import opened HevcReferences
  import opened HevcRewrite
  import opened HevcRps
  import opened HevcSyntax
  import opened HevcSyntaxProofs
  import opened Limits
  import opened NalStream
  import opened SyntaxElements
  import opened Wrappers

  // ---------- The emitted header is admitted by the emitted parameter sets ----------

  lemma FitsAfter(p: Picture, refs: References, nalType: nat, v: nat)
    ensures UeFits(Original(p, refs, nalType), v) ==> UeFits(Emitted(p, refs, nalType), v)
    ensures v < UINT32_MAX ==> UeFits(Emitted(p, refs, nalType), v)
  {
    if v < UINT32_MAX {
      Log2Limit(v + 1);
    }
  }

  lemma {:induction false} DeltasFit(
    p: Picture, refs: References, nalType: nat, prev: int, s: seq<Reference>, after: bool)
    requires Steps(prev, s, after)
    ensures WfStEntries(Emitted(p, refs, nalType), StDeltas(prev, s, after))
    decreases |s|
  {
    hide UeFits, Emitted;
    if s != [] {
      FitsAfter(p, refs, nalType, Positive(Delta(prev, s[0].poc, after) - 1));
      DeltasFit(p, refs, nalType, s[0].poc, s[1..], after);
    }
  }

  lemma {:induction false} CodesFit(p: Picture, refs: References, nalType: nat, prev: nat, s: seq<Reference>)
    requires p.Checked() && LtSteps(p.currPoc, p.LsbBits(), prev, s)
    ensures WfLtEntries(Emitted(p, refs, nalType), LtCodes(p.currPoc, p.LsbBits(), prev, s), 0)
    decreases |s|
  {
    hide UeFits, Cycle, Pow2;
    if s != [] {
      var e, n := Emitted(p, refs, nalType), p.LsbBits();
      var cycle := Cycle(p.currPoc, n, s[0].poc);
      FitsAfter(p, refs, nalType, Positive(cycle - prev));
      CodesFit(p, refs, nalType, cycle, s[1..]);
      var x, rest := LtCodes(p.currPoc, n, prev, s), LtCodes(p.currPoc, n, cycle, s[1..]);
      assert WfLtEntry(e, x[0], false);
      assert forall i :: 1 <= i < |x| ==> x[i] == rest[i - 1];
    }
  }

  lemma RpsAdmitted(p: Picture, refs: References, nalType: nat, c: Context, x: Rps)
    requires p.Checked() && WellFormed(p) && IsReferences(p, refs) && Writable(p, refs)
    requires c == Original(p, refs, nalType) && WfRps(c, x)
    ensures WfRps(Emitted(p, refs, nalType), NewRps(p, refs, x))
  {
    hide UeFits, StrictlySorted, Holds, Steps, LtSteps, StDeltas, LtCodes, UsedIndexes, WfStEntries, WfLtEntries, Pow2,
      WfShortTerm;
    var e := Emitted(p, refs, nalType);
    ShortTermAdmitted(p, refs, nalType);
    if p.longTermPresent {
      CodesFit(p, refs, nalType, 0, refs.longTerm);
      FitsAfter(p, refs, nalType, 0);
      FitsAfter(p, refs, nalType, |refs.longTerm|);
    }
  }

  lemma ShortTermAdmitted(p: Picture, refs: References, nalType: nat)
    requires WellFormed(p) && IsReferences(p, refs) && Writable(p, refs)
    ensures WfShortTerm(Emitted(p, refs, nalType), EmittedShortTerm(p, refs))
  {
    hide UeFits, StrictlySorted, Holds, Steps, LtSteps, StDeltas, LtCodes, UsedIndexes;
    DeltasFit(p, refs, nalType, p.currPoc, refs.before, false);
    DeltasFit(p, refs, nalType, p.currPoc, refs.after, true);
    FitsAfter(p, refs, nalType, |refs.before|);
    FitsAfter(p, refs, nalType, |refs.after|);
  }

  lemma {:induction false} PositionsAre(list: seq<nat>, active: seq<uint8>)
    requires Found(list, active)
    ensures Located(list, active, Positions(list, active))
    ensures forall v :: v in Positions(list, active) ==> v < |list|
  {
    if active != [] {
      var rest := active[1..];
      assert forall j :: 0 <= j < |rest| ==> rest[j] == active[j + 1];
      PositionsAre(list, rest);
      assert Positions(list, active)[1..] == Positions(list, rest);
      assert active[0] in list;
    }
  }

  lemma EntriesAdmitted(list: seq<nat>, active: seq<uint8>, total: nat)
    requires Found(list, active) && |list| == total
    ensures WfEntries(Positions(list, active), |active|, CeilLog2(total))
  {
    hide Positions, Found, BitLength, Pow2;
    PositionsAre(list, active);
    if total > 0 {
      BitLengthBound(total - 1);
    }
  }

  lemma ListsAdmitted(p: Picture, refs: References, nalType: nat, slice: Slice, x: Lists, sliceType: nat)
    requires WellFormedSlice(slice) && |refs.list0| == |refs.list1|
    requires WfLists(Original(p, refs, nalType), x, sliceType, |refs.list0|)
    requires ListsAccepted(Original(p, refs, nalType), slice, refs, x, sliceType)
    ensures WfLists(Emitted(p, refs, nalType), NewLists(Original(p, refs, nalType), slice, refs, x, sliceType),
                    sliceType, |refs.list0|)
  {
    hide UeFits, Positions, Found, CeilLog2, WfEntries;
    var c, total := Original(p, refs, nalType), |refs.list0|;
    if x.active.Some? {
      FitsAfter(p, refs, nalType, x.active.value.l0);
      if x.active.value.l1.Some? {
        FitsAfter(p, refs, nalType, x.active.value.l1.value);
      }
    }
    EntriesAdmitted(refs.list0, ActiveEntries(slice, 0, ActiveCount(c, x, 0)), total);
    if sliceType == 0 {
      EntriesAdmitted(refs.list1, ActiveEntries(slice, 1, ActiveCount(c, x, 1)), total);
    }
  }

  // An inter slice in an IDR picture, whose header has no set to refer to.
  predicate InterIdr(c: Context, x: Header) {
    c.Idr() && x.body.Some? && x.body.value.kind.sliceType != 2
  }

  lemma BodyAdmitted(p: Picture, refs: References, nalType: nat, slice: Slice, x: Body)
    requires WellFormedSlice(slice) && p.Checked() && WellFormed(p) && IsReferences(p, refs)
    requires WfBody(Original(p, refs, nalType), x) && BodyAccepted(Original(p, refs, nalType), slice, p, refs, x)
    requires !(Original(p, refs, nalType).Idr() && x.kind.sliceType != 2)
    ensures WfBody(Emitted(p, refs, nalType), NewBody(Original(p, refs, nalType), slice, p, refs, x))
    ensures x.lists.Some? ==>
      TotalCurr(Emitted(p, refs, nalType), NewBody(Original(p, refs, nalType), slice, p, refs, x).rps) == |refs.list0|
  {
    hide UeFits, WfRps, WfLists, IsReferences, Writable, ListsAccepted, TotalCurr, NewLists, CeilLog2, EmittedRps;
    var c, e := Original(p, refs, nalType), Emitted(p, refs, nalType);
    FitsAfter(p, refs, nalType, x.kind.sliceType);
    if x.rps.Some? {
      RpsAdmitted(p, refs, nalType, c, x.rps.value);
      TotalCurrIs(e, p, refs, x.rps.value.lsb, x.rps.value.mvp);
      OriginalTotal(p, refs, nalType, x.rps);
      if x.lists.Some? {
        ListsAdmitted(p, refs, nalType, slice, x.lists.value, x.kind.sliceType);
      }
    }
  }

  lemma OriginalTotal(p: Picture, refs: References, nalType: nat, x: Option<Rps>)
    ensures TotalCurr(Original(p, refs, nalType), x) == |refs.list0|
  {
  }

  lemma HeaderAdmitted(p: Picture, refs: References, nalType: nat, slice: Slice, x: Header)
    requires WellFormedSlice(slice) && p.Checked() && WellFormed(p) && IsReferences(p, refs)
    requires WfHeader(Original(p, refs, nalType), x) && HeaderAccepted(Original(p, refs, nalType), slice, p, refs, x)
    requires !InterIdr(Original(p, refs, nalType), x)
    ensures WfHeader(Emitted(p, refs, nalType), NewHeader(Original(p, refs, nalType), slice, p, refs, x))
  {
    hide UeFits, WfBody, IsReferences, BodyAccepted, NewBody, CeilLog2, Pow2;
    FitsAfter(p, refs, nalType, x.prologue.ppsId);
    if x.body.Some? {
      BodyAdmitted(p, refs, nalType, slice, x.body.value);
    }
  }

  // ---------- The header parses back ----------

  lemma {:induction false} LtEntriesSame(c: Context, d: Context, x: seq<LtEntry>)
    requires c.lsbBits == d.lsbBits && c.spsLongTermCount == d.spsLongTermCount
    ensures PrintLtEntries(c, x) == PrintLtEntries(d, x)
  {
    if x != [] {
      LtEntriesSame(c, d, x[1..]);
    }
  }

  lemma RpsAsWritten(p: Picture, refs: References, nalType: nat, x: Rps)
    requires x.lt.Some? ==> x.lt.value.fromSps <= |x.lt.value.entries|
    ensures PrintRps(Written(p, refs, nalType), x) == PrintRps(Emitted(p, refs, nalType), x)
  {
    hide PrintStEntries, PrintLtEntries, CeilLog2, UeCode, FixedBits;
    if x.lt.Some? {
      LtEntriesSame(Written(p, refs, nalType), Emitted(p, refs, nalType), x.lt.value.entries);
    }
  }

  lemma ListsAsWritten(p: Picture, refs: References, nalType: nat, x: Lists, sliceType: nat, total: nat)
    ensures PrintLists(Written(p, refs, nalType), x, sliceType, total) ==
            PrintLists(Emitted(p, refs, nalType), x, sliceType, total)
  {
    hide PrintList, PrintActive, CeilLog2;
  }

  // What the writer prints is what the syntax prints, when both count the same pictures.
  lemma PrintedAsWritten(p: Picture, refs: References, nalType: nat, x: Body)
    requires Printable(x)
    requires x.lists.Some? ==> TotalCurr(Emitted(p, refs, nalType), x.rps) == |refs.list0|
    ensures PrintBody(Written(p, refs, nalType), x) == PrintBody(Emitted(p, refs, nalType), x)
  {
    hide PrintKind, PrintSao, PrintLists, PrintRps, UsedCount, UsedLtCount;
    if x.rps.Some? {
      RpsAsWritten(p, refs, nalType, x.rps.value);
    }
    if x.lists.Some? {
      ListsAsWritten(p, refs, nalType, x.lists.value, x.kind.sliceType, |refs.list0|);
    }
  }

  lemma PrologueAsWritten(p: Picture, refs: References, nalType: nat, x: Prologue)
    ensures PrintPrologue(Written(p, refs, nalType), x) == PrintPrologue(Emitted(p, refs, nalType), x)
  {
  }

  lemma HeaderAsWritten(p: Picture, refs: References, nalType: nat, slice: Slice, x: Header)
    requires WellFormedSlice(slice) && p.Checked() && WellFormed(p) && IsReferences(p, refs)
    requires WfHeader(Original(p, refs, nalType), x) && HeaderAccepted(Original(p, refs, nalType), slice, p, refs, x)
    requires !InterIdr(Original(p, refs, nalType), x)
    ensures
      var h := NewHeader(Original(p, refs, nalType), slice, p, refs, x);
      && (h.body.Some? ==> Printable(h.body.value))
      && PrintHeader(Written(p, refs, nalType), h) == PrintHeader(Emitted(p, refs, nalType), h)
  {
    hide WfBody, IsReferences, BodyAccepted, NewBody, CeilLog2, Pow2, PrintPrologue, PrintBody, Printable, TotalCurr;
    var c := Original(p, refs, nalType);
    PrologueAsWritten(p, refs, nalType, NewPrologue(x.prologue));
    NewHeaderPrintable(c, slice, p, refs, x);
    if x.body.Some? {
      BodyAdmitted(p, refs, nalType, slice, x.body.value);
      ListsKept(c, slice, p, refs, x.body.value);
      PrintedAsWritten(p, refs, nalType, NewBody(c, slice, p, refs, x.body.value));
    }
  }

  lemma ListsKept(c: Context, slice: Slice, p: Picture, refs: References, x: Body)
    requires WellFormedSlice(slice)
    ensures NewBody(c, slice, p, refs, x).lists.Some? == x.lists.Some?
  {
  }

  // What an accepted slice is parsed into.
  lemma AcceptedHeader(slice: Slice, p: Picture, refs: References)
    requires WellFormedSlice(slice) && Accepts(slice, p, refs)
    ensures
      var c, s := Original(p, refs, NalType(slice.bytes)), SliceBits(slice);
      var (x, q) := ParseHeader(c, s).value;
      && WfHeader(c, x) && HeaderAccepted(c, slice, p, refs, x) && DataAccepted(slice, s, q)
      && EmittedHeader(slice, p, refs) == NewHeader(c, slice, p, refs, x)
  {
    hide ParseHeader, WfHeader, HeaderAccepted, DataAccepted, NewHeader, Original, Printable, PrintHeader;
    HeaderSound(Original(p, refs, NalType(slice.bytes)), SliceBits(slice));
  }

  lemma RewrittenConcat(a: BitString, t: BitString, z: BitString, d: BitString)
    ensures a + t + z + d == a + (t + z + d)
  {
  }

  // Behind position n of bits stands what stood behind position q of s: the bits up to a, which is the last one bit
  // before d and at most eight bits in front of it, then byte_alignment(), then everything from d on.
  predicate CarriesOn(s: BitString, q: nat, d: int, bits: BitString, n: nat, a: nat) {
    && q <= a < d <= |s| && d - a <= 8 && s[a] && (forall k :: a < k < d ==> !s[k])
    && var end, start := n + (a - q), |bits| - (|s| - d);
       && end < start <= end + 8 && start % 8 == 0
       && bits[n..end] == s[q..a]
       && bits[end] && (forall k :: end < k < start ==> !bits[k])
       && bits[start..] == s[d..]
  }

  // The slice's bits behind its header come behind position n.
  ghost predicate SameRest(slice: Slice, q: nat, bits: BitString, n: nat)
    requires |slice.bytes| >= 2
  {
    var s, d := BytesBits(Unescape(slice.bytes[2..])), 8 * (slice.dataByteOffset - 2);
    exists a :: CarriesOn(s, q, d, bits, n, a)
  }

  lemma RestIs(s: BitString, q: nat, d: nat, a: nat, front: BitString, n: nat)
    requires q <= a < d <= |s| && d - a <= 8 && s[a] && (forall k :: a < k < d ==> !s[k])
    requires n <= |front| && d % 8 == 0 && |s| % 8 == 0
    requires front[n..] == s[q..a]
    ensures CarriesOn(s, q, d, front + AlignmentBits(|front|) + s[d..], n, a)
  {
    var bits := front + AlignmentBits(|front|) + s[d..];
    assert bits[n..|front|] == front[n..];
    assert bits[|front|..|Aligned(front)|] == AlignmentBits(|front|);
    AlignedLength(front);
    forall k | |front| < k < |Aligned(front)| ensures !bits[k] {
      assert bits[k] == AlignmentBits(|front|)[k - |front|];
    }
    assert bits[|front|] == AlignmentBits(|front|)[0];
    assert bits[|Aligned(front)|..] == s[d..];
  }

  // The emitted header, and what stands behind it.
  lemma RewrittenPieces(slice: Slice, p: Picture, refs: References) returns (rest: BitString)
    requires WellFormedSlice(slice) && Accepts(slice, p, refs)
    ensures var h := EmittedHeader(slice, p, refs); h.body.Some? ==> Printable(h.body.value)
    ensures
      var header := PrintHeader(Written(p, refs, NalType(slice.bytes)), EmittedHeader(slice, p, refs));
      var q := ParseHeader(Original(p, refs, NalType(slice.bytes)), SliceBits(slice)).value.1;
      RewrittenBits(slice, p, refs) == header + rest && SameRest(slice, q, RewrittenBits(slice, p, refs), |header|)
  {
    hide ParseHeader, PrintHeader, HeaderAccepted, Alignment, NewHeader, Printable, AlignmentBits, Original, Written,
      BytesBits, Unescape, CarriesOn;
    var c, s := Original(p, refs, NalType(slice.bytes)), SliceBits(slice);
    NewHeaderPrintable(c, slice, p, refs, ParseHeader(c, s).value.0);
    var header := PrintHeader(Written(p, refs, NalType(slice.bytes)), EmittedHeader(slice, p, refs));
    var q, d := ParseHeader(c, s).value.1, DataStart(slice);
    var a, front := Alignment(s, q, d, d).value, HeaderBits(slice, p, refs);
    rest := Tail(slice, s, q) + AlignmentBits(|front|) + Payload(slice, s);
    RewrittenConcat(header, Tail(slice, s, q), AlignmentBits(|front|), Payload(slice, s));
    RestIs(s, q, d, a, front, |header|);
    assert CarriesOn(s, q, 8 * (slice.dataByteOffset - 2), RewrittenBits(slice, p, refs), |header|, a);
  }

  // Under the emitted parameter sets the rewritten slice parses to the original header with only the
  // output flags, the reference picture set and the list modification replaced, and behind it come the
  // original tail, byte alignment and the original slice data.
  lemma RewriteKeepsMeaning(slice: Slice, p: Picture, refs: References)
    requires WellFormedSlice(slice) && p.Checked() && WellFormed(p) && IsReferences(p, refs)
    requires Accepts(slice, p, refs)
    requires
      var c := Original(p, refs, NalType(slice.bytes));
      !InterIdr(c, ParseHeader(c, SliceBits(slice)).value.0)
    ensures
      var parse := ParseHeader(Emitted(p, refs, NalType(slice.bytes)), RewrittenBits(slice, p, refs));
      && parse.Success?
      && var (h, n) := parse.value;
         && h == EmittedHeader(slice, p, refs)
         && n <= |RewrittenBits(slice, p, refs)|
         && SameRest(slice, ParseHeader(Original(p, refs, NalType(slice.bytes)), SliceBits(slice)).value.1,
                     RewrittenBits(slice, p, refs), n)
  {
    hide ParseHeader, PrintHeader, WfHeader, HeaderAccepted, DataAccepted, NewHeader, Printable, IsReferences, Original,
      Written, Emitted, InterIdr, SameRest, RewrittenBits, EmittedHeader, BytesBits;
    var nalType := NalType(slice.bytes);
    var c, e, h := Original(p, refs, nalType), Emitted(p, refs, nalType), EmittedHeader(slice, p, refs);
    AcceptedHeader(slice, p, refs);
    var x := ParseHeader(c, SliceBits(slice)).value.0;
    var rest := RewrittenPieces(slice, p, refs);
    HeaderAsWritten(p, refs, nalType, slice, x);
    HeaderAdmitted(p, refs, nalType, slice, x);
    ParsePrinted(e, h, rest);
  }

  // What a decoder of the original stream knows: it counts NumPicTotalCurr itself.
  function Counted(c: Context): Context {
    c.(totalCurr := None)
  }

  // An inter slice of an IDR picture has no set to take pictures from. A decoder refuses the original for that, and
  // refuses what the driver makes of it.
  lemma InterIdrUnreadable(slice: Slice, p: Picture, refs: References)
    requires WellFormedSlice(slice) && Accepts(slice, p, refs)
    requires
      var c := Original(p, refs, NalType(slice.bytes));
      InterIdr(c, ParseHeader(c, SliceBits(slice)).value.0)
    ensures ParseHeader(Counted(Original(p, refs, NalType(slice.bytes))), SliceBits(slice)).Failure?
    ensures ParseHeader(Emitted(p, refs, NalType(slice.bytes)), RewrittenBits(slice, p, refs)).Failure?
  {
    hide ParseHeader, PrintHeader, WfHeader, HeaderAccepted, DataAccepted, Printable, Original,
      Written, Emitted, SameRest, RewrittenBits, NewBody, PrintPrologue, PrintBody, BytesBits, Counted;
    var nalType := NalType(slice.bytes);
    AcceptedHeader(slice, p, refs);
    var rest := RewrittenPieces(slice, p, refs);
    var c := Original(p, refs, nalType);
    var x := ParseHeader(c, SliceBits(slice)).value.0;
    OriginalRefused(c, SliceBits(slice));
    BitsRefused(slice, p, refs, nalType, x, rest);
  }

  lemma OriginalRefused(c: Context, s: BitString)
    requires ParseHeader(c, s).Success? && InterIdr(c, ParseHeader(c, s).value.0)
    ensures ParseHeader(Counted(c), s).Failure?
  {
    hide DecodeUe, DecodeFixed, ParseRaw, ParseList, CeilLog2, ActiveCount;
    assert ParsePrologue(Counted(c), s, 0) == ParsePrologue(c, s, 0);
    var pos := ParsePrologue(c, s, 0).value.1;
    assert ParseKind(Counted(c), s, pos) == ParseKind(c, s, pos);
  }

  lemma BitsRefused(slice: Slice, p: Picture, refs: References, nalType: nat, x: Header, rest: BitString)
    requires WellFormedSlice(slice)
    requires WfHeader(Original(p, refs, nalType), x) && InterIdr(Original(p, refs, nalType), x)
    requires var h := NewHeader(Original(p, refs, nalType), slice, p, refs, x); Printable(h.body.value)
    ensures
      var h := NewHeader(Original(p, refs, nalType), slice, p, refs, x);
      ParseHeader(Emitted(p, refs, nalType), PrintHeader(Written(p, refs, nalType), h) + rest).Failure?
  {
    hide PrintPrologue, PrintKind, PrintSao, PrintLists, ParsePrologue, ParseKind, ParseSao, ParseActive, UeFits, Pow2,
      CeilLog2, At, WfLists;
    var c, e, w := Original(p, refs, nalType), Emitted(p, refs, nalType), Written(p, refs, nalType);
    var h := NewHeader(c, slice, p, refs, x);
    var a, k := PrintPrologue(w, h.prologue), PrintKind(h.body.value.kind);
    var body := PrintBody(w, h.body.value);
    PrologueAsWritten(p, refs, nalType, h.prologue);
    FitsAfter(p, refs, nalType, x.prologue.ppsId);
    FitsAfter(p, refs, nalType, x.body.value.kind.sliceType);
    BodyStart(w, h.body.value);
    assert body == k + body[|k|..];
    var s := a + body + rest;
    assert s == a + k + (body[|k|..] + rest);
    ReadsPrefix(a + k, body[|k|..] + rest);
    ReadsConcat(s, 0, a, k, |a + k|);
    PrologueComplete(e, s, 0, h.prologue, |a|);
    KindComplete(e, s, |a|, h.body.value.kind, |a + k|);
  }

  lemma BodyStart(c: Context, x: Body)
    requires Printable(x)
    ensures PrintKind(x.kind) <= PrintBody(c, x)
  {
    hide PrintKind, PrintSao, PrintLists, PrintRps;
  }

  // Which fields an emitted header shares with the original, and what stands in the others' place.
  predicate SameFields(c: Context, e: Context, x: Header, h: Header) {
    && h.prologue.first == x.prologue.first && h.prologue.ppsId == x.prologue.ppsId
    && h.prologue.dependent == x.prologue.dependent && h.prologue.address == x.prologue.address
    && h.prologue.noOutputOfPriorPics == (if c.Irap() then Some(false) else None)
    && h.body.Some? == x.body.Some?
    && (h.body.Some? ==>
          var a, b := x.body.value, h.body.value;
          && b.kind.extra == a.kind.extra && b.kind.sliceType == a.kind.sliceType && b.sao == a.sao
          && b.kind.picOutput == (if c.outputFlagPresent then Some(true) else None)
          && b.rps.Some? == a.rps.Some? && b.lists.Some? == a.lists.Some?
          && (b.rps.Some? ==> b.rps.value.lsb == a.rps.value.lsb && b.rps.value.mvp == a.rps.value.mvp)
          && (b.lists.Some? ==>
                && b.lists.value.active == a.lists.value.active
                && forall l :: 0 <= l < 2 ==> ActiveCount(e, b.lists.value, l) == ActiveCount(c, a.lists.value, l)))
  }

  lemma FieldsKept(slice: Slice, p: Picture, refs: References)
    requires WellFormedSlice(slice) && Accepts(slice, p, refs)
    ensures
      var c, e := Original(p, refs, NalType(slice.bytes)), Emitted(p, refs, NalType(slice.bytes));
      SameFields(c, e, ParseHeader(c, SliceBits(slice)).value.0, EmittedHeader(slice, p, refs))
  {
    hide ParseHeader, HeaderAccepted, DataAccepted, NewEntries, WfRps, WfLists, CeilLog2, SliceBits, ActiveCount,
      EmittedHeader;
    AcceptedHeader(slice, p, refs);
    var c, e := Original(p, refs, NalType(slice.bytes)), Emitted(p, refs, NalType(slice.bytes));
    var x, h := ParseHeader(c, SliceBits(slice)).value.0, EmittedHeader(slice, p, refs);
    if h.body.Some? && h.body.value.lists.Some? {
      SameCounts(c, e, x.body.value.lists.value, h.body.value.lists.value);
    }
  }

  lemma SameCounts(c: Context, e: Context, x: Lists, y: Lists)
    requires y.active == x.active && e.defaultActive0 == c.defaultActive0 && e.defaultActive1 == c.defaultActive1
    ensures forall l :: 0 <= l < 2 ==> ActiveCount(e, y, l) == ActiveCount(c, x, l)
  {
  }

  // ---------- The reference picture set and the lists ----------

  function EntriesOf(x: Lists, l: nat): Option<seq<nat>> {
    if l == 0 then x.entries0 else x.entries1
  }

  // The set decodes to the references of the picture.
  predicate TellsSet(e: Context, poc: int, refs: References, x: Rps) {
    OnlyExplicit(x) && DecodeRps(e, poc, x) == RefPicSet(Pocs(refs.before), Pocs(refs.after), Pocs(refs.longTerm))
  }

  // List l, built from nothing but the header, is the list VA gives.
  predicate TellsList(e: Context, poc: int, p: Picture, slice: Slice, h: Body, l: nat)
    requires h.rps.Some? && h.lists.Some? && WellFormedSlice(slice)
  {
    && OnlyExplicit(h.rps.value)
    && var base := CurrPocs(DecodeRps(e, poc, h.rps.value), l);
       var n, entries := ActiveCount(e, h.lists.value, l), EntriesOf(h.lists.value, l);
       && base != []
       && (entries.Some? ==> |entries.value| == n && forall v :: v in entries.value ==> v < |base|)
       && n <= 15
       && forall j :: 0 <= j < n ==>
            && slice.RefPicList(l)[j] < |p.frames|
            && RefPicList(base, n, entries)[j] == p.frames[slice.RefPicList(l)[j]].poc
  }

  // What list l of an emitted body holds.
  lemma NewListIs(p: Picture, refs: References, nalType: nat, slice: Slice, x: Body, l: nat)
    requires WellFormedSlice(slice)
    requires WfBody(Original(p, refs, nalType), x) && BodyAccepted(Original(p, refs, nalType), slice, p, refs, x)
    requires x.lists.Some? && (l == 0 || (l == 1 && x.kind.sliceType == 0))
    ensures
      var c, e := Original(p, refs, nalType), Emitted(p, refs, nalType);
      var h := NewBody(c, slice, p, refs, x);
      var n := ActiveCount(c, x.lists.value, l);
      var active := ActiveEntries(slice, l, n);
      && h.lists.Some? && ActiveCount(e, h.lists.value, l) == n <= 15 && |active| == n
      && (forall j :: 0 <= j < n ==> active[j] == slice.RefPicList(l)[j])
      && Found(refs.List(l), active) && 1 <= |refs.list0|
      && EntriesOf(h.lists.value, l) ==
         (if |refs.list0| > 1 then Some(Positions(refs.List(l), active)) else None)
  {
    hide UeFits, WfRps, Writable, CeilLog2, Positions, Found, WfList, WfActive, EmittedShortTerm, EmittedLongTerm;
    OriginalTotal(p, refs, nalType, x.rps);
  }

  lemma ListTold(
    e: Context, p: Picture, refs: References, slice: Slice, h: Body, l: nat, n: nat, active: seq<uint8>)
    requires WellFormedSlice(slice) && IsReferences(p, refs) && h.rps.Some? && h.lists.Some? && l < 2
    requires TellsSet(e, p.currPoc, refs, h.rps.value)
    requires ActiveCount(e, h.lists.value, l) == n <= 15 && |active| == n
    requires forall j :: 0 <= j < n ==> active[j] == slice.RefPicList(l)[j]
    requires Found(refs.List(l), active) && 1 <= |refs.list0| == |refs.list1|
    requires EntriesOf(h.lists.value, l) ==
             if |refs.list0| > 1 then Some(Positions(refs.List(l), active)) else None
    ensures TellsList(e, p.currPoc, p, slice, h, l)
  {
    hide IsReferences, DecodeRps, OnlyExplicit, CurrPocs, Positions, Found, Pocs, Located, RefPicList, ActiveCount,
      EntriesOf;
    CurrLength(p, refs, l);
    PositionsAre(refs.List(l), active);
    ListMeansSame(p, refs, l, CurrPocs(DecodeRps(e, p.currPoc, h.rps.value), l), active,
                  Positions(refs.List(l), active));
  }

  lemma BodyListsMeanSame(p: Picture, refs: References, nalType: nat, slice: Slice, x: Body, l: nat)
    requires WellFormedSlice(slice) && p.Checked() && WellFormed(p) && IsReferences(p, refs)
    requires WfBody(Original(p, refs, nalType), x) && BodyAccepted(Original(p, refs, nalType), slice, p, refs, x)
    requires x.rps.Some? && x.lists.Some? && (l == 0 || (l == 1 && x.kind.sliceType == 0))
    ensures
      TellsList(Emitted(p, refs, nalType), p.currPoc, p, slice,
                NewBody(Original(p, refs, nalType), slice, p, refs, x), l)
  {
    hide UeFits, WfBody, WfRps, IsReferences, Writable, ListsAccepted, CeilLog2, DecodeRps, OnlyExplicit, Positions,
      Found, Pocs, ActiveCount, EntriesOf, NewLists, TellsList;
    var c, e := Original(p, refs, nalType), Emitted(p, refs, nalType);
    var n := ActiveCount(c, x.lists.value, l);
    NewListIs(p, refs, nalType, slice, x, l);
    RpsRoundTrip(e, p, refs, x.rps.value.lsb, x.rps.value.mvp);
    TotalCurrIs(e, p, refs, x.rps.value.lsb, x.rps.value.mvp);
    ListTold(e, p, refs, slice, NewBody(c, slice, p, refs, x), l, n, ActiveEntries(slice, l, n));
  }

  lemma CurrLength(p: Picture, refs: References, l: nat)
    requires IsReferences(p, refs)
    ensures |CurrPocs(RefPicSet(Pocs(refs.before), Pocs(refs.after), Pocs(refs.longTerm)), l)| == |refs.List(l)|
  {
    hide IsReferences, CurrPocs, Pocs, PocsAt, Within;
    CurrPocsAre(p, refs, l);
  }

  // VA's picture order count is the one a decoder derives from the original slice and the picture before; the driver
  // carries the low bits over without looking at them.
  predicate TellsPoc(slice: Slice, p: Picture, refs: References, prev: Option<int>)
    requires WellFormedSlice(slice) && Accepts(slice, p, refs)
  {
    var x := ParseHeader(Original(p, refs, NalType(slice.bytes)), SliceBits(slice)).value.0;
    x.body.Some? && x.body.value.rps.Some? ==> PicOrderCnt(prev, x.body.value.rps.value.lsb, p.LsbBits()) == p.currPoc
  }

  // What an emitted header tells a decoder that saw the same pictures before.
  predicate TellsReferences(e: Context, prev: Option<int>, p: Picture, refs: References, slice: Slice, h: Header)
    requires WellFormedSlice(slice)
  {
    h.body.Some? && h.body.value.rps.Some? ==>
      var b := h.body.value;
      var poc := PicOrderCnt(prev, b.rps.value.lsb, e.lsbBits);
      && poc == p.currPoc
      && TellsSet(e, poc, refs, b.rps.value)
      && (b.lists.Some? ==> TellsList(e, poc, p, slice, b, 0))
      && (b.lists.Some? && b.kind.sliceType == 0 ==> TellsList(e, poc, p, slice, b, 1))
  }

  // The picture order count, the references and the reference lists of an accepted slice, told by the emitted header
  // alone, are those of VA.
  lemma ReferencesMeanSame(slice: Slice, p: Picture, refs: References, prev: Option<int>)
    requires WellFormedSlice(slice) && p.Checked() && WellFormed(p) && IsReferences(p, refs)
    requires Accepts(slice, p, refs) && TellsPoc(slice, p, refs, prev)
    ensures TellsReferences(Emitted(p, refs, NalType(slice.bytes)), prev, p, refs, slice, EmittedHeader(slice, p, refs))
  {
    hide ParseHeader, WfBody, WfPrologue, Writable, ListsAccepted, DataAccepted, IsReferences, TellsSet, TellsList,
      NewBody, BytesBits, PicOrderCnt;
    var nalType := NalType(slice.bytes);
    AcceptedHeader(slice, p, refs);
    var x := ParseHeader(Original(p, refs, nalType), SliceBits(slice)).value.0;
    if x.body.Some? {
      BodyReferencesMeanSame(p, refs, nalType, slice, x.body.value);
    }
  }

  lemma BodyReferencesMeanSame(p: Picture, refs: References, nalType: nat, slice: Slice, x: Body)
    requires WellFormedSlice(slice) && p.Checked() && WellFormed(p) && IsReferences(p, refs)
    requires WfBody(Original(p, refs, nalType), x) && BodyAccepted(Original(p, refs, nalType), slice, p, refs, x)
    ensures
      var e, b := Emitted(p, refs, nalType), NewBody(Original(p, refs, nalType), slice, p, refs, x);
      && e.lsbBits == p.LsbBits() && b.kind.sliceType == x.kind.sliceType
      && b.rps.Some? == x.rps.Some? && b.lists.Some? == x.lists.Some?
      && (b.rps.Some? ==>
            && b.rps.value.lsb == x.rps.value.lsb
            && TellsSet(e, p.currPoc, refs, b.rps.value)
            && (b.lists.Some? ==> TellsList(e, p.currPoc, p, slice, b, 0))
            && (b.lists.Some? && b.kind.sliceType == 0 ==> TellsList(e, p.currPoc, p, slice, b, 1)))
  {
    hide WfRps, WfLists, Writable, ListsAccepted, IsReferences, TellsList, DecodeRps, OnlyExplicit, Pocs, NewLists,
      CeilLog2;
    if x.rps.Some? {
      RpsRoundTrip(Emitted(p, refs, nalType), p, refs, x.rps.value.lsb, x.rps.value.mvp);
      if x.lists.Some? {
        BodyListsMeanSame(p, refs, nalType, slice, x, 0);
        if x.kind.sliceType == 0 {
          BodyListsMeanSame(p, refs, nalType, slice, x, 1);
        }
      }
    }
  }

  // ---------- What a slice means ----------

  // VA gives the frame as a reference; the picture itself refers to it.
  predicate Given(f: VaPicture) {
    f.surface != INVALID_SURFACE && !f.invalid
  }

  predicate Current(f: VaPicture) {
    f.stCurrBefore || f.stCurrAfter || f.ltCurr
  }

  // The group holds exactly the frames that VA gives for it, each once, with their flags.
  ghost predicate IsVaGroup(p: Picture, s: seq<Poc>, longTerm: bool, before: bool) {
    && (forall i :: (0 <= i < |p.frames| && Given(p.frames[i]) && p.frames[i].longTerm == longTerm &&
           (longTerm || (p.frames[i].poc < p.currPoc) == before)) ==>
          Poc(p.frames[i].poc, Current(p.frames[i])) in s)
    && (forall e :: e in s ==>
          exists i :: 0 <= i < |p.frames| && Given(p.frames[i]) && p.frames[i].longTerm == longTerm &&
            (longTerm || (p.frames[i].poc < p.currPoc) == before) && e == Poc(p.frames[i].poc, Current(p.frames[i])))
    && forall j, k :: 0 <= j < k < |s| ==> s[j].value != s[k].value
  }

  ghost predicate IsVaSet(p: Picture, x: RefPicSet) {
    IsVaGroup(p, x.before, false, true) && IsVaGroup(p, x.after, false, false) && IsVaGroup(p, x.longTerm, true, false)
  }

  // List l of a header is list l of VA, picture by picture.
  ghost predicate IsVaList(p: Picture, va: seq<uint8>, base: seq<int>, n: nat, entries: Option<seq<nat>>) {
    && base != [] && n <= 15 <= |va|
    && (entries.Some? ==> |entries.value| == n && forall v :: v in entries.value ==> v < |base|)
    && forall j :: 0 <= j < n ==>
         va[j] < |p.frames| && RefPicList(base, n, entries)[j] == p.frames[va[j]].poc
  }

  // The picture order count, references and lists that a header tells, read in context e behind a picture of order
  // count prev, are those of VA.
  ghost predicate TellsVa(e: Context, prev: Option<int>, p: Picture, slice: Slice, h: Header) {
    h.body.Some? && h.body.value.rps.Some? ==>
      var b := h.body.value;
      var poc := PicOrderCnt(prev, b.rps.value.lsb, e.lsbBits);
      && poc == p.currPoc && OnlyExplicit(b.rps.value)
      && var x := DecodeRps(e, poc, b.rps.value);
         && IsVaSet(p, x)
         && (b.lists.Some? ==>
               && IsVaList(p, slice.refPicList0, CurrPocs(x, 0), ActiveCount(e, b.lists.value, 0),
                           b.lists.value.entries0)
               && (b.kind.sliceType == 0 ==>
                     IsVaList(p, slice.refPicList1, CurrPocs(x, 1), ActiveCount(e, b.lists.value, 1),
                              b.lists.value.entries1)))
  }

  // A header h that ends at n of bits, read in context e, means what the client's slice means, whose header is x up to
  // q: the same fields; picture order count, references and lists of VA; and the same bits behind.
  ghost predicate Means(
    slice: Slice, p: Picture, prev: Option<int>, c: Context, x: Header, q: nat, e: Context, h: Header, bits: BitString,
    n: nat)
    requires |slice.bytes| >= 2
  {
    SameFields(c, e, x, h) && TellsVa(e, prev, p, slice, h) && n <= |bits| && SameRest(slice, q, bits, n)
  }

  // The rewritten slice can be read under the emitted parameter sets, and means what the original meant.
  ghost predicate KeepsMeaning(slice: Slice, p: Picture, refs: References, prev: Option<int>)
    requires WellFormedSlice(slice) && Accepts(slice, p, refs)
  {
    var c, e := Original(p, refs, NalType(slice.bytes)), Emitted(p, refs, NalType(slice.bytes));
    var bits := RewrittenBits(slice, p, refs);
    var (x, q) := ParseHeader(c, SliceBits(slice)).value;
    var parse := ParseHeader(e, bits);
    parse.Success? && Means(slice, p, prev, c, x, q, e, parse.value.0, bits, parse.value.1)
  }

  lemma {:induction false} PocsAre(s: seq<Reference>)
    ensures forall k :: 0 <= k < |s| ==> Pocs(s)[k] == Poc(s[k].poc, s[k].used)
  {
    if s != [] {
      PocsAre(s[1..]);
    }
  }

  lemma GroupIsVa(p: Picture, s: seq<Reference>, g: Group)
    requires Holds(p.currPoc, p.frames, |p.frames|, g, s)
    requires StrictlySorted(s, true) || StrictlySorted(s, false)
    ensures IsVaGroup(p, Pocs(s), g.LongTermGroup?, g.Before?)
  {
    hide Pocs;
    PocsAre(s);
    forall i | 0 <= i < |p.frames| && In(p.currPoc, p.frames, i, g)
      ensures Poc(p.frames[i].poc, Current(p.frames[i])) in Pocs(s)
    {
      var k :| 0 <= k < |s| && s[k] == Entry(p.frames, i);
      assert Pocs(s)[k] == Poc(p.frames[i].poc, Current(p.frames[i]));
    }
    forall e | e in Pocs(s)
      ensures exists i :: 0 <= i < |p.frames| && In(p.currPoc, p.frames, i, g) &&
                e == Poc(p.frames[i].poc, Current(p.frames[i]))
    {
      var k :| 0 <= k < |s| && Pocs(s)[k] == e;
      assert s[k] in s;
    }
  }

  lemma SetIsVa(p: Picture, refs: References)
    requires IsReferences(p, refs)
    ensures IsVaSet(p, RefPicSet(Pocs(refs.before), Pocs(refs.after), Pocs(refs.longTerm)))
  {
    hide Holds, StrictlySorted, IsVaGroup, Pocs;
    GroupIsVa(p, refs.before, Before);
    GroupIsVa(p, refs.after, After);
    GroupIsVa(p, refs.longTerm, LongTermGroup);
  }

  lemma ListIsVa(e: Context, poc: int, p: Picture, slice: Slice, b: Body, l: nat)
    requires WellFormedSlice(slice) && b.rps.Some? && b.lists.Some? && l < 2 && TellsList(e, poc, p, slice, b, l)
    ensures OnlyExplicit(b.rps.value)
    ensures IsVaList(p, if l == 0 then slice.refPicList0 else slice.refPicList1,
                     CurrPocs(DecodeRps(e, poc, b.rps.value), l), ActiveCount(e, b.lists.value, l),
                     if l == 0 then b.lists.value.entries0 else b.lists.value.entries1)
  {
    hide DecodeRps, CurrPocs, ActiveCount, OnlyExplicit, HevcDecoder.RefPicList;
    assert slice.RefPicList(l) == if l == 0 then slice.refPicList0 else slice.refPicList1;
    assert EntriesOf(b.lists.value, l) == if l == 0 then b.lists.value.entries0 else b.lists.value.entries1;
  }

  lemma ReferencesAreVa(e: Context, prev: Option<int>, p: Picture, refs: References, slice: Slice, h: Header)
    requires WellFormedSlice(slice) && IsReferences(p, refs) && TellsReferences(e, prev, p, refs, slice, h)
    ensures TellsVa(e, prev, p, slice, h)
  {
    hide IsReferences, DecodeRps, IsVaSet, Pocs, PicOrderCnt, CurrPocs, ActiveCount, OnlyExplicit, TellsList, IsVaList;
    SetIsVa(p, refs);
    if h.body.Some? && h.body.value.rps.Some? {
      var b := h.body.value;
      assert PicOrderCnt(prev, b.rps.value.lsb, e.lsbBits) == p.currPoc;
      assert OnlyExplicit(b.rps.value);
      assert IsVaSet(p, DecodeRps(e, p.currPoc, b.rps.value));
      if b.lists.Some? {
        ListIsVa(e, p.currPoc, p, slice, b, 0);
        if b.kind.sliceType == 0 {
          ListIsVa(e, p.currPoc, p, slice, b, 1);
        }
      }
    }
  }

  // The driver keeps the meaning of every slice it accepts, except that it forwards an inter slice of an IDR picture,
  // which no decoder could read in the first place.
  lemma MeaningKeptExactly(slice: Slice, p: Picture, refs: References, prev: Option<int>)
    requires WellFormedSlice(slice) && p.Checked() && WellFormed(p) && IsReferences(p, refs)
    requires Accepts(slice, p, refs) && TellsPoc(slice, p, refs, prev)
    ensures
      var c := Original(p, refs, NalType(slice.bytes));
      var unreadable := InterIdr(c, ParseHeader(c, SliceBits(slice)).value.0);
      && (KeepsMeaning(slice, p, refs, prev) <==> !unreadable)
      && (unreadable ==> ParseHeader(Counted(c), SliceBits(slice)).Failure?)
  {
    hide ParseHeader, HeaderAccepted, DataAccepted, Original, Emitted, InterIdr, RewrittenBits, EmittedHeader, SameRest,
      IsReferences, BytesBits, SameFields, TellsReferences, TellsVa, TellsPoc, Counted;
    var c := Original(p, refs, NalType(slice.bytes));
    if InterIdr(c, ParseHeader(c, SliceBits(slice)).value.0) {
      InterIdrUnreadable(slice, p, refs);
    } else {
      RewriteKeepsMeaning(slice, p, refs);
      FieldsKept(slice, p, refs);
      ReferencesMeanSame(slice, p, refs, prev);
      ReferencesAreVa(Emitted(p, refs, NalType(slice.bytes)), prev, p, refs, slice, EmittedHeader(slice, p, refs));
    }
  }

  // ---------- The bytes of the NAL unit ----------

  // The slice data in bytes.
  function SliceData(slice: Slice): seq<byte>
    requires |slice.bytes| >= 2 && 2 <= slice.dataByteOffset
    requires slice.dataByteOffset - 2 <= |Unescape(slice.bytes[2..])|
  {
    Unescape(slice.bytes[2..])[slice.dataByteOffset - 2..]
  }

  lemma PayloadIsSliceData(slice: Slice, p: Picture, refs: References)
    requires WellFormedSlice(slice) && Accepts(slice, p, refs)
    ensures 3 <= slice.dataByteOffset <= |Unescape(slice.bytes[2..])| + 2
    ensures 0 <= DataStart(slice) <= |SliceBits(slice)|
    ensures Payload(slice, SliceBits(slice)) == BytesBits(SliceData(slice))
  {
    hide ParseHeader, HeaderAccepted, Alignment, Original, BytesBits, Unescape, NalHeaderOk;
    var bs, k := Unescape(slice.bytes[2..]), slice.dataByteOffset - 2;
    BytesBitsSlice(bs, k, |bs|);
    assert bs[k..|bs|] == bs[k..];
  }

  // The emitted unit is the original NAL header, the escaped new slice header, and the slice data escaped
  // on its own: no emulation prevention byte depends on both, and unescaping returns header and data.
  lemma RewrittenUnitBytes(slice: Slice, p: Picture, refs: References)
    requires WellFormedSlice(slice) && Accepts(slice, p, refs)
    ensures 3 <= slice.dataByteOffset <= |Unescape(slice.bytes[2..])| + 2
    ensures
      var header := FromBits(Aligned(HeaderBits(slice, p, refs)));
      && RewrittenUnit(slice, p, refs) == slice.bytes[..2] + Escape(header) + Escape(SliceData(slice))
      && Unescape(RewrittenUnit(slice, p, refs)[2..]) == header + SliceData(slice)
      && NoTriples(RewrittenUnit(slice, p, refs))
  {
    hide ParseHeader, HeaderAccepted, DataAccepted, Original, BytesBits, Unescape, Escape, FromBits, HeaderBits,
      Aligned, Payload, NoTriples;
    PayloadIsSliceData(slice, p, refs);
    var header, data := FromBits(Aligned(HeaderBits(slice, p, refs))), SliceData(slice);
    AlignedLastByte(HeaderBits(slice, p, refs));
    PayloadWhole(slice, p, refs);
    FromBitsAppend(Aligned(HeaderBits(slice, p, refs)), Payload(slice, SliceBits(slice)));
    FromBitsOfBytes(data);
    EscapeAppend(header, data, 0);
    EscapeRunOfLast(header, 0);
    var unit := RewrittenUnit(slice, p, refs);
    UnitPieces(slice.bytes[..2], Escape(header), Escape(data));
    UnescapeEscape(header + data, 0);
    NalUnitHasNoTriples(slice.bytes[..2], header + data);
  }

  lemma UnitPieces(h: seq<byte>, a: seq<byte>, b: seq<byte>)
    requires |h| == 2
    ensures h + (a + b) == h + a + b
    ensures (h + (a + b))[2..] == a + b
  {
  }

  // ---------- A concrete inter slice of an IDR picture ----------

  const ABSENT := VaPicture(INVALID_SURFACE, 0, true, false, false, false, false)

  // One short-term reference one picture back, defaults everywhere else.
  const IDR_PICTURE := Picture(
    0,
    [VaPicture(1, -1, false, false, true, false, false), ABSENT, ABSENT, ABSENT, ABSENT, ABSENT, ABSENT, ABSENT,
     ABSENT, ABSENT, ABSENT, ABSENT, ABSENT, ABSENT, ABSENT],
    64, 64, 0, 0, 0, 0, 0, 0, 0, 3, 0, false, false, false, false, false, false)

  const IDR_REFERENCES := References([Reference(0, -1, true)], [], [], [0], [0])

  // IDR_W_RADL, then 1 0 ue(0) ue(1) 0 and byte_alignment(): a P slice with one active reference.
  const IDR_P_SLICE := Slice(
    [0x26, 0x01, 0xa9], 0, 1, 3,
    [0, 0, 0, 0, 0, 0, 0, 0, 0, 0, 0, 0, 0, 0, 0], [0, 0, 0, 0, 0, 0, 0, 0, 0, 0, 0, 0, 0, 0, 0])

  lemma TwoBits(v: nat, n: nat, a: bool, b: bool)
    requires v % 2 == BitValue(b) && v / 2 % 2 == BitValue(a)
    ensures FixedBits(v, n + 2) == FixedBits(v / 4, n) + [a, b]
  {
    assert v / 2 / 2 == v / 4;
    assert FixedBits(v / 2, n + 1) == FixedBits(v / 4, n) + [a];
    assert [a] + [b] == [a, b];
  }

  lemma IdrSliceBits()
    ensures SliceBits(IDR_P_SLICE) == [true, false, true, false, true, false, false, true]
  {
    hide FixedBits;
    assert IDR_P_SLICE.bytes[2..] == [0xa9];
    assert Unescape([0xa9]) == [0xa9];
    BytesBitsOne(0xa9);
    TwoBits(0xa9, 6, false, true);
    TwoBits(0x2a, 4, true, false);
    TwoBits(0xa, 2, true, false);
    TwoBits(2, 0, true, false);
  }

  lemma IdrUe(s: BitString)
    requires s == [true, false, true, false, true, false, false, true]
    ensures DecodeUe(s, 2, READER_ZEROS) == Success((0, 3))
    ensures DecodeUe(s, 3, READER_ZEROS) == Success((1, 6))
  {
    assert LeadingZeros(s, 4) == Some(0);
    assert s[5..6] == [false];
    assert ValueOf(s[5..6]) == 0;
    assert ValueOf(s[3..3]) == 0;
  }

  const IDR_HEADER := Header(
    Prologue(true, Some(false), 0, false, 0),
    Some(Body(Kind([], 1, None), None, None, Some(Lists(None, None, None)))))

  // A context that reads such a slice.
  predicate ReadsIdrSlice(c: Context) {
    && c.nalType == 19 && !c.dependentEnabled && c.extraBits == 0 && !c.outputFlagPresent && !c.sao
    && c.defaultActive0 == 1 && !c.listsModification && c.totalCurr == Some(1) && c.maxZeros == READER_ZEROS
  }

  lemma IdrParsed(c: Context, s: BitString)
    requires s == [true, false, true, false, true, false, false, true] && ReadsIdrSlice(c)
    ensures ParseHeader(c, s) == Success((IDR_HEADER, 7))
  {
    hide DecodeUe, CeilLog2;
    IdrUe(s);
    assert ParsePrologue(c, s, 0) == Success((IDR_HEADER.prologue, 3));
    assert ParseKind(c, s, 3) == Success((Kind([], 1, None), 6)) by {
      assert s[3..3] == [];
    }
    IdrListsParsed(c, s);
  }

  lemma IdrListsParsed(c: Context, s: BitString)
    requires s == [true, false, true, false, true, false, false, true] && ReadsIdrSlice(c)
    ensures ParseLists(c, s, 6, 1, 1) == Success((Lists(None, None, None), 7))
  {
    hide DecodeUe, CeilLog2;
  }

  lemma IdrReferences()
    ensures WellFormed(IDR_PICTURE) && IDR_PICTURE.Checked()
    ensures IsReferences(IDR_PICTURE, IDR_REFERENCES)
  {
    var frames := IDR_PICTURE.frames;
    assert forall i :: 1 <= i < 15 ==> frames[i] == ABSENT;
    var one := IDR_REFERENCES.before;
    assert one[1..] == [];
    assert UsedIndexes(one) == [0];
    assert Entry(frames, 0) == one[0] && one[0] in one;
  }

  lemma IdrAccepted(refs: References)
    requires refs.list0 == [0]
    ensures WellFormedSlice(IDR_P_SLICE)
    ensures Accepts(IDR_P_SLICE, IDR_PICTURE, refs)
    ensures
      var c := Original(IDR_PICTURE, refs, NalType(IDR_P_SLICE.bytes));
      InterIdr(c, ParseHeader(c, SliceBits(IDR_P_SLICE)).value.0)
  {
    hide ParseHeader, CeilLog2, SliceBits, Alignment;
    var c, s := Original(IDR_PICTURE, refs, 19), SliceBits(IDR_P_SLICE);
    IdrSliceBits();
    IdrParsed(c, s);
    IdrAlignment(s);
    var active := ActiveEntries(IDR_P_SLICE, 0, 1);
    assert active == [0];
    assert Found(refs.list0, active);
  }

  lemma IdrAlignment(s: BitString)
    requires s == [true, false, true, false, true, false, false, true]
    ensures Alignment(s, 7, 8, 8) == Some(7)
  {
  }

  // Accepted and rewritten, and a decoder can read neither the original nor what is made of it.
  lemma InterIdrExample()
    ensures WellFormedSlice(IDR_P_SLICE) && WellFormed(IDR_PICTURE) && IDR_PICTURE.Checked()
    ensures IsReferences(IDR_PICTURE, IDR_REFERENCES)
    ensures Accepts(IDR_P_SLICE, IDR_PICTURE, IDR_REFERENCES)
    ensures ParseHeader(Counted(Original(IDR_PICTURE, IDR_REFERENCES, NalType(IDR_P_SLICE.bytes))),
                        SliceBits(IDR_P_SLICE)).Failure?
    ensures ParseHeader(Emitted(IDR_PICTURE, IDR_REFERENCES, NalType(IDR_P_SLICE.bytes)),
                        RewrittenBits(IDR_P_SLICE, IDR_PICTURE, IDR_REFERENCES)).Failure?
  {
    hide ParseHeader, CeilLog2, SliceBits, RewrittenBits, IsReferences, InterIdr, Original, Emitted, HeaderAccepted,
      DataAccepted, Counted;
    IdrReferences();
    IdrAccepted(IDR_REFERENCES);
    InterIdrUnreadable(IDR_P_SLICE, IDR_PICTURE, IDR_REFERENCES);
  }

  // ---------- A concrete intra slice of an IDR picture ----------

  // The same NAL header, then 1 0 ue(0) ue(2) and byte_alignment(): an I slice.
  const IDR_I_SLICE := IDR_P_SLICE.(bytes := [0x26, 0x01, 0xae], sliceType := 2)

  const IDR_I_HEADER := Header(
    Prologue(true, Some(false), 0, false, 0), Some(Body(Kind([], 2, None), None, None, None)))

  lemma IntraSliceBits()
    ensures SliceBits(IDR_I_SLICE) == [true, false, true, false, true, true, true, false]
  {
    hide FixedBits;
    assert IDR_I_SLICE.bytes[2..] == [0xae];
    assert Unescape([0xae]) == [0xae];
    BytesBitsOne(0xae);
    TwoBits(0xae, 6, true, false);
    TwoBits(0x2b, 4, true, true);
    TwoBits(0xa, 2, true, false);
    TwoBits(2, 0, true, false);
  }

  lemma IntraUe(s: BitString)
    requires s == [true, false, true, false, true, true, true, false]
    ensures DecodeUe(s, 2, READER_ZEROS) == Success((0, 3))
    ensures DecodeUe(s, 3, READER_ZEROS) == Success((2, 6))
  {
    assert LeadingZeros(s, 4) == Some(0);
    assert s[5..6] == [true];
    assert ValueOf(s[5..6]) == 1;
    assert ValueOf(s[3..3]) == 0;
  }

  lemma IntraParsed(c: Context, s: BitString)
    requires s == [true, false, true, false, true, true, true, false] && ReadsIdrSlice(c)
    ensures ParseHeader(c, s) == Success((IDR_I_HEADER, 6))
  {
    hide DecodeUe, CeilLog2;
    IntraUe(s);
    assert ParsePrologue(c, s, 0) == Success((IDR_I_HEADER.prologue, 3));
    assert ParseKind(c, s, 3) == Success((Kind([], 2, None), 6)) by {
      assert s[3..3] == [];
    }
  }

  lemma IntraAlignment(s: BitString)
    requires s == [true, false, true, false, true, true, true, false]
    ensures Alignment(s, 6, 8, 8) == Some(6)
  {
  }

  // An I slice of the same picture is accepted and keeps its meaning.
  lemma IntraIdrExample()
    ensures WellFormedSlice(IDR_I_SLICE) && Accepts(IDR_I_SLICE, IDR_PICTURE, IDR_REFERENCES)
    ensures
      var parse := ParseHeader(Emitted(IDR_PICTURE, IDR_REFERENCES, NalType(IDR_I_SLICE.bytes)),
                               RewrittenBits(IDR_I_SLICE, IDR_PICTURE, IDR_REFERENCES));
      parse.Success? && parse.value.0 == EmittedHeader(IDR_I_SLICE, IDR_PICTURE, IDR_REFERENCES)
  {
    hide ParseHeader, CeilLog2, SliceBits, Alignment, IsReferences, RewrittenBits, EmittedHeader;
    IdrReferences();
    var c, s := Original(IDR_PICTURE, IDR_REFERENCES, 19), SliceBits(IDR_I_SLICE);
    IntraSliceBits();
    IntraParsed(c, s);
    IntraAlignment(s);
    RewriteKeepsMeaning(IDR_I_SLICE, IDR_PICTURE, IDR_REFERENCES);
  }
}
