/**
  Parsing and printing of the slice segment header are inverse: each parser succeeds with x exactly
  where the syntax admits x and the bits of x stand.
 */
module HevcSyntaxProofs {
  import opened Bitstring
  import opened ExpGolomb
  import opened HevcSyntax
  import opened SyntaxElements
  import opened Wrappers

  lemma OptFlagExact(present: bool, s: BitString, pos: nat, o: Option<bool>, q: nat)
    requires pos <= |s|
    ensures ParseFlag(present, s, pos) == Success((o, q))
       <==> o.Some? == present && Reads(s, pos, PrintFlag(o), q)
  {
    if present && o.Some? {
      FlagExact(s, pos, o.value, q);
    }
  }

  lemma RawExact(s: BitString, pos: nat, n: nat, x: BitString, q: nat)
    ensures ParseRaw(s, pos, n) == Success((x, q)) <==> |x| == n && Reads(s, pos, x, q)
  {
  }

  lemma UeExact(c: Context, s: BitString, pos: nat, v: nat, q: nat)
    ensures ParseUe(c, s, pos) == Success((v, q)) <==> UeFits(c, v) && Reads(s, pos, UeCode(v), q)
  {
    DecodeUeExact(s, pos, c.maxZeros, v, q);
  }

  // ---------- Prologue ----------

  function PrintSegment(c: Context, first: bool, dependent: bool, address: nat): BitString {
    if first then []
    else (if c.dependentEnabled then [dependent] else []) + FixedBits(address, c.addressBits)
  }

  lemma SegmentSound(c: Context, s: BitString, pos: nat, first: bool)
    requires pos <= |s| && ParseSegment(c, s, pos, first).Success?
    ensures
      var ((dependent, address), q) := ParseSegment(c, s, pos, first).value;
      && (first || !c.dependentEnabled ==> !dependent)
      && (first ==> address == 0)
      && address < Pow2(c.addressBits)
      && Reads(s, pos, PrintSegment(c, first, dependent, address), q)
  {
    hide Reads, FixedBits, DecodeFixed, DecodeFlag, ParseFlag;
    if first {
      ReadsNothing(s, pos, pos);
    } else {
      var (o, p) := ParseFlag(c.dependentEnabled, s, pos).value;
      var (address, q) := DecodeFixed(s, p, c.addressBits).value;
      OptFlagExact(c.dependentEnabled, s, pos, o, p);
      FixedExact(s, p, c.addressBits, address, q);
      assert PrintFlag(o) == if c.dependentEnabled then [o.Some? && o.value] else [];
      ReadsJoin(s, pos, PrintFlag(o), p, FixedBits(address, c.addressBits), q);
    }
  }

  lemma SegmentComplete(c: Context, s: BitString, pos: nat, first: bool, dependent: bool, address: nat, q: nat)
    requires pos <= |s| && (first || !c.dependentEnabled ==> !dependent)
    requires (first ==> address == 0) && address < Pow2(c.addressBits)
    requires Reads(s, pos, PrintSegment(c, first, dependent, address), q)
    ensures ParseSegment(c, s, pos, first) == Success(((dependent, address), q))
  {
    hide FixedBits, Pow2, DecodeFixed, DecodeFlag, ParseFlag;
    if !first {
      var o := if c.dependentEnabled then Some(dependent) else None;
      var p := pos + |PrintFlag(o)|;
      ReadsConcat(s, pos, PrintFlag(o), FixedBits(address, c.addressBits), q);
      OptFlagExact(c.dependentEnabled, s, pos, o, p);
      FixedExact(s, p, c.addressBits, address, q);
    }
  }

  lemma PrologueSound(c: Context, s: BitString, pos: nat)
    requires ParsePrologue(c, s, pos).Success?
    ensures
      var (x, q) := ParsePrologue(c, s, pos).value;
      WfPrologue(c, x) && Reads(s, pos, PrintPrologue(c, x), q)
  {
    hide Reads, UeCode, FixedBits, Pow2, Log2, DecodeFlag, ParseFlag, ParseUe, ParseSegment;
    var (first, p0) := DecodeFlag(s, pos).value;
    var (noOutput, p1) := ParseFlag(c.Irap(), s, p0).value;
    var (ppsId, p2) := ParseUe(c, s, p1).value;
    var (segment, q) := ParseSegment(c, s, p2, first).value;
    FlagExact(s, pos, first, p0);
    ReadsBounds(s, pos, [first], p0);
    OptFlagExact(c.Irap(), s, p0, noOutput, p1);
    ReadsJoin(s, pos, [first], p0, PrintFlag(noOutput), p1);
    UeExact(c, s, p1, ppsId, p2);
    ReadsJoin(s, pos, [first] + PrintFlag(noOutput), p1, UeCode(ppsId), p2);
    ReadsBounds(s, p1, UeCode(ppsId), p2);
    SegmentSound(c, s, p2, first);
    ReadsJoin(s, pos, [first] + PrintFlag(noOutput) + UeCode(ppsId), p2,
              PrintSegment(c, first, segment.0, segment.1), q);
  }

  lemma PrologueComplete(c: Context, s: BitString, pos: nat, x: Prologue, q: nat)
    requires WfPrologue(c, x) && Reads(s, pos, PrintPrologue(c, x), q)
    ensures ParsePrologue(c, s, pos) == Success((x, q))
  {
    hide UeCode, FixedBits, Pow2, Log2, DecodeFlag, ParseFlag, ParseUe, ParseSegment, At;
    var a, b, u, z := [x.first], PrintFlag(x.noOutputOfPriorPics), UeCode(x.ppsId),
      PrintSegment(c, x.first, x.dependent, x.address);
    ReadsConcat(s, pos, a + b + u, z, q);
    ReadsConcat(s, pos, a + b, u, pos + |a + b + u|);
    ReadsConcat(s, pos, a, b, pos + |a + b|);
    FlagExact(s, pos, x.first, pos + 1);
    ReadsBounds(s, pos, a, pos + 1);
    OptFlagExact(c.Irap(), s, pos + 1, x.noOutputOfPriorPics, pos + |a + b|);
    UeExact(c, s, pos + |a + b|, x.ppsId, pos + |a + b + u|);
    ReadsBounds(s, pos, a + b + u, pos + |a + b + u|);
    SegmentComplete(c, s, pos + |a + b + u|, x.first, x.dependent, x.address, q);
  }

  // ---------- Slice kind ----------

  lemma KindSound(c: Context, s: BitString, pos: nat)
    requires ParseKind(c, s, pos).Success?
    ensures
      var (x, q) := ParseKind(c, s, pos).value;
      WfKind(c, x) && Reads(s, pos, PrintKind(x), q)
  {
    hide Reads, UeCode, Log2, ParseFlag, ParseUe, ParseRaw;
    var (extra, p0) := ParseRaw(s, pos, c.extraBits).value;
    var (sliceType, p1) := ParseUe(c, s, p0).value;
    var (picOutput, q) := ParseFlag(c.outputFlagPresent, s, p1).value;
    RawExact(s, pos, c.extraBits, extra, p0);
    UeExact(c, s, p0, sliceType, p1);
    ReadsBounds(s, p0, UeCode(sliceType), p1);
    OptFlagExact(c.outputFlagPresent, s, p1, picOutput, q);
    ReadsJoin(s, pos, extra, p0, UeCode(sliceType), p1);
    ReadsJoin(s, pos, extra + UeCode(sliceType), p1, PrintFlag(picOutput), q);
  }

  lemma KindComplete(c: Context, s: BitString, pos: nat, x: Kind, q: nat)
    requires WfKind(c, x) && Reads(s, pos, PrintKind(x), q)
    ensures ParseKind(c, s, pos) == Success((x, q))
  {
    hide UeCode, Log2, ParseFlag, ParseUe, ParseRaw, At;
    var a, u, z := x.extra, UeCode(x.sliceType), PrintFlag(x.picOutput);
    ReadsConcat(s, pos, a + u, z, q);
    ReadsConcat(s, pos, a, u, pos + |a + u|);
    RawExact(s, pos, c.extraBits, a, pos + |a|);
    UeExact(c, s, pos + |a|, x.sliceType, pos + |a + u|);
    ReadsBounds(s, pos, a + u, pos + |a + u|);
    OptFlagExact(c.outputFlagPresent, s, pos + |a + u|, x.picOutput, q);
  }

  // ---------- Reference picture set ----------

  lemma {:induction false} StEntriesSound(c: Context, s: BitString, pos: nat, n: nat)
    requires pos <= |s| && ParseStEntries(c, s, pos, n).Success?
    ensures
      var (x, q) := ParseStEntries(c, s, pos, n).value;
      |x| == n && WfStEntries(c, x) && Reads(s, pos, PrintStEntries(x), q)
    decreases n
  {
    hide Reads, UeCode, Log2, DecodeFlag, ParseUe;
    if n == 0 {
      ReadsNothing(s, pos, pos);
    } else {
      var (delta, p0) := ParseUe(c, s, pos).value;
      var (used, p1) := DecodeFlag(s, p0).value;
      var (rest, q) := ParseStEntries(c, s, p1, n - 1).value;
      UeExact(c, s, pos, delta, p0);
      FlagExact(s, p0, used, p1);
      ReadsBounds(s, p0, [used], p1);
      StEntriesSound(c, s, p1, n - 1);
      ReadsJoin(s, pos, UeCode(delta), p0, [used], p1);
      ReadsJoin(s, pos, UeCode(delta) + [used], p1, PrintStEntries(rest), q);
      assert ([StEntry(delta, used)] + rest)[1..] == rest;
    }
  }

  lemma {:induction false} StEntriesComplete(c: Context, s: BitString, pos: nat, x: seq<StEntry>, q: nat)
    requires WfStEntries(c, x) && Reads(s, pos, PrintStEntries(x), q)
    ensures ParseStEntries(c, s, pos, |x|) == Success((x, q))
    decreases |x|
  {
    hide At, UeCode, Log2, DecodeFlag, ParseUe;
    if x != [] {
      var u, b, rest := UeCode(x[0].deltaMinus1), [x[0].used], x[1..];
      ReadsConcat(s, pos, u + b, PrintStEntries(rest), q);
      ReadsConcat(s, pos, u, b, pos + |u + b|);
      UeExact(c, s, pos, x[0].deltaMinus1, pos + |u|);
      FlagExact(s, pos + |u|, x[0].used, pos + |u + b|);
      StEntriesComplete(c, s, pos + |u + b|, rest, q);
      assert [x[0]] + rest == x;
    }
  }

  function PrintExplicit(negative: seq<StEntry>, positive: seq<StEntry>): BitString {
    (UeCode(|negative|) + UeCode(|positive|)) + PrintStEntries(negative + positive)
  }

  lemma ExplicitSound(c: Context, s: BitString, pos: nat)
    requires ParseExplicit(c, s, pos).Success?
    ensures
      var (x, q) := ParseExplicit(c, s, pos).value;
      x.Explicit? && WfShortTerm(c, x) && Reads(s, pos, PrintExplicit(x.negative, x.positive), q)
  {
    hide Reads, UeCode, Log2, ParseUe, ParseStEntries, PrintStEntries;
    var (neg, p0) := ParseUe(c, s, pos).value;
    var (plus, p1) := ParseUe(c, s, p0).value;
    var (entries, q) := ParseStEntries(c, s, p1, neg + plus).value;
    UeExact(c, s, pos, neg, p0);
    UeExact(c, s, p0, plus, p1);
    ReadsBounds(s, p0, UeCode(plus), p1);
    StEntriesSound(c, s, p1, neg + plus);
    assert entries == entries[..neg] + entries[neg..];
    ReadsJoin(s, pos, UeCode(neg), p0, UeCode(plus), p1);
    ReadsJoin(s, pos, UeCode(neg) + UeCode(plus), p1, PrintStEntries(entries), q);
  }

  lemma ExplicitComplete(c: Context, s: BitString, pos: nat, negative: seq<StEntry>, positive: seq<StEntry>, q: nat)
    requires WfShortTerm(c, Explicit(negative, positive))
    requires Reads(s, pos, PrintExplicit(negative, positive), q)
    ensures ParseExplicit(c, s, pos) == Success((Explicit(negative, positive), q))
  {
    hide At, UeCode, Log2, ParseUe, ParseStEntries, PrintStEntries;
    var u, v, entries := UeCode(|negative|), UeCode(|positive|), negative + positive;
    ReadsConcat(s, pos, u + v, PrintStEntries(entries), q);
    ReadsConcat(s, pos, u, v, pos + |u + v|);
    UeExact(c, s, pos, |negative|, pos + |u|);
    UeExact(c, s, pos + |u|, |positive|, pos + |u + v|);
    StEntriesComplete(c, s, pos + |u + v|, entries, q);
    assert entries[..|negative|] == negative && entries[|negative|..] == positive;
  }

  // The prediction flag is read once as a flag and once more as the first bit of the predicted set.
  lemma PredictedFlag(s: BitString, pos: nat, raw: BitString, q: nat)
    requires raw != [] && Reads(s, pos, raw, q)
    ensures DecodeFlag(s, pos) == Success((raw[0], pos + 1))
  {
    assert s[pos..pos + |raw|][0] == s[pos];
  }

  lemma ShortTermSound(c: Context, s: BitString, pos: nat)
    requires ParseShortTerm(c, s, pos).Success?
    ensures
      var (x, q) := ParseShortTerm(c, s, pos).value;
      WfShortTerm(c, x) && Reads(s, pos, PrintShortTerm(c, x), q)
  {
    hide Reads, UeCode, FixedBits, Log2, Pow2, CeilLog2, DecodeFixed, ParseRaw, ParseExplicit, PrintStEntries;
    var (x, q) := ParseShortTerm(c, s, pos).value;
    var (fromSps, p0) := DecodeFlag(s, pos).value;
    FlagExact(s, pos, fromSps, p0);
    if fromSps {
      var (index, _) := DecodeFixed(s, p0, CeilLog2(c.spsRpsCount)).value;
      FixedExact(s, p0, CeilLog2(c.spsRpsCount), index, q);
      ReadsJoin(s, pos, [true], p0, FixedBits(index, CeilLog2(c.spsRpsCount)), q);
    } else {
      var (predicted, p1) := ParseFlag(c.spsRpsCount > 0, s, p0).value;
      ReadsBounds(s, pos, [false], p0);
      OptFlagExact(c.spsRpsCount > 0, s, p0, predicted, p1);
      if predicted.Some? && predicted.value {
        var (raw, _) := ParseRaw(s, p0, c.predictedRpsBits).value;
        RawExact(s, p0, c.predictedRpsBits, raw, q);
        FlagExact(s, p0, true, p1);
        PredictedFlag(s, p0, raw, q);
        ReadsJoin(s, pos, [false], p0, raw, q);
      } else {
        ExplicitSound(c, s, p1);
        ReadsJoin(s, pos, [false], p0, PrintFlag(predicted), p1);
        ReadsJoin(s, pos, [false] + PrintFlag(predicted), p1, PrintExplicit(x.negative, x.positive), q);
        ExplicitPrint(c, predicted, x.negative, x.positive);
      }
    }
  }

  lemma ExplicitPrint(c: Context, predicted: Option<bool>, negative: seq<StEntry>, positive: seq<StEntry>)
    requires predicted.Some? == (c.spsRpsCount > 0) && (predicted.Some? ==> !predicted.value)
    ensures PrintShortTerm(c, Explicit(negative, positive)) ==
      [false] + PrintFlag(predicted) + PrintExplicit(negative, positive)
  {
    hide UeCode, PrintStEntries;
    var a, b, x := [false] + PrintFlag(predicted), UeCode(|negative|) + UeCode(|positive|),
      PrintStEntries(negative + positive);
    assert a + b + x == a + (b + x);
  }

  lemma ShortTermComplete(c: Context, s: BitString, pos: nat, x: ShortTerm, q: nat)
    requires WfShortTerm(c, x) && Reads(s, pos, PrintShortTerm(c, x), q)
    ensures ParseShortTerm(c, s, pos) == Success((x, q))
  {
    hide At, UeCode, FixedBits, Log2, Pow2, CeilLog2, DecodeFixed, DecodeFlag, ParseRaw, ParseExplicit, PrintStEntries;
    match x
    case FromSps(index) =>
      var z := FixedBits(index, CeilLog2(c.spsRpsCount));
      ReadsConcat(s, pos, [true], z, q);
      FlagExact(s, pos, true, pos + 1);
      FixedExact(s, pos + 1, CeilLog2(c.spsRpsCount), index, q);
    case Predicted(raw) =>
      ReadsConcat(s, pos, [false], raw, q);
      FlagExact(s, pos, false, pos + 1);
      PredictedFlag(s, pos + 1, raw, q);
      RawExact(s, pos + 1, c.predictedRpsBits, raw, q);
    case Explicit(negative, positive) =>
      var predicted := if c.spsRpsCount > 0 then Some(false) else None;
      ExplicitPrint(c, predicted, negative, positive);
      var a, b := [false], PrintFlag(predicted);
      ReadsConcat(s, pos, a + b, PrintExplicit(negative, positive), q);
      ReadsConcat(s, pos, a, b, pos + |a + b|);
      FlagExact(s, pos, false, pos + 1);
      ReadsBounds(s, pos, a, pos + 1);
      OptFlagExact(c.spsRpsCount > 0, s, pos + 1, predicted, pos + |a + b|);
      ExplicitComplete(c, s, pos + |a + b|, negative, positive, q);
  }

  lemma CycleExact(c: Context, s: BitString, pos: nat, o: Option<nat>, q: nat)
    ensures ParseCycle(c, s, pos) == Success((o, q)) <==> WfCycle(c, o) && Reads(s, pos, PrintCycle(o), q)
  {
    hide At, UeCode, Log2, DecodeFlag, ParseUe;
    FlagExact(s, pos, o.Some?, pos + 1);
    if o.Some? {
      ReadsConcat(s, pos, [true], UeCode(o.value), q);
      UeExact(c, s, pos + 1, o.value, q);
    }
    if ParseCycle(c, s, pos) == Success((o, q)) {
      var (present, p0) := DecodeFlag(s, pos).value;
      FlagExact(s, pos, present, p0);
      if present {
        var (cycle, _) := ParseUe(c, s, p0).value;
        UeExact(c, s, p0, cycle, q);
      }
    }
  }

  lemma LtEntrySound(c: Context, s: BitString, pos: nat, fromSps: bool)
    requires ParseLtEntry(c, s, pos, fromSps).Success?
    ensures
      var (x, q) := ParseLtEntry(c, s, pos, fromSps).value;
      WfLtEntry(c, x, fromSps) && Reads(s, pos, PrintLtEntry(c, x), q)
  {
    hide Reads, UeCode, FixedBits, Log2, Pow2, CeilLog2, DecodeFixed, DecodeFlag, ParseCycle, PrintCycle, WfCycle;
    if fromSps {
      var n := CeilLog2(c.spsLongTermCount);
      var (index, p0) := DecodeFixed(s, pos, n).value;
      var (cycle, q) := ParseCycle(c, s, p0).value;
      FixedExact(s, pos, n, index, p0);
      CycleExact(c, s, p0, cycle, q);
      ReadsJoin(s, pos, FixedBits(index, n), p0, PrintCycle(cycle), q);
    } else {
      var (lsb, p0) := DecodeFixed(s, pos, c.lsbBits).value;
      var (used, p1) := DecodeFlag(s, p0).value;
      var (cycle, q) := ParseCycle(c, s, p1).value;
      FixedExact(s, pos, c.lsbBits, lsb, p0);
      FlagExact(s, p0, used, p1);
      CycleExact(c, s, p1, cycle, q);
      ReadsJoin(s, pos, FixedBits(lsb, c.lsbBits), p0, [used], p1);
      ReadsJoin(s, pos, FixedBits(lsb, c.lsbBits) + [used], p1, PrintCycle(cycle), q);
    }
  }

  lemma LtEntryComplete(c: Context, s: BitString, pos: nat, x: LtEntry, fromSps: bool, q: nat)
    requires WfLtEntry(c, x, fromSps) && Reads(s, pos, PrintLtEntry(c, x), q)
    ensures ParseLtEntry(c, s, pos, fromSps) == Success((x, q))
  {
    hide At, UeCode, FixedBits, Log2, Pow2, CeilLog2, DecodeFixed, DecodeFlag, ParseCycle, PrintCycle, WfCycle;
    match x
    case SpsLt(index, cycle) =>
      var a := FixedBits(index, CeilLog2(c.spsLongTermCount));
      ReadsConcat(s, pos, a, PrintCycle(cycle), q);
      FixedExact(s, pos, CeilLog2(c.spsLongTermCount), index, pos + |a|);
      CycleExact(c, s, pos + |a|, cycle, q);
    case SliceLt(lsb, used, cycle) =>
      var a, b := FixedBits(lsb, c.lsbBits), [used];
      ReadsConcat(s, pos, a + b, PrintCycle(cycle), q);
      ReadsConcat(s, pos, a, b, pos + |a + b|);
      FixedExact(s, pos, c.lsbBits, lsb, pos + |a|);
      FlagExact(s, pos + |a|, used, pos + |a + b|);
      CycleExact(c, s, pos + |a + b|, cycle, q);
  }

  lemma {:induction false} LtEntriesSound(c: Context, s: BitString, pos: nat, fromSps: nat, n: nat)
    requires pos <= |s| && ParseLtEntries(c, s, pos, fromSps, n).Success?
    ensures
      var (x, q) := ParseLtEntries(c, s, pos, fromSps, n).value;
      |x| == n && WfLtEntries(c, x, fromSps) && Reads(s, pos, PrintLtEntries(c, x), q)
    decreases n
  {
    hide Reads, ParseLtEntry, WfLtEntry, PrintLtEntry;
    if n == 0 {
      ReadsNothing(s, pos, pos);
    } else {
      var less := if fromSps > 0 then fromSps - 1 else 0;
      var (e, p0) := ParseLtEntry(c, s, pos, fromSps > 0).value;
      var (rest, q) := ParseLtEntries(c, s, p0, less, n - 1).value;
      LtEntrySound(c, s, pos, fromSps > 0);
      ReadsBounds(s, pos, PrintLtEntry(c, e), p0);
      LtEntriesSound(c, s, p0, less, n - 1);
      ReadsJoin(s, pos, PrintLtEntry(c, e), p0, PrintLtEntries(c, rest), q);
      assert ([e] + rest)[1..] == rest;
    }
  }

  lemma {:induction false} LtEntriesComplete(
    c: Context, s: BitString, pos: nat, x: seq<LtEntry>, fromSps: nat, q: nat)
    requires WfLtEntries(c, x, fromSps) && Reads(s, pos, PrintLtEntries(c, x), q)
    ensures ParseLtEntries(c, s, pos, fromSps, |x|) == Success((x, q))
    decreases |x|
  {
    hide At, ParseLtEntry, WfLtEntry, PrintLtEntry;
    if x != [] {
      var a, rest := PrintLtEntry(c, x[0]), x[1..];
      ReadsConcat(s, pos, a, PrintLtEntries(c, rest), q);
      LtEntryComplete(c, s, pos, x[0], fromSps > 0, pos + |a|);
      var less := if fromSps > 0 then fromSps - 1 else 0;
      assert forall i :: 0 <= i < |rest| ==> rest[i] == x[i + 1] && (i < less <==> i + 1 < fromSps);
      LtEntriesComplete(c, s, pos + |a|, rest, less, q);
      assert [x[0]] + rest == x;
    }
  }

  function PrintCount(present: bool, n: nat): BitString {
    if present then UeCode(n) else []
  }

  lemma CountExact(c: Context, present: bool, s: BitString, pos: nat, n: nat, q: nat)
    requires pos <= |s|
    ensures ParseCount(c, present, s, pos) == Success((n, q))
       <==> (if present then UeFits(c, n) else n == 0) && Reads(s, pos, PrintCount(present, n), q)
  {
    UeExact(c, s, pos, n, q);
  }

  lemma LongTermSound(c: Context, s: BitString, pos: nat)
    requires pos <= |s| && ParseLongTerm(c, s, pos).Success?
    ensures
      var (x, q) := ParseLongTerm(c, s, pos).value;
      WfLongTerm(c, x) && Reads(s, pos, PrintLongTerm(c, x), q)
  {
    hide Reads, UeCode, ParseCount, ParseUe, ParseLtEntries, PrintLtEntries, WfLtEntries, UeFits;
    var present := c.spsLongTermCount > 0;
    var (fromSps, p0) := ParseCount(c, present, s, pos).value;
    var (n, p1) := ParseUe(c, s, p0).value;
    var (entries, q) := ParseLtEntries(c, s, p1, fromSps, fromSps + n).value;
    CountExact(c, present, s, pos, fromSps, p0);
    UeExact(c, s, p0, n, p1);
    ReadsBounds(s, p0, UeCode(n), p1);
    LtEntriesSound(c, s, p1, fromSps, fromSps + n);
    ReadsJoin(s, pos, PrintCount(present, fromSps), p0, UeCode(n), p1);
    ReadsJoin(s, pos, PrintCount(present, fromSps) + UeCode(n), p1, PrintLtEntries(c, entries), q);
    ZeroFits(c);
  }

  lemma ZeroFits(c: Context)
    ensures UeFits(c, 0)
  {
  }

  lemma LongTermComplete(c: Context, s: BitString, pos: nat, x: LongTerm, q: nat)
    requires pos <= |s| && WfLongTerm(c, x) && Reads(s, pos, PrintLongTerm(c, x), q)
    ensures ParseLongTerm(c, s, pos) == Success((x, q))
  {
    hide At, UeCode, ParseCount, ParseUe, ParseLtEntries, PrintLtEntries, WfLtEntries, UeFits;
    var n := |x.entries| - x.fromSps;
    var present := c.spsLongTermCount > 0;
    var a, b := PrintCount(present, x.fromSps), UeCode(n);
    ReadsConcat(s, pos, a + b, PrintLtEntries(c, x.entries), q);
    ReadsConcat(s, pos, a, b, pos + |a + b|);
    CountExact(c, present, s, pos, x.fromSps, pos + |a|);
    UeExact(c, s, pos + |a|, n, pos + |a + b|);
    LtEntriesComplete(c, s, pos + |a + b|, x.entries, x.fromSps, q);
  }

  lemma OptLongTermSound(c: Context, s: BitString, pos: nat)
    requires pos <= |s| && ParseOptLongTerm(c, s, pos).Success?
    ensures
      var (x, q) := ParseOptLongTerm(c, s, pos).value;
      && x.Some? == c.longTermPresent
      && (x.Some? ==> WfLongTerm(c, x.value))
      && Reads(s, pos, PrintOptLongTerm(c, x), q)
  {
    hide Reads, ParseLongTerm, PrintLongTerm;
    if c.longTermPresent {
      LongTermSound(c, s, pos);
    } else {
      ReadsNothing(s, pos, pos);
    }
  }

  lemma OptLongTermComplete(c: Context, s: BitString, pos: nat, x: Option<LongTerm>, q: nat)
    requires pos <= |s| && x.Some? == c.longTermPresent && (x.Some? ==> WfLongTerm(c, x.value))
    requires Reads(s, pos, PrintOptLongTerm(c, x), q)
    ensures ParseOptLongTerm(c, s, pos) == Success((x, q))
  {
    hide At, ParseLongTerm, PrintLongTerm;
    if x.Some? {
      LongTermComplete(c, s, pos, x.value, q);
    }
  }

  lemma RpsSound(c: Context, s: BitString, pos: nat)
    requires ParseRps(c, s, pos).Success?
    ensures
      var (x, q) := ParseRps(c, s, pos).value;
      WfRps(c, x) && Reads(s, pos, PrintRps(c, x), q)
  {
    hide Reads, FixedBits, Pow2, DecodeFixed, ParseFlag, ParseShortTerm, ParseOptLongTerm,
      PrintShortTerm, PrintOptLongTerm, WfShortTerm;
    var (lsb, p0) := DecodeFixed(s, pos, c.lsbBits).value;
    var (st, p1) := ParseShortTerm(c, s, p0).value;
    var (lt, p2) := ParseOptLongTerm(c, s, p1).value;
    var (mvp, q) := ParseFlag(c.temporalMvp, s, p2).value;
    FixedExact(s, pos, c.lsbBits, lsb, p0);
    ShortTermSound(c, s, p0);
    ReadsBounds(s, p0, PrintShortTerm(c, st), p1);
    OptLongTermSound(c, s, p1);
    ReadsBounds(s, p1, PrintOptLongTerm(c, lt), p2);
    OptFlagExact(c.temporalMvp, s, p2, mvp, q);
    var a, b, d := FixedBits(lsb, c.lsbBits), PrintShortTerm(c, st), PrintOptLongTerm(c, lt);
    ReadsJoin(s, pos, a, p0, b, p1);
    ReadsJoin(s, pos, a + b, p1, d, p2);
    ReadsJoin(s, pos, a + b + d, p2, PrintFlag(mvp), q);
  }

  lemma RpsComplete(c: Context, s: BitString, pos: nat, x: Rps, q: nat)
    requires WfRps(c, x) && Reads(s, pos, PrintRps(c, x), q)
    ensures ParseRps(c, s, pos) == Success((x, q))
  {
    hide At, FixedBits, Pow2, DecodeFixed, ParseFlag, ParseShortTerm, ParseOptLongTerm,
      PrintShortTerm, PrintOptLongTerm, WfShortTerm;
    var a, b, d := FixedBits(x.lsb, c.lsbBits), PrintShortTerm(c, x.st), PrintOptLongTerm(c, x.lt);
    ReadsConcat(s, pos, a + b + d, PrintFlag(x.mvp), q);
    ReadsConcat(s, pos, a + b, d, pos + |a + b + d|);
    ReadsConcat(s, pos, a, b, pos + |a + b|);
    FixedExact(s, pos, c.lsbBits, x.lsb, pos + |a|);
    ShortTermComplete(c, s, pos + |a|, x.st, pos + |a + b|);
    ReadsBounds(s, pos, a + b, pos + |a + b|);
    OptLongTermComplete(c, s, pos + |a + b|, x.lt, pos + |a + b + d|);
    ReadsBounds(s, pos, a + b + d, pos + |a + b + d|);
    OptFlagExact(c.temporalMvp, s, pos + |a + b + d|, x.mvp, q);
  }

  // ---------- Reference lists ----------

  lemma SaoSound(c: Context, s: BitString, pos: nat)
    requires pos <= |s| && ParseSao(c, s, pos).Success?
    ensures
      var (x, q) := ParseSao(c, s, pos).value;
      x.Some? == c.sao && Reads(s, pos, PrintSao(x), q)
  {
    hide Reads, DecodeFlag;
    if c.sao {
      var (luma, p0) := DecodeFlag(s, pos).value;
      var (chroma, q) := DecodeFlag(s, p0).value;
      FlagExact(s, pos, luma, p0);
      FlagExact(s, p0, chroma, q);
      ReadsJoin(s, pos, [luma], p0, [chroma], q);
      assert [luma, chroma] == [luma] + [chroma];
    } else {
      ReadsNothing(s, pos, pos);
    }
  }

  lemma SaoComplete(c: Context, s: BitString, pos: nat, x: Option<Sao>, q: nat)
    requires pos <= |s| && x.Some? == c.sao && Reads(s, pos, PrintSao(x), q)
    ensures ParseSao(c, s, pos) == Success((x, q))
  {
    hide At, DecodeFlag;
    if x.Some? {
      var a, b := [x.value.luma], [x.value.chroma];
      assert PrintSao(x) == a + b;
      ReadsConcat(s, pos, a, b, q);
      FlagExact(s, pos, x.value.luma, pos + 1);
      FlagExact(s, pos + 1, x.value.chroma, q);
    }
  }

  lemma ActiveSound(c: Context, s: BitString, pos: nat, sliceType: nat)
    requires ParseActive(c, s, pos, sliceType).Success?
    ensures
      var (x, q) := ParseActive(c, s, pos, sliceType).value;
      WfActive(c, x, sliceType) && Reads(s, pos, PrintActive(x), q)
  {
    hide Reads, UeCode, UeFits, ParseUe, DecodeFlag;
    var (explicit, p0) := DecodeFlag(s, pos).value;
    FlagExact(s, pos, explicit, p0);
    if explicit {
      var (l0, p1) := ParseUe(c, s, p0).value;
      UeExact(c, s, p0, l0, p1);
      ReadsJoin(s, pos, [true], p0, UeCode(l0), p1);
      if sliceType == 0 {
        var (l1, q) := ParseUe(c, s, p1).value;
        UeExact(c, s, p1, l1, q);
        ReadsJoin(s, pos, [true] + UeCode(l0), p1, UeCode(l1), q);
      } else {
        assert [true] + UeCode(l0) + [] == [true] + UeCode(l0);
      }
    }
  }

  lemma ActiveComplete(c: Context, s: BitString, pos: nat, x: Option<Active>, sliceType: nat, q: nat)
    requires WfActive(c, x, sliceType) && Reads(s, pos, PrintActive(x), q)
    ensures ParseActive(c, s, pos, sliceType) == Success((x, q))
  {
    hide At, UeCode, UeFits, ParseUe, DecodeFlag;
    if x.None? {
      FlagExact(s, pos, false, q);
    } else {
      var a, b := [true], UeCode(x.value.l0);
      var z := if x.value.l1.Some? then UeCode(x.value.l1.value) else [];
      ReadsConcat(s, pos, a + b, z, q);
      ReadsConcat(s, pos, a, b, pos + |a + b|);
      FlagExact(s, pos, true, pos + 1);
      UeExact(c, s, pos + 1, x.value.l0, pos + |a + b|);
      if x.value.l1.Some? {
        UeExact(c, s, pos + |a + b|, x.value.l1.value, q);
      }
    }
  }

  lemma {:induction false} EntriesSound(s: BitString, pos: nat, n: nat, width: nat)
    requires pos <= |s| && ParseEntries(s, pos, n, width).Success?
    ensures
      var (x, q) := ParseEntries(s, pos, n, width).value;
      WfEntries(x, n, width) && Reads(s, pos, PrintEntries(x, width), q)
    decreases n
  {
    hide Reads, FixedBits, Pow2, DecodeFixed;
    if n == 0 {
      ReadsNothing(s, pos, pos);
    } else {
      var (v, p0) := DecodeFixed(s, pos, width).value;
      var (rest, q) := ParseEntries(s, p0, n - 1, width).value;
      FixedExact(s, pos, width, v, p0);
      ReadsBounds(s, pos, FixedBits(v, width), p0);
      EntriesSound(s, p0, n - 1, width);
      ReadsJoin(s, pos, FixedBits(v, width), p0, PrintEntries(rest, width), q);
      assert ([v] + rest)[1..] == rest;
    }
  }

  lemma {:induction false} EntriesComplete(s: BitString, pos: nat, x: seq<nat>, width: nat, q: nat)
    requires WfEntries(x, |x|, width) && Reads(s, pos, PrintEntries(x, width), q)
    ensures ParseEntries(s, pos, |x|, width) == Success((x, q))
    decreases |x|
  {
    hide At, FixedBits, Pow2, DecodeFixed;
    if x != [] {
      var a := FixedBits(x[0], width);
      ReadsConcat(s, pos, a, PrintEntries(x[1..], width), q);
      FixedExact(s, pos, width, x[0], pos + |a|);
      assert x[0] in x && forall v :: v in x[1..] ==> v in x;
      EntriesComplete(s, pos + |a|, x[1..], width, q);
      assert [x[0]] + x[1..] == x;
    }
  }

  // What one list of ref_pic_lists_modification() looks like, if it is there at all.
  function PrintOptList(present: bool, o: Option<seq<nat>>, width: nat): BitString {
    if present then PrintList(o, width) else []
  }

  lemma ListSound(present: bool, s: BitString, pos: nat, n: nat, width: nat)
    requires pos <= |s| && ParseList(present, s, pos, n, width).Success?
    ensures
      var (x, q) := ParseList(present, s, pos, n, width).value;
      && WfList(x, n, width) && (!present ==> x.None?)
      && Reads(s, pos, PrintOptList(present, x, width), q)
  {
    hide Reads, ParseEntries, PrintEntries, WfEntries, DecodeFlag;
    if present {
      var (modified, p0) := DecodeFlag(s, pos).value;
      FlagExact(s, pos, modified, p0);
      ReadsBounds(s, pos, [modified], p0);
      if modified {
        var (entries, q) := ParseEntries(s, p0, n, width).value;
        EntriesSound(s, p0, n, width);
        ReadsJoin(s, pos, [true], p0, PrintEntries(entries, width), q);
      }
    } else {
      ReadsNothing(s, pos, pos);
    }
  }

  lemma ListComplete(present: bool, s: BitString, pos: nat, x: Option<seq<nat>>, n: nat, width: nat, q: nat)
    requires WfList(x, n, width) && (!present ==> x.None?)
    requires Reads(s, pos, PrintOptList(present, x, width), q)
    ensures ParseList(present, s, pos, n, width) == Success((x, q))
  {
    hide At, ParseEntries, PrintEntries, DecodeFlag;
    if present {
      if x.Some? {
        ReadsConcat(s, pos, [true], PrintEntries(x.value, width), q);
        EntriesComplete(s, pos + 1, x.value, width, q);
      }
      FlagExact(s, pos, x.Some?, pos + 1);
    }
  }

  lemma ModificationPrint(c: Context, x: Lists, sliceType: nat, total: nat)
    ensures
      var present := c.listsModification && total > 1;
      PrintModification(c, x, sliceType, total) ==
      PrintOptList(present, x.entries0, CeilLog2(total)) +
      PrintOptList(present && sliceType == 0, x.entries1, CeilLog2(total))
  {
    hide PrintList, CeilLog2;
  }

  lemma ListsSound(c: Context, s: BitString, pos: nat, sliceType: nat, total: nat)
    requires ParseLists(c, s, pos, sliceType, total).Success?
    ensures
      var (x, q) := ParseLists(c, s, pos, sliceType, total).value;
      WfLists(c, x, sliceType, total) && Reads(s, pos, PrintLists(c, x, sliceType, total), q)
  {
    hide Reads, ParseActive, ParseList, PrintOptList, PrintActive, PrintModification, WfActive, WfList, CeilLog2;
    var (active, p0) := ParseActive(c, s, pos, sliceType).value;
    var bare := Lists(active, None, None);
    var present, width := c.listsModification && total > 1, CeilLog2(total);
    var n0, n1 := ActiveCount(c, bare, 0), ActiveCount(c, bare, 1);
    var (e0, p1) := ParseList(present, s, p0, n0, width).value;
    var (e1, q) := ParseList(present && sliceType == 0, s, p1, n1, width).value;
    ActiveSound(c, s, pos, sliceType);
    ReadsBounds(s, pos, PrintActive(active), p0);
    ListSound(present, s, p0, n0, width);
    ReadsBounds(s, p0, PrintOptList(present, e0, width), p1);
    ListSound(present && sliceType == 0, s, p1, n1, width);
    var z0, z1 := PrintOptList(present, e0, width), PrintOptList(present && sliceType == 0, e1, width);
    ReadsJoin(s, p0, z0, p1, z1, q);
    ReadsJoin(s, pos, PrintActive(active), p0, z0 + z1, q);
    ModificationPrint(c, Lists(active, e0, e1), sliceType, total);
  }

  lemma ListsComplete(c: Context, s: BitString, pos: nat, x: Lists, sliceType: nat, total: nat, q: nat)
    requires WfLists(c, x, sliceType, total) && Reads(s, pos, PrintLists(c, x, sliceType, total), q)
    ensures ParseLists(c, s, pos, sliceType, total) == Success((x, q))
  {
    hide At, ParseActive, ParseList, PrintOptList, PrintActive, PrintModification, WfActive, WfList, CeilLog2;
    var present, width := c.listsModification && total > 1, CeilLog2(total);
    ModificationPrint(c, x, sliceType, total);
    var a := PrintActive(x.active);
    var z0, z1 := PrintOptList(present, x.entries0, width), PrintOptList(present && sliceType == 0, x.entries1, width);
    ReadsConcat(s, pos, a, z0 + z1, q);
    ReadsConcat(s, pos + |a|, z0, z1, q);
    ActiveComplete(c, s, pos, x.active, sliceType, pos + |a|);
    ListComplete(present, s, pos + |a|, x.entries0, ActiveCount(c, x, 0), width, pos + |a| + |z0|);
    ListComplete(present && sliceType == 0, s, pos + |a| + |z0|, x.entries1, ActiveCount(c, x, 1), width, q);
  }

  // ---------- The whole header ----------

  function PrintOptRps(c: Context, o: Option<Rps>): BitString
    requires o.Some? && o.value.lt.Some? ==> o.value.lt.value.fromSps <= |o.value.lt.value.entries|
  {
    if o.Some? then PrintRps(c, o.value) else []
  }

  function PrintOptLists(c: Context, o: Option<Lists>, sliceType: nat, total: nat): BitString {
    if o.Some? then PrintLists(c, o.value, sliceType, total) else []
  }

  lemma OptRpsSound(c: Context, s: BitString, pos: nat)
    requires pos <= |s| && ParseOptRps(c, s, pos).Success?
    ensures
      var (x, q) := ParseOptRps(c, s, pos).value;
      x.Some? == !c.Idr() && (x.Some? ==> WfRps(c, x.value)) && Reads(s, pos, PrintOptRps(c, x), q)
  {
    hide Reads, ParseRps, PrintRps, WfShortTerm;
    if c.Idr() {
      ReadsNothing(s, pos, pos);
    } else {
      RpsSound(c, s, pos);
    }
  }

  lemma OptRpsComplete(c: Context, s: BitString, pos: nat, x: Option<Rps>, q: nat)
    requires pos <= |s| && x.Some? == !c.Idr() && (x.Some? ==> WfRps(c, x.value))
    requires Reads(s, pos, PrintOptRps(c, x), q)
    ensures ParseOptRps(c, s, pos) == Success((x, q))
  {
    hide At, ParseRps, PrintRps, WfShortTerm;
    if x.Some? {
      RpsComplete(c, s, pos, x.value, q);
    }
  }

  lemma OptListsSound(c: Context, s: BitString, pos: nat, sliceType: nat, total: nat)
    requires pos <= |s| && ParseOptLists(c, s, pos, sliceType, total).Success?
    ensures
      var (x, q) := ParseOptLists(c, s, pos, sliceType, total).value;
      && x.Some? == (sliceType != 2)
      && (x.Some? ==> WfLists(c, x.value, sliceType, total))
      && Reads(s, pos, PrintOptLists(c, x, sliceType, total), q)
  {
    hide Reads, ParseLists, PrintLists, WfLists;
    if sliceType == 2 {
      ReadsNothing(s, pos, pos);
    } else {
      ListsSound(c, s, pos, sliceType, total);
    }
  }

  lemma OptListsComplete(c: Context, s: BitString, pos: nat, x: Option<Lists>, sliceType: nat, total: nat, q: nat)
    requires pos <= |s| && x.Some? == (sliceType != 2)
    requires x.Some? ==> WfLists(c, x.value, sliceType, total)
    requires Reads(s, pos, PrintOptLists(c, x, sliceType, total), q)
    ensures ParseOptLists(c, s, pos, sliceType, total) == Success((x, q))
  {
    hide At, ParseLists, PrintLists, WfLists;
    if x.Some? {
      ListsComplete(c, s, pos, x.value, sliceType, total, q);
    }
  }

  lemma BodySound(c: Context, s: BitString, pos: nat)
    requires ParseBody(c, s, pos).Success?
    ensures
      var (x, q) := ParseBody(c, s, pos).value;
      WfBody(c, x) && Reads(s, pos, PrintBody(c, x), q)
  {
    hide Reads, ParseKind, ParseOptRps, ParseSao, ParseOptLists, PrintKind, PrintRps, PrintSao, PrintLists,
      WfKind, WfShortTerm, WfLists, TotalCurr;
    var (kind, p0) := ParseKind(c, s, pos).value;
    var (rps, p1) := ParseOptRps(c, s, p0).value;
    var (sao, p2) := ParseSao(c, s, p1).value;
    var total := TotalCurr(c, rps);
    var (lists, q) := ParseOptLists(c, s, p2, kind.sliceType, total).value;
    KindSound(c, s, pos);
    ReadsBounds(s, pos, PrintKind(kind), p0);
    OptRpsSound(c, s, p0);
    ReadsBounds(s, p0, PrintOptRps(c, rps), p1);
    SaoSound(c, s, p1);
    ReadsBounds(s, p1, PrintSao(sao), p2);
    OptListsSound(c, s, p2, kind.sliceType, total);
    var a, b, d, z := PrintKind(kind), PrintOptRps(c, rps), PrintSao(sao),
      PrintOptLists(c, lists, kind.sliceType, total);
    ReadsJoin(s, pos, a, p0, b, p1);
    ReadsJoin(s, pos, a + b, p1, d, p2);
    ReadsJoin(s, pos, a + b + d, p2, z, q);
  }

  lemma BodyComplete(c: Context, s: BitString, pos: nat, x: Body, q: nat)
    requires WfBody(c, x) && Reads(s, pos, PrintBody(c, x), q)
    ensures ParseBody(c, s, pos) == Success((x, q))
  {
    hide At, ParseKind, ParseOptRps, ParseSao, ParseOptLists, PrintKind, PrintRps, PrintSao, PrintLists,
      WfKind, WfShortTerm, WfLists, TotalCurr;
    var total := TotalCurr(c, x.rps);
    var a, b, d, z := PrintKind(x.kind), PrintOptRps(c, x.rps), PrintSao(x.sao),
      PrintOptLists(c, x.lists, x.kind.sliceType, total);
    ReadsConcat(s, pos, a + b + d, z, q);
    ReadsConcat(s, pos, a + b, d, pos + |a + b + d|);
    ReadsConcat(s, pos, a, b, pos + |a + b|);
    KindComplete(c, s, pos, x.kind, pos + |a|);
    ReadsBounds(s, pos, a, pos + |a|);
    OptRpsComplete(c, s, pos + |a|, x.rps, pos + |a + b|);
    ReadsBounds(s, pos, a + b, pos + |a + b|);
    SaoComplete(c, s, pos + |a + b|, x.sao, pos + |a + b + d|);
    ReadsBounds(s, pos, a + b + d, pos + |a + b + d|);
    OptListsComplete(c, s, pos + |a + b + d|, x.lists, x.kind.sliceType, total, q);
  }

  lemma WfIsPrintable(c: Context, x: Body)
    requires WfBody(c, x)
    ensures Printable(x)
  {
  }

  lemma HeaderSound(c: Context, s: BitString)
    requires ParseHeader(c, s).Success?
    ensures
      var (x, q) := ParseHeader(c, s).value;
      WfHeader(c, x) && (x.body.Some? ==> Printable(x.body.value)) && Reads(s, 0, PrintHeader(c, x), q)
  {
    hide Reads, ParsePrologue, ParseBody, PrintPrologue, PrintBody, WfPrologue, WfBody, Printable;
    var (prologue, p0) := ParsePrologue(c, s, 0).value;
    PrologueSound(c, s, 0);
    if prologue.dependent {
      assert PrintPrologue(c, prologue) + [] == PrintPrologue(c, prologue);
    } else {
      var (body, q) := ParseBody(c, s, p0).value;
      BodySound(c, s, p0);
      WfIsPrintable(c, body);
      ReadsJoin(s, 0, PrintPrologue(c, prologue), p0, PrintBody(c, body), q);
    }
  }

  lemma HeaderComplete(c: Context, s: BitString, x: Header, q: nat)
    requires WfHeader(c, x) && (x.body.Some? ==> Printable(x.body.value)) && Reads(s, 0, PrintHeader(c, x), q)
    ensures ParseHeader(c, s) == Success((x, q))
  {
    hide At, ParsePrologue, ParseBody, PrintPrologue, PrintBody, WfPrologue, WfBody;
    var a := PrintPrologue(c, x.prologue);
    if x.body.Some? {
      ReadsConcat(s, 0, a, PrintBody(c, x.body.value), q);
      BodyComplete(c, s, |a|, x.body.value, q);
    } else {
      assert a + [] == a;
    }
    PrologueComplete(c, s, 0, x.prologue, |a|);
  }

  // Whatever follows a printed header, parsing returns the header and stops behind it.
  lemma ParsePrinted(c: Context, x: Header, rest: BitString)
    requires WfHeader(c, x) && (x.body.Some? ==> Printable(x.body.value))
    ensures ParseHeader(c, PrintHeader(c, x) + rest) == Success((x, |PrintHeader(c, x)|))
  {
    hide PrintHeader, WfHeader, ParseHeader;
    HeaderComplete(c, PrintHeader(c, x) + rest, x, |PrintHeader(c, x)|);
  }
}
