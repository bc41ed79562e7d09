/**
  The explicit reference picture set the driver writes into a slice header, and what a decoder makes
  of it: sections 7.4.7.1, 7.4.8, 8.3.2 and 8.3.4 of ITU-T H.265.
 */
module HevcRps {
  import opened Bitstring
  import opened ExpGolomb
  import opened HevcBits
  import opened HevcPicture
  import opened HevcReferences
  import opened HevcSyntax
  import opened Limits
  import opened Wrappers

  // ---------- What is written ----------

  function Delta(prev: int, poc: int, after: bool): int {
    if after then poc - prev else prev - poc
  }

  // Consecutive POCs move away from the current one by 1 to 32768.
  predicate Steps(prev: int, s: seq<Reference>, after: bool)
    decreases |s|
  {
    s == [] || (0 < Delta(prev, s[0].poc, after) <= 32768 && Steps(s[0].poc, s[1..], after))
  }

  function Positive(v: int): nat {
    if v > 0 then v else 0
  }

  function StDeltas(prev: int, s: seq<Reference>, after: bool): (r: seq<StEntry>)
    ensures |r| == |s|
    decreases |s|
  {
    if s == [] then []
    else [StEntry(Positive(Delta(prev, s[0].poc, after) - 1), s[0].used)] + StDeltas(s[0].poc, s[1..], after)
  }

  // How many POC cycles a long-term picture lies before the current one.
  function Cycle(curr: int, n: nat, poc: int): int {
    curr / Pow2(n) - poc / Pow2(n)
  }

  predicate LtSteps(curr: int, n: nat, prev: int, s: seq<Reference>)
    decreases |s|
  {
    s == [] ||
    (prev <= Cycle(curr, n, s[0].poc) < UINT32_MAX && LtSteps(curr, n, Cycle(curr, n, s[0].poc), s[1..]))
  }

  function LtCodes(curr: int, n: nat, prev: int, s: seq<Reference>): (r: seq<LtEntry>)
    ensures |r| == |s|
    decreases |s|
  {
    if s == [] then []
    else
      var cycle := Cycle(curr, n, s[0].poc);
      [SliceLt(s[0].poc % Pow2(n), s[0].used, Some(Positive(cycle - prev)))] + LtCodes(curr, n, cycle, s[1..])
  }

  predicate Writable(p: Picture, refs: References) {
    && Steps(p.currPoc, refs.before, false)
    && Steps(p.currPoc, refs.after, true)
    && if p.longTermPresent then LtSteps(p.currPoc, p.LsbBits(), 0, refs.longTerm) else refs.longTerm == []
  }

  function EmittedShortTerm(p: Picture, refs: References): ShortTerm {
    Explicit(StDeltas(p.currPoc, refs.before, false), StDeltas(p.currPoc, refs.after, true))
  }

  function EmittedLongTerm(p: Picture, refs: References): Option<LongTerm> {
    if p.longTermPresent then Some(LongTerm(0, LtCodes(p.currPoc, p.LsbBits(), 0, refs.longTerm))) else None
  }

  // Parameter sets without reference picture sets of their own.
  predicate ExplicitOnly(c: Context, p: Picture) {
    c.spsRpsCount == 0 && c.spsLongTermCount == 0 && c.lsbBits == p.LsbBits()
  }

  // ---------- rps() ----------

  lemma {:induction false} StEntriesAppend(x: seq<StEntry>, y: seq<StEntry>)
    ensures PrintStEntries(x + y) == PrintStEntries(x) + PrintStEntries(y)
  {
    hide UeCode;
    if x == [] {
      assert x + y == y;
    } else {
      assert (x + y)[1..] == x[1..] + y;
      StEntriesAppend(x[1..], y);
    }
  }

  lemma StStep(a: BitString, prev: int, s: seq<Reference>, i: nat, after: bool)
    requires i < |s|
    ensures
      var r, d := s[i], Delta(prev, s[i].poc, after);
      && (Steps(prev, s[i..], after) <==> 0 < d <= 32768 && Steps(r.poc, s[i + 1..], after))
      && a + PrintStEntries(StDeltas(prev, s[i..], after)) ==
         a + UeCode(Positive(d - 1)) + [r.used] + PrintStEntries(StDeltas(r.poc, s[i + 1..], after))
  {
    hide UeCode;
    assert s[i..][1..] == s[i + 1..];
    var e, rest := StEntry(Positive(Delta(prev, s[i].poc, after) - 1), s[i].used),
      StDeltas(s[i].poc, s[i + 1..], after);
    assert ([e] + rest)[1..] == rest;
  }

  lemma StDone(a: BitString, prev: int, s: seq<Reference>, after: bool)
    ensures Steps(prev, s[|s|..], after)
    ensures a + PrintStEntries(StDeltas(prev, s[|s|..], after)) == a
  {
    assert s[|s|..] == [];
  }

  // One direction of the short-term set.
  method WriteShortTerm(b: Bits, s: seq<Reference>, curr: int32, after: bool) returns (o: Outcome)
    requires b.Valid()
    modifies b
    ensures b.Valid()
    ensures o.Pass? <==> Steps(curr, s, after)
    ensures o.Pass? ==>
      b.contents == old(b.contents) + PrintStEntries(StDeltas(curr, s, after))
  {
    hide Packs, UeCode, Steps, StDeltas, PrintStEntries;
    ghost var goal := b.contents + PrintStEntries(StDeltas(curr, s, after));
    var previous: int, i := curr, 0;
    assert s[0..] == s;
    while i < |s|
      invariant 0 <= i <= |s| && b.Valid()
      invariant Steps(curr, s, after) <==> Steps(previous, s[i..], after)
      invariant b.contents + PrintStEntries(StDeltas(previous, s[i..], after)) == goal
    {
      StStep(b.contents, previous, s, i, after);
      var r := s[i];
      var delta := Delta(previous, r.poc, after);
      :- Check(delta > 0 && delta <= 32768, Invalid);
      var _ := b.Ue(delta - 1);
      b.Bit(BitValue(r.used));
      previous := r.poc;
      i := i + 1;
    }
    StDone(b.contents, previous, s, after);
    return Pass;
  }

  // The MSB difference, computed as the driver does, is the floor difference of the cycles.
  lemma CycleIsMsbDifference(curr: int, n: nat, poc: int)
    ensures
      var m := Pow2(n);
      ((curr - curr % m) - (poc - poc % m)) / m == Cycle(curr, n, poc)
  {
    var m := Pow2(n);
    DivExact(curr / m, poc / m, m);
    assert curr - curr % m == m * (curr / m);
    assert poc - poc % m == m * (poc / m);
  }

  lemma DivExact(x: int, y: int, m: nat)
    requires m > 0
    ensures (m * x - m * y) / m == x - y
  {
    assert m * x - m * y == m * (x - y);
    MulDiv(x - y, m);
  }

  lemma MulDiv(x: int, m: nat)
    requires m > 0
    ensures (m * x) / m == x
  {
    var q, r := (m * x) / m, (m * x) % m;
    assert m * x == m * q + r;
    assert m * (x - q) == r;
    MulAtLeast(m, x - q);
    MulAtLeast(m, q - x);
  }

  lemma MulAtLeast(m: nat, k: int)
    ensures k >= 1 ==> m * k >= m
  {
    if k >= 1 {
      assert m * k == m + m * (k - 1);
    }
  }

  lemma LtStep(c: Context, a: BitString, curr: int, prev: int, s: seq<Reference>, i: nat)
    requires i < |s|
    ensures
      var r, cycle := s[i], Cycle(curr, c.lsbBits, s[i].poc);
      && (LtSteps(curr, c.lsbBits, prev, s[i..]) <==>
          prev <= cycle < UINT32_MAX && LtSteps(curr, c.lsbBits, cycle, s[i + 1..]))
      && a + PrintLtEntries(c, LtCodes(curr, c.lsbBits, prev, s[i..])) ==
         a + FixedBits(r.poc % Pow2(c.lsbBits), c.lsbBits) + [r.used] + [true] + UeCode(Positive(cycle - prev)) +
         PrintLtEntries(c, LtCodes(curr, c.lsbBits, cycle, s[i + 1..]))
  {
    hide UeCode, FixedBits, Cycle, Pow2, PrintLtEntries;
    assert s[i..][1..] == s[i + 1..];
    var cycle := Cycle(curr, c.lsbBits, s[i].poc);
    var e := SliceLt(s[i].poc % Pow2(c.lsbBits), s[i].used, Some(Positive(cycle - prev)));
    var rest := LtCodes(curr, c.lsbBits, cycle, s[i + 1..]);
    assert LtCodes(curr, c.lsbBits, prev, s[i..]) == [e] + rest;
    LtEntryFirst(c, a, e, rest);
  }

  lemma LtEntryFirst(c: Context, a: BitString, e: LtEntry, rest: seq<LtEntry>)
    requires e.SliceLt? && e.cycle.Some?
    ensures a + PrintLtEntries(c, [e] + rest) ==
            a + FixedBits(e.lsb, c.lsbBits) + [e.used] + [true] + UeCode(e.cycle.value) + PrintLtEntries(c, rest)
  {
    hide UeCode, FixedBits;
    assert ([e] + rest)[1..] == rest;
    FourPieces(a, FixedBits(e.lsb, c.lsbBits), [e.used], [true], UeCode(e.cycle.value), PrintLtEntries(c, rest));
  }

  lemma FourPieces(a: BitString, w: BitString, x: BitString, y: BitString, z: BitString, rest: BitString)
    ensures a + (w + x + (y + z) + rest) == a + w + x + y + z + rest
  {
    assert w + x + (y + z) == w + x + y + z;
  }

  lemma LtDone(c: Context, a: BitString, curr: int, prev: int, s: seq<Reference>)
    ensures LtSteps(curr, c.lsbBits, prev, s[|s|..])
    ensures a + PrintLtEntries(c, LtCodes(curr, c.lsbBits, prev, s[|s|..])) == a
  {
    assert s[|s|..] == [];
  }

  lemma LsbFits(poc: int, n: nat)
    requires n <= 16
    ensures 0 <= poc % Pow2(n) < 0x1_0000
  {
    Pow2Monotonic(n, 16);
    Pow2Values();
  }

  method WriteLongTerm(b: Bits, s: seq<Reference>, curr: int32, n: nat, ghost c: Context) returns (o: Outcome)
    requires b.Valid() && 4 <= n <= 16 && c.lsbBits == n
    modifies b
    ensures b.Valid()
    ensures o.Pass? <==> LtSteps(curr, n, 0, s)
    ensures o.Pass? ==> b.contents == old(b.contents) + PrintLtEntries(c, LtCodes(curr, n, 0, s))
  {
    hide Packs, UeCode, FixedBits, LtSteps, LtCodes, PrintLtEntries, Cycle, Pow2;
    var m := Pow2(n);
    ghost var goal := b.contents + PrintLtEntries(c, LtCodes(curr, n, 0, s));
    var currentMsb := curr - curr % m;
    var previousCycle, i := 0, 0;
    assert s[0..] == s;
    while i < |s|
      invariant 0 <= i <= |s| && b.Valid() && previousCycle >= 0
      invariant LtSteps(curr, n, 0, s) <==> LtSteps(curr, n, previousCycle, s[i..])
      invariant b.contents + PrintLtEntries(c, LtCodes(curr, n, previousCycle, s[i..])) == goal
    {
      LtStep(c, b.contents, curr, previousCycle, s, i);
      var r := s[i];
      LsbFits(r.poc, n);
      var lsb := r.poc % m;
      var cycle := (currentMsb - (r.poc - lsb)) / m;
      CycleIsMsbDifference(curr, n, r.poc);
      :- Check(cycle >= previousCycle && cycle < UINT32_MAX, Unsupported);
      var _ := b.Bits(lsb, n);
      b.Bit(BitValue(r.used));
      b.Bit(1);
      var _ := b.Ue(cycle - previousCycle);
      previousCycle := cycle;
      i := i + 1;
    }
    LtDone(c, b.contents, curr, previousCycle, s);
    return Pass;
  }

  method WriteRps(b: Bits, refs: References, p: Picture, ghost c: Context) returns (o: Outcome)
    requires b.Valid() && p.Checked() && ExplicitOnly(c, p)
    requires |refs.before| + |refs.after| + |refs.longTerm| <= 15
    modifies b
    ensures b.Valid()
    ensures o.Pass? <==> Writable(p, refs)
    ensures o.Pass? ==>
      b.contents == old(b.contents) + PrintShortTerm(c, EmittedShortTerm(p, refs)) +
                    PrintOptLongTerm(c, EmittedLongTerm(p, refs))
  {
    hide Packs, UeCode, Steps, LtSteps, StDeltas, LtCodes, PrintStEntries, PrintLtEntries, Pow2;
    ghost var start := b.contents;
    b.Bit(0);
    var _ := b.Ue(|refs.before|);
    var _ := b.Ue(|refs.after|);
    :- WriteShortTerm(b, refs.before, p.currPoc, false);
    :- WriteShortTerm(b, refs.after, p.currPoc, true);
    ShortTermPieces(c, start, StDeltas(p.currPoc, refs.before, false), StDeltas(p.currPoc, refs.after, true));
    if p.longTermPresent {
      var _ := b.Ue(|refs.longTerm|);
      :- WriteLongTerm(b, refs.longTerm, p.currPoc, p.LsbBits(), c);
      LongTermPieces(c, start + PrintShortTerm(c, EmittedShortTerm(p, refs)),
                     LtCodes(p.currPoc, p.LsbBits(), 0, refs.longTerm));
    } else {
      :- Check(refs.longTerm == [], Invalid);
    }
    return Pass;
  }

  lemma ShortTermPieces(c: Context, a: BitString, x: seq<StEntry>, y: seq<StEntry>)
    requires c.spsRpsCount == 0
    ensures a + [false] + UeCode(|x|) + UeCode(|y|) + PrintStEntries(x) + PrintStEntries(y) ==
            a + PrintShortTerm(c, Explicit(x, y))
  {
    hide UeCode, PrintStEntries;
    StEntriesAppend(x, y);
    FivePieces(a, [false], UeCode(|x|), UeCode(|y|), PrintStEntries(x), PrintStEntries(y));
  }

  lemma FivePieces(a: BitString, f: BitString, u: BitString, v: BitString, w: BitString, z: BitString)
    ensures a + f + u + v + w + z == a + (f + [] + (u + v) + (w + z))
  {
    assert f + [] == f;
    assert f + (u + v) + (w + z) == f + u + v + w + z;
  }

  lemma LongTermPieces(c: Context, a: BitString, x: seq<LtEntry>)
    requires c.spsLongTermCount == 0
    ensures a + UeCode(|x|) + PrintLtEntries(c, x) == a + PrintOptLongTerm(c, Some(LongTerm(0, x)))
  {
    hide UeCode, PrintLtEntries;
    assert [] + UeCode(|x|) == UeCode(|x|);
  }
}
