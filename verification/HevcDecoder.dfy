/**
  What a decoder derives from an explicit reference picture set and a list modification: the picture
  order counts of section 7.4.8 and 8.3.2, and the reference picture lists of section 8.3.4 of
  ITU-T H.265.
 */
module HevcDecoder {
  import opened Bitstring
  import opened HevcPicture
  import opened HevcReferences
  import opened HevcRps
  import opened HevcSyntax
  import opened Limits
  import opened Wrappers

  datatype Poc = Poc(value: int, used: bool)

  // PocStCurrBefore / PocStFoll and their like, before the used entries are picked out.
  datatype RefPicSet = RefPicSet(before: seq<Poc>, after: seq<Poc>, longTerm: seq<Poc>)

  // PicOrderCntVal + DeltaPocS0[i] (7-65, 7-67) or + DeltaPocS1[i] (7-66, 7-68).
  function StPocs(prev: int, x: seq<StEntry>, after: bool): seq<Poc>
    decreases |x|
  {
    if x == [] then []
    else
      var value := if after then prev + (x[0].deltaMinus1 + 1) else prev - (x[0].deltaMinus1 + 1);
      [Poc(value, x[0].used)] + StPocs(value, x[1..], after)
  }

  // PocLsbLt with DeltaPocMsbCycleLt (7-52) accumulated over the entries.
  function LtPocs(curr: int, n: nat, prev: int, x: seq<LtEntry>): seq<Poc>
    requires forall e :: e in x ==> e.SliceLt?
    decreases |x|
  {
    if x == [] then []
    else
      var cycle := prev + if x[0].cycle.Some? then x[0].cycle.value else 0;
      var msb := if x[0].cycle.Some? then curr - cycle * Pow2(n) - curr % Pow2(n) else 0;
      [Poc(x[0].lsb + msb, x[0].used)] + LtPocs(curr, n, cycle, x[1..])
  }

  predicate OnlyExplicit(x: Rps) {
    x.st.Explicit? && (x.lt.Some? ==> forall e :: e in x.lt.value.entries ==> e.SliceLt?)
  }

  function DecodeRps(c: Context, curr: int, x: Rps): RefPicSet
    requires OnlyExplicit(x)
  {
    RefPicSet(
      StPocs(curr, x.st.negative, false),
      StPocs(curr, x.st.positive, true),
      if x.lt.Some? then LtPocs(curr, c.lsbBits, 0, x.lt.value.entries) else [])
  }

  function Pocs(s: seq<Reference>): (r: seq<Poc>)
    ensures |r| == |s|
  {
    if s == [] then [] else [Poc(s[0].poc, s[0].used)] + Pocs(s[1..])
  }

  // ---------- Picture order counts ----------

  // PicOrderCntVal (8-1, 8-2) from slice_pic_order_cnt_lsb and the POC of prevTid0Pic; a picture that starts a coded
  // video sequence has no such picture.
  function PicOrderCnt(prev: Option<int>, lsb: nat, n: nat): int {
    if prev.None? then lsb
    else
      var max := Pow2(n);
      var prevLsb := prev.value % max;
      var prevMsb := prev.value - prevLsb;
      lsb + if lsb < prevLsb && 2 * (prevLsb - lsb) >= max then prevMsb + max
            else if lsb > prevLsb && 2 * (lsb - prevLsb) > max then prevMsb - max
            else prevMsb
  }

  // The low bits tell a POC within half a cycle of the one before, and no other.
  lemma PicOrderCntExact(prev: int, lsb: nat, n: nat, poc: int)
    requires lsb < Pow2(n)
    ensures PicOrderCnt(Some(prev), lsb, n) == poc <==>
            lsb == poc % Pow2(n) && 2 * (prev - poc) < Pow2(n) && 2 * (poc - prev) <= Pow2(n)
  {
    hide Pow2, PicOrderCnt;
    var v := PicOrderCnt(Some(prev), lsb, n);
    NearestTold(prev, lsb, n);
    if lsb == poc % Pow2(n) && 2 * (prev - poc) < Pow2(n) && 2 * (poc - prev) <= Pow2(n) {
      NearestUnique(prev, lsb, Pow2(n), v, poc);
    }
  }

  lemma Cycles(v: int, max: nat)
    requires 0 < max
    ensures v == v / max * max + v % max
  {
  }

  lemma NearestUnique(prev: int, lsb: nat, max: nat, v: int, w: int)
    requires 0 < max && lsb == v % max && lsb == w % max
    requires 2 * (prev - v) < max && 2 * (v - prev) <= max
    requires 2 * (prev - w) < max && 2 * (w - prev) <= max
    ensures v == w
  {
    Cycles(v, max);
    Cycles(w, max);
    if v / max != w / max {
      ApartByCycles(v / max, w / max, max);
    }
  }

  lemma NearestTold(prev: int, lsb: nat, n: nat)
    requires lsb < Pow2(n)
    ensures
      var v := PicOrderCnt(Some(prev), lsb, n);
      v % Pow2(n) == lsb && 2 * (prev - v) < Pow2(n) && 2 * (v - prev) <= Pow2(n)
  {
    hide Pow2;
    var max := Pow2(n);
    var a := prev / max;
    var msb := a * max;
    assert prev == msb + prev % max;
    NextCycles(a, max);
    RestOf(a, lsb, max);
    RestOf(a + 1, lsb, max);
    RestOf(a - 1, lsb, max);
  }

  lemma NextCycles(a: int, max: nat)
    ensures (a + 1) * max == a * max + max && (a - 1) * max == a * max - max
  {
  }

  lemma RestOf(a: int, lsb: nat, max: nat)
    requires lsb < max
    ensures (a * max + lsb) % max == lsb
  {
    var x := a * max + lsb;
    var q := x / max;
    assert x == q * max + x % max;
    if q != a {
      ApartByCycles(a, q, max);
    }
  }

  lemma ApartByCycles(a: int, b: int, max: nat)
    requires a != b
    ensures a * max - b * max >= max || b * max - a * max >= max
  {
    var d := if a < b then b - a else a - b;
    assert d * max >= max by {
      ProductMonotonic(1, d, max);
    }
  }

  // ---------- The set comes back ----------

  lemma {:induction false} StRoundTrip(prev: int, s: seq<Reference>, after: bool)
    requires Steps(prev, s, after)
    ensures StPocs(prev, StDeltas(prev, s, after), after) == Pocs(s)
    decreases |s|
  {
    if s != [] {
      StRoundTrip(s[0].poc, s[1..], after);
      var rest := StDeltas(s[0].poc, s[1..], after);
      var x := StDeltas(prev, s, after);
      assert x[1..] == rest;
    }
  }

  lemma CycleUndone(curr: int, n: nat, poc: int)
    ensures poc % Pow2(n) + curr - Cycle(curr, n, poc) * Pow2(n) - curr % Pow2(n) == poc
  {
    var m := Pow2(n);
    var a, b := curr / m, poc / m;
    assert curr == m * a + curr % m && poc == m * b + poc % m;
    assert (a - b) * m == m * a - m * b;
  }

  lemma {:induction false} LtRoundTrip(curr: int, n: nat, prev: int, s: seq<Reference>)
    requires LtSteps(curr, n, prev, s)
    ensures forall e :: e in LtCodes(curr, n, prev, s) ==> e.SliceLt?
    ensures LtPocs(curr, n, prev, LtCodes(curr, n, prev, s)) == Pocs(s)
    decreases |s|
  {
    hide Cycle, Pow2;
    if s != [] {
      var cycle := Cycle(curr, n, s[0].poc);
      LtRoundTrip(curr, n, cycle, s[1..]);
      CycleUndone(curr, n, s[0].poc);
      var x, rest := LtCodes(curr, n, prev, s), LtCodes(curr, n, cycle, s[1..]);
      assert x[1..] == rest;
    }
  }

  function EmittedRps(p: Picture, refs: References, lsb: nat, mvp: Option<bool>): Rps {
    Rps(lsb, EmittedShortTerm(p, refs), EmittedLongTerm(p, refs), mvp)
  }

  // Decoding the written set returns the POC and used flag of every reference, in order.
  lemma RpsRoundTrip(c: Context, p: Picture, refs: References, lsb: nat, mvp: Option<bool>)
    requires Writable(p, refs) && ExplicitOnly(c, p)
    ensures OnlyExplicit(EmittedRps(p, refs, lsb, mvp))
    ensures DecodeRps(c, p.currPoc, EmittedRps(p, refs, lsb, mvp)) ==
            RefPicSet(Pocs(refs.before), Pocs(refs.after), Pocs(refs.longTerm))
  {
    hide Steps, LtSteps, StPocs, LtPocs, StDeltas, LtCodes;
    StRoundTrip(p.currPoc, refs.before, false);
    StRoundTrip(p.currPoc, refs.after, true);
    if p.longTermPresent {
      LtRoundTrip(p.currPoc, p.LsbBits(), 0, refs.longTerm);
    }
  }

  // ---------- Which pictures can be written ----------

  // The POC that entry i is counted from.
  function Prior(prev: int, s: seq<Reference>, i: nat): int
    requires i < |s|
  {
    if i == 0 then prev else s[i - 1].poc
  }

  // Every short-term picture lies within 32768 of the one before it.
  predicate Near(prev: int, s: seq<Reference>, after: bool) {
    forall i :: 0 <= i < |s| ==> Delta(Prior(prev, s, i), s[i].poc, after) <= 32768
  }

  lemma NearUnroll(prev: int, s: seq<Reference>, after: bool)
    requires s != []
    ensures Near(prev, s, after) <==> Delta(prev, s[0].poc, after) <= 32768 && Near(s[0].poc, s[1..], after)
  {
    var t := s[1..];
    assert Prior(prev, s, 0) == prev;
    assert forall i :: 0 <= i < |t| ==> Prior(s[0].poc, t, i) == Prior(prev, s, i + 1) && t[i] == s[i + 1];
    if Near(prev, s, after) {
      forall i | 0 <= i < |t| ensures Delta(Prior(s[0].poc, t, i), t[i].poc, after) <= 32768 {
        assert Delta(Prior(prev, s, i + 1), s[i + 1].poc, after) <= 32768;
      }
    } else if Delta(prev, s[0].poc, after) <= 32768 {
      var i :| 0 <= i < |s| && Delta(Prior(prev, s, i), s[i].poc, after) > 32768;
      assert Prior(s[0].poc, t, i - 1) == Prior(prev, s, i);
    }
  }

  // The order, and the side of the current picture, make every delta positive.
  lemma {:induction false} StepsIffNear(prev: int, s: seq<Reference>, after: bool)
    requires StrictlySorted(s, !after)
    requires forall r :: r in s ==> Delta(prev, r.poc, after) > 0
    ensures Steps(prev, s, after) <==> Near(prev, s, after)
    decreases |s|
  {
    hide Near;
    if s == [] {
      NearNothing(prev, after);
    } else {
      var t := s[1..];
      forall r | r in t ensures Delta(s[0].poc, r.poc, after) > 0 {
        var k :| 0 <= k < |t| && t[k] == r;
        assert Key(s[0], !after) < Key(s[k + 1], !after);
      }
      StepsIffNear(s[0].poc, t, after);
      NearUnroll(prev, s, after);
      assert s[0] in s;
    }
  }

  lemma NearNothing(prev: int, after: bool)
    ensures Near(prev, [], after)
  {
  }

  lemma DivMonotonic(a: int, b: int, m: nat)
    requires m > 0 && a <= b
    ensures a / m <= b / m
  {
    var x, y := a / m, b / m;
    assert a == m * x + a % m && b == m * y + b % m;
    assert m * x - m * y == m * (x - y);
    MulAtLeast(m, x - y);
  }

  // The cycle of a 32-bit POC never reaches the writer's limit.
  lemma CycleBound(curr: int32, n: nat, poc: int32)
    requires n >= 4
    ensures Cycle(curr, n, poc) < UINT32_MAX
  {
    var m := Pow2(n);
    DivBound(curr, m);
    DivBound(poc, m);
  }

  lemma DivBound(a: int32, m: nat)
    requires m > 0
    ensures -0x8000_0000 <= a / m < 0x8000_0000
  {
    var q := a / m;
    assert a == m * q + a % m;
    assert m * (q + 1) == m * q + m;
    MulGrows(m, q);
    MulGrows(m, q + 1);
  }

  lemma MulGrows(m: nat, k: int)
    requires m > 0
    ensures if k >= 0 then m * k >= k else m * k <= k
  {
    assert m * k == k + (m - 1) * k;
    if k < 0 {
      assert (m - 1) * k == -((m - 1) * (-k));
    }
  }

  lemma {:induction false} LtStepsIffFirst(curr: int32, n: nat, prev: int, s: seq<Reference>)
    requires n >= 4 && StrictlySorted(s, true)
    ensures LtSteps(curr, n, prev, s) <==> (s == [] || prev <= Cycle(curr, n, s[0].poc))
    decreases |s|
  {
    hide Cycle;
    if s != [] {
      CycleBound(curr, n, s[0].poc);
      LtStepsIffFirst(curr, n, Cycle(curr, n, s[0].poc), s[1..]);
      if |s| > 1 {
        assert Key(s[0], true) < Key(s[1], true);
        CyclesGrow(curr, n, s[0].poc, s[1].poc);
      }
    }
  }

  lemma CyclesGrow(curr: int, n: nat, later: int, earlier: int)
    requires earlier <= later
    ensures Cycle(curr, n, later) <= Cycle(curr, n, earlier)
  {
    DivMonotonic(earlier, later, Pow2(n));
  }

  // The set of a picture is written exactly when its short-term pictures are near enough and its
  // latest long-term picture does not belong to a later POC cycle than the picture itself.
  lemma WritableExactly(p: Picture, refs: References)
    requires DistinctPocs(p.currPoc, p.frames) && IsReferences(p, refs)
    ensures Writable(p, refs) <==>
      && Near(p.currPoc, refs.before, false)
      && Near(p.currPoc, refs.after, true)
      && (refs.longTerm == [] ||
          (p.longTermPresent && Cycle(p.currPoc, p.LsbBits(), refs.longTerm[0].poc) >= 0))
  {
    hide Steps, LtSteps, Near, Cycle, StrictlySorted;
    StepsIffNear(p.currPoc, refs.before, false);
    StepsIffNear(p.currPoc, refs.after, true);
    LtStepsIffFirst(p.currPoc, p.LsbBits(), 0, refs.longTerm);
  }

  // ---------- NumPicTotalCurr ----------

  lemma {:induction false} UsedCountIs(prev: int, s: seq<Reference>, after: bool)
    ensures UsedCount(StDeltas(prev, s, after)) == |UsedIndexes(s)|
    decreases |s|
  {
    if s != [] {
      UsedCountIs(s[0].poc, s[1..], after);
      assert StDeltas(prev, s, after)[1..] == StDeltas(s[0].poc, s[1..], after);
    }
  }

  lemma {:induction false} UsedLtCountIs(curr: int, n: nat, prev: int, s: seq<Reference>)
    ensures UsedLtCount(LtCodes(curr, n, prev, s)) == |UsedIndexes(s)|
    decreases |s|
  {
    hide Cycle, Pow2;
    if s != [] {
      var cycle := Cycle(curr, n, s[0].poc);
      UsedLtCountIs(curr, n, cycle, s[1..]);
      assert LtCodes(curr, n, prev, s)[1..] == LtCodes(curr, n, cycle, s[1..]);
    }
  }

  // A decoder counts as many current references as the driver's lists have.
  lemma TotalCurrIs(c: Context, p: Picture, refs: References, lsb: nat, mvp: Option<bool>)
    requires IsReferences(p, refs) && Writable(p, refs) && c.totalCurr == None
    ensures |refs.list0| == |refs.list1|
    ensures TotalCurr(c, Some(EmittedRps(p, refs, lsb, mvp))) == |refs.list0|
  {
    hide StDeltas, LtCodes, UsedIndexes, UsedCount, UsedLtCount, StrictlySorted, Holds, Steps, LtSteps;
    UsedCountIs(p.currPoc, refs.before, false);
    UsedCountIs(p.currPoc, refs.after, true);
    UsedLtCountIs(p.currPoc, p.LsbBits(), 0, refs.longTerm);
    if !p.longTermPresent {
      NoneUsed();
    }
  }

  lemma NoneUsed()
    ensures UsedIndexes([]) == []
  {
  }

  // ---------- Reference picture lists (section 8.3.4) ----------

  function UsedPocs(s: seq<Poc>): (r: seq<int>)
    ensures |r| <= |s|
  {
    if s == [] then [] else (if s[0].used then [s[0].value] else []) + UsedPocs(s[1..])
  }

  // The pictures of the temporary list, once around: before, after, long-term for list 0.
  function CurrPocs(set_: RefPicSet, l: nat): seq<int> {
    if l == 0 then UsedPocs(set_.before) + UsedPocs(set_.after) + UsedPocs(set_.longTerm)
    else UsedPocs(set_.after) + UsedPocs(set_.before) + UsedPocs(set_.longTerm)
  }

  // RefPicListTemp0 / RefPicListTemp1 (8-8, 8-10): the pictures, cyclically, up to n of them.
  function TempList(base: seq<int>, n: nat): (r: seq<int>)
    requires base != []
    ensures |r| == n
    decreases n
  {
    if n <= |base| then base[..n] else base + TempList(base, n - |base|)
  }

  // RefPicList0 / RefPicList1 (8-9, 8-11) with this many active entries.
  function RefPicList(base: seq<int>, active: nat, entries: Option<seq<nat>>): (r: seq<int>)
    requires base != []
    requires entries.Some? ==> |entries.value| == active && forall v :: v in entries.value ==> v < |base|
    ensures |r| == active
  {
    var temp := TempList(base, if active > |base| then active else |base|);
    seq(active, i requires 0 <= i < active =>
      if entries.Some? then assert entries.value[i] in entries.value; temp[entries.value[i]] else temp[i])
  }

  lemma TempListStart(base: seq<int>, n: nat, i: nat)
    requires i < |base| <= n
    ensures TempList(base, n)[i] == base[i]
  {
  }

  lemma {:induction false} TempListOfOne(base: seq<int>, n: nat, i: nat)
    requires |base| == 1 && i < n
    ensures TempList(base, n)[i] == base[0]
    decreases n
  {
    if i > 0 {
      TempListOfOne(base, n - 1, i - 1);
    }
  }

  // Every index names a frame.
  predicate Within(frames: seq<VaPicture>, s: seq<nat>) {
    forall k :: 0 <= k < |s| ==> s[k] < |frames|
  }

  function PocsAt(frames: seq<VaPicture>, s: seq<nat>): (r: seq<int>)
    requires Within(frames, s)
    ensures |r| == |s|
  {
    if s == [] then [] else [frames[s[0]].poc] + PocsAt(frames, s[1..])
  }

  lemma {:induction false} PocsAtIndex(frames: seq<VaPicture>, s: seq<nat>, j: nat)
    requires Within(frames, s) && j < |s|
    ensures PocsAt(frames, s)[j] == frames[s[j]].poc
  {
    if j > 0 {
      PocsAtIndex(frames, s[1..], j - 1);
    }
  }

  lemma PocsAtConcat(frames: seq<VaPicture>, a: seq<nat>, b: seq<nat>)
    requires Within(frames, a) && Within(frames, b)
    ensures Within(frames, a + b)
    ensures PocsAt(frames, a + b) == PocsAt(frames, a) + PocsAt(frames, b)
  {
    hide PocsAt;
    forall j | 0 <= j < |a + b| ensures PocsAt(frames, a + b)[j] == (PocsAt(frames, a) + PocsAt(frames, b))[j] {
      PocsAtIndex(frames, a + b, j);
      if j < |a| {
        PocsAtIndex(frames, a, j);
      } else {
        PocsAtIndex(frames, b, j - |a|);
      }
    }
  }

  // The references s[k] are frames of the picture.
  predicate AreFrames(frames: seq<VaPicture>, s: seq<Reference>) {
    forall k :: 0 <= k < |s| ==> s[k].index < |frames| && s[k].poc == frames[s[k].index].poc
  }

  lemma {:induction false} UsedPocsAre(frames: seq<VaPicture>, s: seq<Reference>)
    requires AreFrames(frames, s)
    ensures Within(frames, UsedIndexes(s))
    ensures UsedPocs(Pocs(s)) == PocsAt(frames, UsedIndexes(s))
  {
    if s != [] {
      var t := s[1..];
      UsedPocsAre(frames, t);
      assert Pocs(s)[1..] == Pocs(t);
      if s[0].used {
        assert UsedIndexes(s)[1..] == UsedIndexes(t);
      } else {
        assert UsedIndexes(s) == UsedIndexes(t);
      }
    }
  }

  lemma HeldAreFrames(p: Picture, g: Group, s: seq<Reference>)
    requires Holds(p.currPoc, p.frames, |p.frames|, g, s)
    ensures AreFrames(p.frames, s)
  {
  }

  // The decoder's list of current pictures is the driver's, seen through the frames' POCs.
  lemma CurrPocsAre(p: Picture, refs: References, l: nat)
    requires IsReferences(p, refs)
    ensures Within(p.frames, refs.List(l))
    ensures CurrPocs(RefPicSet(Pocs(refs.before), Pocs(refs.after), Pocs(refs.longTerm)), l) ==
            PocsAt(p.frames, refs.List(l))
  {
    hide StrictlySorted, Holds, AreFrames, PocsAt, Pocs, UsedPocs, UsedIndexes;
    HeldAreFrames(p, Before, refs.before);
    HeldAreFrames(p, After, refs.after);
    HeldAreFrames(p, LongTermGroup, refs.longTerm);
    var b, a, t := UsedIndexes(refs.before), UsedIndexes(refs.after), UsedIndexes(refs.longTerm);
    UsedPocsAre(p.frames, refs.before);
    UsedPocsAre(p.frames, refs.after);
    UsedPocsAre(p.frames, refs.longTerm);
    if l == 0 {
      PocsAtConcat(p.frames, b, a);
      PocsAtConcat(p.frames, b + a, t);
    } else {
      PocsAtConcat(p.frames, a, b);
      PocsAtConcat(p.frames, a + b, t);
    }
  }

  // Where the driver finds each of the active VA entries in its list.
  predicate Located(list: seq<nat>, active: seq<uint8>, entries: seq<nat>) {
    && |entries| == |active|
    && forall j :: 0 <= j < |active| ==> entries[j] < |list| && list[entries[j]] == active[j]
  }

  // The list a decoder builds from the emitted entries names the frames of the VA list.
  lemma ListMeansSame(p: Picture, refs: References, l: nat, base: seq<int>, active: seq<uint8>, entries: seq<nat>)
    requires IsReferences(p, refs) && refs.List(l) != [] && Located(refs.List(l), active, entries)
    requires base == CurrPocs(RefPicSet(Pocs(refs.before), Pocs(refs.after), Pocs(refs.longTerm)), l)
    requires |base| == |refs.List(l)|
    ensures
      var list := RefPicList(base, |active|, if |base| > 1 then Some(entries) else None);
      forall j :: 0 <= j < |active| ==> active[j] < |p.frames| && list[j] == p.frames[active[j]].poc
  {
    hide IsReferences, CurrPocs, TempList, PocsAt;
    CurrPocsAre(p, refs, l);
    var n := if |active| > |base| then |active| else |base|;
    forall j | 0 <= j < |active|
      ensures active[j] < |p.frames|
      ensures TempList(base, n)[if |base| > 1 then entries[j] else j] == p.frames[active[j]].poc
    {
      PocsAtIndex(p.frames, refs.List(l), entries[j]);
      if |base| > 1 {
        TempListStart(base, n, entries[j]);
      } else {
        TempListOfOne(base, n, j);
      }
    }
  }
}
