/** scaling_list of src/hevc_annexb.cpp, against sections 6.5.3 and 7.3.4 of ITU-T H.265. */
module HevcScaling {
  import opened Bitstring
  import opened ExpGolomb
  import opened HevcBits
  import opened SyntaxElements
  import opened Wrappers

  datatype Cell = Cell(x: nat, y: nat)

  // The cells the two loops still visit from (sum, x) on.
  function CellsFrom(side: nat, sum: nat, x: nat): seq<Cell>
    decreases 2 * side - sum, side - x
  {
    if sum + 2 > 2 * side then []
    else if x >= side then CellsFrom(side, sum + 1, 0)
    else if x <= sum && sum - x < side then [Cell(x, sum - x)] + CellsFrom(side, sum, x + 1)
    else CellsFrom(side, sum, x + 1)
  }

  function Scan(side: nat): seq<Cell> {
    CellsFrom(side, 0, 0)
  }

  predicate InSquare(side: nat, c: Cell) {
    c.x < side && c.y < side
  }

  // Up-right diagonal order: diagonals from the corner outwards, each from its left end.
  predicate Precedes(a: Cell, b: Cell) {
    a.x + a.y < b.x + b.y || (a.x + a.y == b.x + b.y && a.x < b.x)
  }

  predicate Ordered(s: seq<Cell>) {
    forall i, j :: 0 <= i < j < |s| ==> Precedes(s[i], s[j])
  }

  // The cells still to be visited.
  predicate Ahead(side: nat, sum: nat, x: nat, c: Cell) {
    InSquare(side, c) && (c.x + c.y > sum || (c.x + c.y == sum && c.x >= x))
  }

  lemma AheadStep(side: nat, sum: nat, x: nat, c: Cell)
    requires sum + 2 <= 2 * side && x < side
    ensures Ahead(side, sum, x, c) <==>
            Ahead(side, sum, x + 1, c) || (x <= sum && sum - x < side && c == Cell(x, sum - x))
  {
  }

  lemma AheadEnd(side: nat, sum: nat, x: nat, c: Cell)
    requires sum + 2 > 2 * side || x >= side
    ensures Ahead(side, sum, x, c) <==> sum + 2 <= 2 * side && Ahead(side, sum + 1, 0, c)
  {
  }

  lemma {:induction false} CellsFromAre(side: nat, sum: nat, x: nat)
    ensures forall c :: c in CellsFrom(side, sum, x) <==> Ahead(side, sum, x, c)
    decreases 2 * side - sum, side - x
  {
    hide Ahead;
    if sum + 2 > 2 * side || x >= side {
      if sum + 2 <= 2 * side {
        CellsFromAre(side, sum + 1, 0);
      }
      forall c ensures c in CellsFrom(side, sum, x) <==> Ahead(side, sum, x, c) {
        AheadEnd(side, sum, x, c);
      }
    } else {
      CellsFromAre(side, sum, x + 1);
      forall c ensures c in CellsFrom(side, sum, x) <==> Ahead(side, sum, x, c) {
        AheadStep(side, sum, x, c);
      }
    }
  }

  lemma {:induction false} CellsFromOrdered(side: nat, sum: nat, x: nat)
    ensures Ordered(CellsFrom(side, sum, x))
    decreases 2 * side - sum, side - x
  {
    if sum + 2 <= 2 * side {
      if x >= side {
        CellsFromOrdered(side, sum + 1, 0);
      } else {
        CellsFromOrdered(side, sum, x + 1);
        CellsFromAre(side, sum, x + 1);
        var rest := CellsFrom(side, sum, x + 1);
        forall j | x <= sum && 0 <= j < |rest| ensures Precedes(Cell(x, sum - x), rest[j]) {
          assert rest[j] in rest;
        }
      }
    }
  }

  lemma CellsFromCovers(side: nat, sum: nat, x: nat)
    ensures forall c :: c in CellsFrom(side, sum, x) <==>
              InSquare(side, c) && (c.x + c.y > sum || (c.x + c.y == sum && c.x >= x))
    ensures Ordered(CellsFrom(side, sum, x))
  {
    hide CellsFrom, Ordered;
    CellsFromAre(side, sum, x);
    CellsFromOrdered(side, sum, x);
  }

  // The scan is the up-right diagonal scan: every cell of the square, in order, and none twice.
  lemma ScanIsUpRightDiagonal(side: nat)
    requires side > 0
    ensures |Scan(side)| == side * side
    ensures forall c :: c in Scan(side) <==> InSquare(side, c)
    ensures Ordered(Scan(side))
    ensures forall i, j :: 0 <= i < j < |Scan(side)| ==> Scan(side)[i] != Scan(side)[j]
  {
    hide CellsFrom;
    CellsFromCovers(side, 0, 0);
    ScanCount(side);
  }

  function Min(a: int, b: int): int {
    if a < b then a else b
  }

  // Twice the number of cells on the diagonals from sum on.
  function TwiceFrom(side: nat, sum: nat): int {
    if sum <= side then 2 * side * side - sum * (sum + 1) else (2 * side - 1 - sum) * (2 * side - sum)
  }

  // The cells of one diagonal from column x on.
  function OnDiagonal(side: nat, sum: nat, x: nat): nat {
    var low := if x < sum - side + 1 then sum - side + 1 else x;
    var high := Min(sum, side - 1);
    if low <= high then high - low + 1 else 0
  }

  lemma DiagonalLength(side: nat, sum: nat)
    requires sum + 2 <= 2 * side
    ensures TwiceFrom(side, sum) == 2 * OnDiagonal(side, sum, 0) + TwiceFrom(side, sum + 1)
  {
    if sum < side {
      assert (sum + 1) * (sum + 2) == sum * (sum + 1) + 2 * (sum + 1);
    } else {
      var k := 2 * side - 1 - sum;
      assert k * (k + 1) == (k - 1) * k + 2 * k;
      if sum == side {
        assert 2 * side * side - side * (side + 1) == (side - 1) * side;
      }
    }
  }

  lemma {:induction false} CellsFromCount(side: nat, sum: nat, x: nat)
    requires x <= side && sum + 1 <= 2 * side
    ensures 2 * |CellsFrom(side, sum, x)| ==
            if sum + 2 <= 2 * side then 2 * OnDiagonal(side, sum, x) + TwiceFrom(side, sum + 1) else 0
    decreases 2 * side - sum, side - x
  {
    hide TwiceFrom;
    if sum + 2 <= 2 * side {
      if x >= side {
        CellsFromCount(side, sum + 1, 0);
        if sum + 3 <= 2 * side {
          DiagonalLength(side, sum + 1);
        } else {
          LastDiagonal(side);
        }
      } else {
        CellsFromCount(side, sum, x + 1);
      }
    }
  }

  lemma LastDiagonal(side: nat)
    requires side > 0
    ensures TwiceFrom(side, 2 * side - 1) == 0
  {
  }

  lemma ScanCount(side: nat)
    requires side > 0
    ensures |Scan(side)| == side * side
  {
    hide CellsFrom;
    CellsFromCount(side, 0, 0);
    if side > 1 {
      DiagonalLength(side, 0);
    }
  }

  // ---------- Writing ----------

  predicate IsSquare(values: seq<uint8>, side: nat) {
    |values| == side * side
  }

  lemma CellIndex(values: seq<uint8>, side: nat, c: Cell)
    requires IsSquare(values, side) && InSquare(side, c)
    ensures 0 <= c.y * side && c.y * side + c.x < |values|
  {
    ProductMonotonic(0, c.y, side);
    ProductMonotonic(c.y + 1, side, side);
    assert (c.y + 1) * side == c.y * side + side;
  }

  function Entry(values: seq<uint8>, side: nat, c: Cell): uint8
    requires IsSquare(values, side) && InSquare(side, c)
  {
    CellIndex(values, side, c);
    values[c.y * side + c.x]
  }

  predicate AllInSquare(side: nat, s: seq<Cell>) {
    forall i :: 0 <= i < |s| ==> InSquare(side, s[i])
  }

  function ValuesAt(values: seq<uint8>, side: nat, s: seq<Cell>): (r: seq<uint8>)
    requires IsSquare(values, side) && AllInSquare(side, s)
    ensures |r| == |s|
  {
    if s == [] then [] else [Entry(values, side, s[0])] + ValuesAt(values, side, s[1..])
  }

  // scaling_list_delta_coef, in -128..127.
  function DeltaCoef(value: int, last: int): int {
    (value - last + 128) % 256 - 128
  }

  function PrintDeltas(last: int, v: seq<uint8>): BitString
    decreases |v|
  {
    if v == [] then [] else SeCode(DeltaCoef(v[0], last)) + PrintDeltas(v[0], v[1..])
  }

  function PrintScalingList(v: seq<uint8>, dc: uint8, large: bool): BitString {
    [true] + (if large then SeCode((dc as int) - 8) else []) + PrintDeltas(if large then dc else 8, v)
  }

  predicate Nonzero(v: seq<uint8>) {
    forall i :: 0 <= i < |v| ==> v[i] != 0
  }

  lemma CellsStep(a: BitString, values: seq<uint8>, side: nat, sum: nat, x: nat, last: int)
    requires IsSquare(values, side) && sum + 2 <= 2 * side && x < side
    ensures AllInSquare(side, CellsFrom(side, sum, x)) && AllInSquare(side, CellsFrom(side, sum, x + 1))
    ensures
      var v, rest := ValuesAt(values, side, CellsFrom(side, sum, x)),
        ValuesAt(values, side, CellsFrom(side, sum, x + 1));
      if x <= sum && sum - x < side then
        var value := Entry(values, side, Cell(x, sum - x));
        && (Nonzero(v) <==> value != 0 && Nonzero(rest))
        && a + PrintDeltas(last, v) == a + SeCode(DeltaCoef(value, last)) + PrintDeltas(value, rest)
      else v == rest
  {
    hide SeCode, IsSquare, Entry, PrintDeltas, Nonzero, DeltaCoef;
    CellsFromSquare(side, sum, x);
    CellsFromSquare(side, sum, x + 1);
    var cells := CellsFrom(side, sum, x + 1);
    if x <= sum && sum - x < side {
      assert CellsFrom(side, sum, x)[1..] == cells;
      DeltasStep(a, last, Entry(values, side, Cell(x, sum - x)), ValuesAt(values, side, cells));
    }
  }

  lemma DeltasStep(a: BitString, last: int, value: uint8, rest: seq<uint8>)
    ensures Nonzero([value] + rest) <==> value != 0 && Nonzero(rest)
    ensures a + PrintDeltas(last, [value] + rest) == a + SeCode(DeltaCoef(value, last)) + PrintDeltas(value, rest)
  {
    hide SeCode, DeltaCoef;
    var v := [value] + rest;
    assert v[1..] == rest;
    assert forall i :: 0 <= i < |rest| ==> rest[i] == v[i + 1];
    var head, tail := SeCode(DeltaCoef(value, last)), PrintDeltas(value, rest);
    assert PrintDeltas(last, v) == head + tail;
    assert a + (head + tail) == a + head + tail;
  }

  lemma CellsFromSquare(side: nat, sum: nat, x: nat)
    ensures AllInSquare(side, CellsFrom(side, sum, x))
  {
    hide CellsFrom;
    CellsFromCovers(side, sum, x);
    var s := CellsFrom(side, sum, x);
    forall i | 0 <= i < |s| ensures InSquare(side, s[i]) {
      assert s[i] in s;
    }
  }

  lemma CellsEnd(side: nat, sum: nat)
    ensures sum + 2 > 2 * side ==> CellsFrom(side, sum, 0) == []
    ensures sum + 2 <= 2 * side ==> CellsFrom(side, sum, side) == CellsFrom(side, sum + 1, 0)
  {
  }

  // The cells visited from (sum, x) on are the rest of the list.
  ghost predicate Remaining(
    w: BitString, goal: BitString, values: seq<uint8>, side: nat, sum: nat, x: nat, last: int, ok: bool)
    requires IsSquare(values, side)
  {
    && AllInSquare(side, CellsFrom(side, sum, x))
    && var v := ValuesAt(values, side, CellsFrom(side, sum, x));
       (ok <==> Nonzero(v)) && w + PrintDeltas(last, v) == goal
  }

  method WriteScalingList(b: Bits, values: seq<uint8>, side: nat, dc: uint8, large: bool) returns (o: Outcome)
    requires b.Valid() && side > 0 && IsSquare(values, side)
    modifies b
    ensures b.Valid()
    ensures AllInSquare(side, Scan(side))
    ensures o.Pass? <==> (large ==> dc != 0) && Nonzero(ValuesAt(values, side, Scan(side)))
    ensures o.Pass? ==>
      b.contents == old(b.contents) + PrintScalingList(ValuesAt(values, side, Scan(side)), dc, large)
  {
    hide Packs, UeCode, CellsFrom, ValuesAt, PrintDeltas, Nonzero, AllInSquare, IsSquare, Remaining, Entry;
    CellsFromSquare(side, 0, 0);
    ghost var start := b.contents;
    ghost var v := ValuesAt(values, side, Scan(side));
    ghost var ok := Nonzero(v);
    b.Bit(1);
    var last: int := 8;
    if large {
      :- Check(dc != 0, Invalid);
      var _ := b.Se((dc as int) - 8);
      last := dc;
    }
    ghost var goal := b.contents + PrintDeltas(last, v);
    ListPrint(start, v, dc, large);
    var sum := 0;
    RemainingAll(b.contents, goal, values, side, last);
    while sum <= 2 * (side - 1)
      invariant 0 <= sum <= 2 * side - 1 && b.Valid()
      invariant Remaining(b.contents, goal, values, side, sum, 0, last, ok)
      decreases 2 * side - sum
    {
      var x := 0;
      while x < side
        invariant 0 <= x <= side && b.Valid()
        invariant Remaining(b.contents, goal, values, side, sum, x, last, ok)
        decreases side - x
      {
        RemainingStep(b.contents, goal, values, side, sum, x, last, ok);
        if sum >= x && sum - x < side {
          var y := sum - x;
          var value := Entry(values, side, Cell(x, y));
          :- Check(value != 0, Invalid);
          var _ := b.Se(((value as int) - last + 128) % 256 - 128);
          last := value;
        }
        x := x + 1;
      }
      CellsEnd(side, sum);
      RemainingNextDiagonal(b.contents, goal, values, side, sum, last, ok);
      sum := sum + 1;
    }
    RemainingNone(b.contents, goal, values, side, sum, last, ok);
    return Pass;
  }

  lemma RemainingAll(w: BitString, goal: BitString, values: seq<uint8>, side: nat, last: int)
    requires IsSquare(values, side)
    ensures AllInSquare(side, Scan(side))
    ensures
      var v := ValuesAt(values, side, Scan(side));
      goal == w + PrintDeltas(last, v) ==> Remaining(w, goal, values, side, 0, 0, last, Nonzero(v))
  {
    hide CellsFrom, AllInSquare, IsSquare, ValuesAt, PrintDeltas, Nonzero;
    CellsFromSquare(side, 0, 0);
  }

  lemma RemainingStep(
    w: BitString, goal: BitString, values: seq<uint8>, side: nat, sum: nat, x: nat, last: int, ok: bool)
    requires IsSquare(values, side) && sum + 2 <= 2 * side && x < side
    requires Remaining(w, goal, values, side, sum, x, last, ok)
    ensures
      if x <= sum && sum - x < side then
        var value := Entry(values, side, Cell(x, sum - x));
        && (ok ==> value != 0)
        && (value != 0 ==>
            Remaining(w + SeCode(DeltaCoef(value, last)), goal, values, side, sum, x + 1, value, ok))
      else Remaining(w, goal, values, side, sum, x + 1, last, ok)
  {
    hide CellsFrom, AllInSquare, IsSquare, ValuesAt, PrintDeltas, Nonzero, Entry, SeCode, DeltaCoef;
    CellsStep(w, values, side, sum, x, last);
  }

  lemma RemainingNextDiagonal(
    w: BitString, goal: BitString, values: seq<uint8>, side: nat, sum: nat, last: int, ok: bool)
    requires IsSquare(values, side) && sum + 2 <= 2 * side
    requires Remaining(w, goal, values, side, sum, side, last, ok)
    ensures Remaining(w, goal, values, side, sum + 1, 0, last, ok)
  {
    hide AllInSquare, IsSquare, ValuesAt, PrintDeltas, Nonzero;
    CellsEnd(side, sum);
  }

  lemma RemainingNone(
    w: BitString, goal: BitString, values: seq<uint8>, side: nat, sum: nat, last: int, ok: bool)
    requires IsSquare(values, side) && sum + 2 > 2 * side
    requires Remaining(w, goal, values, side, sum, 0, last, ok)
    ensures ok && w == goal
  {
    hide IsSquare;
    assert CellsFrom(side, sum, 0) == [];
    assert w + [] == w;
  }

  lemma ListPrint(start: BitString, v: seq<uint8>, dc: uint8, large: bool)
    ensures (if large then start + [true] + SeCode((dc as int) - 8) + PrintDeltas(dc, v)
             else start + [true] + PrintDeltas(8, v)) ==
            start + PrintScalingList(v, dc, large)
  {
    hide SeCode, PrintDeltas;
    assert [true] + [] == [true];
  }

  // ---------- Reading (section 7.3.4) ----------

  function DecodeSe(s: BitString, pos: nat): Result<(int, nat)> {
    var (k, q) :- DecodeUe(s, pos, 31);
    Success((SeValue(k), q))
  }

  // nextCoef = (nextCoef + scaling_list_delta_coef + 256) % 256, n times.
  function ParseCoefs(s: BitString, pos: nat, next: int, n: nat): Result<(seq<int>, nat)>
    decreases n
  {
    if n == 0 then Success(([], pos))
    else
      var (delta, p) :- DecodeSe(s, pos);
      var coef := (next + delta + 256) % 256;
      var (rest, q) :- ParseCoefs(s, p, coef, n - 1);
      Success(([coef] + rest, q))
  }

  // One explicit list: the DC value (8 + dc_coef_minus8, or 16 where there is none) and the coefficients.
  function ParseScalingList(s: BitString, pos: nat, n: nat, large: bool): Result<((int, seq<int>), nat)> {
    var (explicit, p0) :- DecodeFlag(s, pos);
    if !explicit then Failure(Unsupported)
    else if large then
      var (dcMinus8, p1) :- DecodeSe(s, p0);
      var (list, q) :- ParseCoefs(s, p1, dcMinus8 + 8, n);
      Success(((dcMinus8 + 8, list), q))
    else
      var (list, q) :- ParseCoefs(s, p0, 8, n);
      Success(((16, list), q))
  }

  lemma SeReads(s: BitString, pos: nat, v: int, q: nat)
    requires -256 <= v < 256 && Reads(s, pos, SeCode(v), q)
    ensures DecodeSe(s, pos) == Success((v, q))
  {
    hide At, UeCode, DecodeUe, Log2;
    SignedMappingInverts(v, 0);
    Log2Limit(SeCodeNum(v) + 1);
    DecodeUeExact(s, pos, 31, SeCodeNum(v), q);
  }

  lemma {:induction false} CoefsRoundTrip(s: BitString, pos: nat, last: int, v: seq<uint8>, q: nat)
    requires Reads(s, pos, PrintDeltas(last, v), q)
    ensures ParseCoefs(s, pos, last, |v|) == Success((v, q))
    decreases |v|
  {
    hide At, SeCode, DecodeSe;
    if v != [] {
      var delta := DeltaCoef(v[0], last);
      ReadsConcat(s, pos, SeCode(delta), PrintDeltas(v[0], v[1..]), q);
      SeReads(s, pos, delta, pos + |SeCode(delta)|);
      DeltaUndone(v[0], last);
      CoefsRoundTrip(s, pos + |SeCode(delta)|, v[0], v[1..], q);
      assert [v[0]] + v[1..] == v;
    }
  }

  lemma DeltaUndone(value: uint8, last: int)
    ensures (last + DeltaCoef(value, last) + 256) % 256 == value
  {
    var k := (value - last + 128) / 256;
    assert DeltaCoef(value, last) == value - last - 256 * k;
    assert (value + 256 * (1 - k)) % 256 == value;
  }

  // Decoding returns every coefficient, in scan order, and the DC value.
  lemma ScalingListReads(s: BitString, pos: nat, v: seq<uint8>, dc: uint8, large: bool, q: nat)
    requires Reads(s, pos, PrintScalingList(v, dc, large), q)
    ensures ParseScalingList(s, pos, |v|, large) == Success(((if large then dc else 16, v), q))
  {
    hide SeCode, PrintDeltas, DecodeSe, ParseCoefs, At;
    var first := if large then SeCode((dc as int) - 8) else [];
    var deltas := PrintDeltas(if large then dc else 8, v);
    ReadsConcat(s, pos, [true] + first, deltas, q);
    ReadsConcat(s, pos, [true], first, pos + |[true] + first|);
    FlagExact(s, pos, true, pos + 1);
    if large {
      SeReads(s, pos + 1, (dc as int) - 8, pos + |[true] + first|);
    }
    CoefsRoundTrip(s, pos + |[true] + first|, if large then dc else 8, v, q);
  }

  lemma ScalingListRoundTrip(v: seq<uint8>, dc: uint8, large: bool, rest: BitString)
    ensures
      var bits := PrintScalingList(v, dc, large);
      ParseScalingList(bits + rest, 0, |v|, large) == Success(((if large then dc else 16, v), |bits|))
  {
    hide PrintScalingList, ParseScalingList, At;
    ReadsPrefix(PrintScalingList(v, dc, large), rest);
    ScalingListReads(PrintScalingList(v, dc, large) + rest, 0, v, dc, large, |PrintScalingList(v, dc, large)|);
  }

  lemma {:induction false} ValuesAtIndex(values: seq<uint8>, side: nat, s: seq<Cell>, i: nat)
    requires IsSquare(values, side) && AllInSquare(side, s) && i < |s|
    ensures InSquare(side, s[i])
    ensures ValuesAt(values, side, s)[i] == Entry(values, side, s[i])
  {
    if i > 0 {
      ValuesAtIndex(values, side, s[1..], i - 1);
    }
  }

  // Coefficient i of the list is the matrix entry at scan position i.
  predicate Recovers(values: seq<uint8>, side: nat, list: seq<int>)
    requires IsSquare(values, side) && AllInSquare(side, Scan(side))
  {
    && |list| == |Scan(side)|
    && forall i :: 0 <= i < |list| ==> list[i] == Entry(values, side, Scan(side)[i])
  }

  // The matrix comes back: every scan position decodes to the matrix entry there, the DC value beside it.
  lemma MatrixRoundTrip(values: seq<uint8>, side: nat, dc: uint8, large: bool, rest: BitString)
    requires IsSquare(values, side)
    ensures AllInSquare(side, Scan(side))
    ensures
      var bits := PrintScalingList(ValuesAt(values, side, Scan(side)), dc, large);
      var parse := ParseScalingList(bits + rest, 0, |Scan(side)|, large);
      && parse.Success?
      && parse.value.0.0 == (if large then dc else 16)
      && Recovers(values, side, parse.value.0.1)
  {
    hide CellsFrom, ValuesAt, PrintScalingList, ParseScalingList, IsSquare, Entry, AllInSquare;
    CellsFromSquare(side, 0, 0);
    var v := ValuesAt(values, side, Scan(side));
    ScalingListRoundTrip(v, dc, large, rest);
    forall i | 0 <= i < |v|
      ensures AllInSquare(side, Scan(side)) && InSquare(side, Scan(side)[i])
      ensures v[i] == Entry(values, side, Scan(side)[i])
    {
      ValuesAtIndex(values, side, Scan(side), i);
    }
  }
}
