/** Syntax elements of fixed length, and where an element stands in a bit string. */
module SyntaxElements {
  import opened Bitstring
  import opened Wrappers

  // A one bit and the zeros up to the next byte boundary, after n bits.
  function AlignmentBits(n: nat): BitString {
    [true] + Zeros(7 - n % 8)
  }

  // The next n bits as an unsigned value, and the position behind them.
  function DecodeFixed(s: BitString, pos: nat, n: nat): Result<(nat, nat)> {
    if pos + n > |s| then Failure(Invalid)
    else Success((ValueOf(s[pos..pos + n]), pos + n))
  }

  function DecodeFlag(s: BitString, pos: nat): Result<(bool, nat)> {
    if pos >= |s| then Failure(Invalid) else Success((s[pos], pos + 1))
  }

  // x stands at pos and ends at q.
  predicate Reads(s: BitString, pos: nat, x: BitString, q: nat) {
    At(s, pos, x) && q == pos + |x|
  }

  lemma ReadsConcat(s: BitString, pos: nat, x: BitString, y: BitString, q: nat)
    ensures Reads(s, pos, x + y, q) <==> Reads(s, pos, x, pos + |x|) && Reads(s, pos + |x|, y, q)
  {
    AtSplit(s, pos, x, y);
  }

  lemma ReadsJoin(s: BitString, pos: nat, x: BitString, mid: nat, y: BitString, q: nat)
    requires Reads(s, pos, x, mid) && Reads(s, mid, y, q)
    ensures Reads(s, pos, x + y, q)
  {
    ReadsConcat(s, pos, x, y, q);
  }

  lemma ReadsNothing(s: BitString, pos: nat, q: nat)
    requires pos <= |s|
    ensures Reads(s, pos, [], q) <==> q == pos
  {
  }

  lemma FlagExact(s: BitString, pos: nat, b: bool, q: nat)
    ensures DecodeFlag(s, pos) == Success((b, q)) <==> Reads(s, pos, [b], q)
  {
    if pos < |s| {
      assert s[pos..pos + 1] == [s[pos]];
    }
  }

  lemma FixedExact(s: BitString, pos: nat, n: nat, v: nat, q: nat)
    ensures DecodeFixed(s, pos, n) == Success((v, q))
       <==> v < Pow2(n) && Reads(s, pos, FixedBits(v, n), q)
  {
    hide FixedBits, Pow2, ValueOf, Reads;
    if DecodeFixed(s, pos, n) == Success((v, q)) {
      FixedSound(s, pos, n);
    } else if v < Pow2(n) && Reads(s, pos, FixedBits(v, n), q) {
      FixedComplete(s, pos, n, v, q);
    }
  }

  lemma FixedSound(s: BitString, pos: nat, n: nat)
    requires pos + n <= |s|
    ensures
      var v := ValueOf(s[pos..pos + n]);
      v < Pow2(n) && Reads(s, pos, FixedBits(v, n), pos + n)
  {
    hide FixedBits, Pow2, ValueOf;
    FixedBitsValueOf(s[pos..pos + n]);
  }

  lemma FixedComplete(s: BitString, pos: nat, n: nat, v: nat, q: nat)
    requires v < Pow2(n) && Reads(s, pos, FixedBits(v, n), q)
    ensures DecodeFixed(s, pos, n) == Success((v, q))
  {
    ValueOfFixedBits(v, n);
    hide FixedBits, Pow2, ValueOf;
    assert |FixedBits(v, n)| == n;
  }

  lemma ReadsBounds(s: BitString, pos: nat, x: BitString, q: nat)
    requires Reads(s, pos, x, q)
    ensures pos <= q <= |s|
  {
  }

  lemma ReadsPrefix(x: BitString, rest: BitString)
    ensures Reads(x + rest, 0, x, |x|)
  {
  }

  // Closed by byte_alignment() or rbsp_trailing_bits(), which are the same bits.
  function Aligned(x: BitString): BitString {
    x + AlignmentBits(|x|)
  }

  lemma AlignedLength(x: BitString)
    ensures |Aligned(x)| % 8 == 0
    ensures |x| < |Aligned(x)| <= |x| + 8
  {
  }

  // The byte that holds byte_alignment() is not zero.
  lemma AlignedLastByte(x: BitString)
    ensures |Aligned(x)| % 8 == 0
    ensures var bs := FromBits(Aligned(x)); bs != [] && bs[|bs| - 1] != 0
  {
    var y := Aligned(x);
    AlignedLength(x);
    var last := y[|y| - 8..];
    assert y[|x|];
    assert last[|x| - (|y| - 8)] == y[|x|];
    NonzeroOctet(last, |x| - (|y| - 8));
  }
}
