/** Exp-Golomb codes: section 9.1 of ITU-T H.264, section 9.2 of ITU-T H.265. */
module ExpGolomb {
  import opened Bitstring
  import opened Wrappers

  // The number of bits below the leading one.
  function Log2(v: nat): nat
    requires v > 0
  {
    if v == 1 then 0 else 1 + Log2(v / 2)
  }

  // The code of v by the standard's definition: n zeros, a one, then the n-bit offset of v + 1 above 2^n.
  function UeCode(v: nat): BitString {
    var n := Log2(v + 1);
    Zeros(n) + [true] + FixedBits(v + 1, n)
  }

  // The length of the run of zero bits at pos, None when the string ends first.
  function LeadingZeros(s: BitString, pos: nat): (r: Option<nat>)
    ensures r.Some? ==> pos + r.value < |s|
    decreases |s| - pos
  {
    if pos >= |s| then None
    else if s[pos] then Some(0)
    else
      var rest := LeadingZeros(s, pos + 1);
      if rest.None? then None else Some(rest.value + 1)
  }

  // The parsing process: codeNum = 2^n - 1 + read_bits(n). A reader gives up beyond maxZeros zeros.
  function DecodeUe(s: BitString, pos: nat, maxZeros: nat): Result<(nat, nat)> {
    var zeros := LeadingZeros(s, pos);
    if zeros.None? || zeros.value > maxZeros then Failure(Invalid)
    else
      var n := zeros.value;
      var start := pos + n + 1;
      if start + n > |s| then Failure(Invalid)
      else Success((Pow2(n) - 1 + ValueOf(s[start..start + n]), start + n))
  }

  // Section 9.1.1: the signed mapping.
  function SeCodeNum(v: int): nat {
    if v <= 0 then -2 * v else 2 * v - 1
  }

  function SeCode(v: int): BitString {
    UeCode(SeCodeNum(v))
  }

  function SeValue(k: nat): int {
    if k % 2 == 0 then -(k / 2) else (k + 1) / 2
  }

  lemma SignedMappingInverts(v: int, k: nat)
    ensures SeValue(SeCodeNum(v)) == v
    ensures SeCodeNum(SeValue(k)) == k
  {
  }

  lemma {:induction false} Log2Bounds(v: nat)
    requires v > 0
    ensures Pow2(Log2(v)) <= v < Pow2(Log2(v) + 1)
  {
    if v > 1 {
      Log2Bounds(v / 2);
    }
  }

  lemma {:induction false} Pow2Monotonic(m: nat, n: nat)
    requires m <= n
    ensures Pow2(m) <= Pow2(n)
  {
    if m < n {
      Pow2Monotonic(m, n - 1);
    }
  }

  lemma Log2Limit(v: nat)
    requires 0 < v < 0x1_0000_0000
    ensures Log2(v) < 32
  {
    Log2Bounds(v);
    Pow2Values();
    if Log2(v) >= 32 {
      Pow2Monotonic(32, Log2(v));
    }
  }

  lemma Log2Unique(v: nat, n: nat)
    requires Pow2(n) <= v < Pow2(n + 1)
    ensures Log2(v) == n
  {
    Log2Bounds(v);
    if Log2(v) < n {
      Pow2Monotonic(Log2(v) + 1, n);
    } else if Log2(v) > n {
      Pow2Monotonic(n + 1, Log2(v));
    }
  }

  // A field drops the bits above its width.
  lemma {:induction false} FixedBitsDropTop(v: nat, n: nat)
    ensures FixedBits(v + Pow2(n), n) == FixedBits(v, n)
  {
    if n > 0 {
      assert (v + Pow2(n)) / 2 == v / 2 + Pow2(n - 1);
      FixedBitsDropTop(v / 2, n - 1);
    }
  }

  // n zeros and the n + 1 bits of v + 1, as both writers emit it, are the code of v.
  lemma UeCodeAsField(v: nat)
    ensures UeCode(v) == Zeros(Log2(v + 1)) + FixedBits(v + 1, Log2(v + 1) + 1)
    ensures |UeCode(v)| == 2 * Log2(v + 1) + 1
  {
    var n := Log2(v + 1);
    FixedBitsHead(v + 1, n);
    ShrLog2(v + 1);
  }

  lemma {:induction false} ShrLog2(v: nat)
    requires v > 0
    ensures Shr(v, Log2(v)) == 1
  {
    if v > 1 {
      ShrHalf(v, Log2(v));
      ShrLog2(v / 2);
    }
  }

  lemma {:induction false} LeadingZerosOfRun(s: BitString, pos: nat, n: nat)
    ensures LeadingZeros(s, pos) == Some(n) <==> At(s, pos, Zeros(n) + [true])
    decreases n
  {
    var x := Zeros(n) + [true];
    if pos + |x| <= |s| {
      assert s[pos..pos + |x|][0] == s[pos];
      assert x[0] == (n == 0);
    }
    if pos < |s| && !s[pos] && n > 0 {
      LeadingZerosOfRun(s, pos + 1, n - 1);
      assert x == [false] + (Zeros(n - 1) + [true]);
      AtSplit(s, pos, [false], Zeros(n - 1) + [true]);
      assert s[pos..pos + 1] == [false];
    }
  }

  lemma DecodeUeFinds(s: BitString, pos: nat, maxZeros: nat, v: nat)
    requires At(s, pos, UeCode(v))
    requires Log2(v + 1) <= maxZeros
    ensures DecodeUe(s, pos, maxZeros) == Success((v, pos + |UeCode(v)|))
  {
    var n := Log2(v + 1);
    Log2Bounds(v + 1);
    var offset := v + 1 - Pow2(n);
    AtSplit(s, pos, Zeros(n) + [true], FixedBits(v + 1, n));
    LeadingZerosOfRun(s, pos, n);
    FixedBitsDropTop(offset, n);
    ValueOfFixedBits(offset, n);
  }

  lemma DecodeUeFound(s: BitString, pos: nat, maxZeros: nat)
    requires DecodeUe(s, pos, maxZeros).Success?
    ensures
      var (v, q) := DecodeUe(s, pos, maxZeros).value;
      At(s, pos, UeCode(v)) && q == pos + |UeCode(v)| && Log2(v + 1) <= maxZeros
  {
    hide Log2, LeadingZeros, FixedBits, ValueOf, Zeros;
    var n := LeadingZeros(s, pos).value;
    var start := pos + n + 1;
    var info := s[start..start + n];
    var v := Pow2(n) - 1 + ValueOf(info);
    FixedBitsValueOf(info);
    Log2Unique(v + 1, n);
    FixedBitsDropTop(ValueOf(info), n);
    LeadingZerosOfRun(s, pos, n);
    AtSplit(s, pos, Zeros(n) + [true], info);
  }

  // Decoding finds v exactly where the code of v stands, up to the reader's limit.
  lemma DecodeUeExact(s: BitString, pos: nat, maxZeros: nat, v: nat, q: nat)
    ensures DecodeUe(s, pos, maxZeros) == Success((v, q))
       <==> At(s, pos, UeCode(v)) && q == pos + |UeCode(v)| && Log2(v + 1) <= maxZeros
  {
    if DecodeUe(s, pos, maxZeros) == Success((v, q)) {
      DecodeUeFound(s, pos, maxZeros);
    } else if At(s, pos, UeCode(v)) && Log2(v + 1) <= maxZeros {
      DecodeUeFinds(s, pos, maxZeros, v);
    }
  }

  // The driver's 30-zero reader accepts exactly the values up to 2^31 - 2.
  lemma ReaderLimit(v: nat)
    ensures Log2(v + 1) <= 30 <==> v <= 0x7fff_fffe
  {
    Log2Bounds(v + 1);
    Pow2Values();
    if Log2(v + 1) <= 30 {
      Pow2Monotonic(Log2(v + 1) + 1, 31);
    } else {
      Pow2Monotonic(31, Log2(v + 1));
    }
  }
}
