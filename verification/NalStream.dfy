/** Emulation prevention and the byte stream format: Annex B of ITU-T H.264 and of ITU-T H.265. */
module NalStream {
  import opened Bitstring

  const START_CODE: seq<byte> := [0, 0, 0, 1]

  // The length of the run of zero bytes after one more byte.
  function Run(zeros: nat, b: byte): nat {
    if b == 0 then zeros + 1 else 0
  }

  // The run of zero bytes at the end of s, when a run of the given length comes before s.
  function RunAfter(s: seq<byte>, zeros: nat): nat {
    if s == [] then zeros else RunAfter(s[1..], Run(zeros, s[0]))
  }

  // Insert a 3 wherever two zero bytes would be followed by a byte up to 3.
  function Escape(s: seq<byte>, zeros: nat := 0): seq<byte> {
    if s == [] then []
    else if zeros >= 2 && s[0] <= 3 then [3, s[0]] + Escape(s[1..], Run(0, s[0]))
    else [s[0]] + Escape(s[1..], Run(zeros, s[0]))
  }

  // Drop a 3 that follows exactly two zero bytes.
  function Unescape(s: seq<byte>, zeros: nat := 0): seq<byte> {
    if s == [] then []
    else if zeros == 2 && s[0] == 3 then Unescape(s[1..])
    else [s[0]] + Unescape(s[1..], Run(zeros, s[0]))
  }

  lemma {:induction false} UnescapeEscape(s: seq<byte>, zeros: nat)
    requires zeros <= 2
    ensures Unescape(Escape(s, zeros), zeros) == s
  {
    if s != [] {
      if zeros == 2 && s[0] <= 3 {
        UnescapeEscape(s[1..], Run(0, s[0]));
        var rest := Escape(s[1..], Run(0, s[0]));
        assert ([3, s[0]] + rest)[1..] == [s[0]] + rest;
        assert ([s[0]] + rest)[1..] == rest;
      } else {
        UnescapeEscape(s[1..], Run(zeros, s[0]));
        var rest := Escape(s[1..], Run(zeros, s[0]));
        assert ([s[0]] + rest)[1..] == rest;
      }
    }
  }

  lemma {:induction false} UnescapeZeros(z: seq<byte>, zeros: nat)
    requires forall k :: 0 <= k < |z| ==> z[k] == 0
    ensures Unescape(z, zeros) == z
  {
    if z != [] {
      UnescapeZeros(z[1..], Run(zeros, z[0]));
    }
  }

  lemma {:induction false} UnescapeThenZeros(s: seq<byte>, z: seq<byte>, zeros: nat)
    requires forall k :: 0 <= k < |z| ==> z[k] == 0
    ensures Unescape(s + z, zeros) == Unescape(s, zeros) + z
  {
    if s == [] {
      assert s + z == z;
      UnescapeZeros(z, zeros);
    } else {
      assert (s + z)[1..] == s[1..] + z;
      UnescapeThenZeros(s[1..], z, Run(zeros, s[0]));
      UnescapeThenZeros(s[1..], z, 0);
    }
  }

  // One step of a loop that appends escaped bytes to r, and its end.
  lemma EscapeStep(r: seq<byte>, s: seq<byte>, i: nat, zeros: nat)
    requires i < |s|
    ensures r + Escape(s[i..], zeros) ==
      if zeros >= 2 && s[i] <= 3 then r + [3] + [s[i]] + Escape(s[i + 1..], Run(0, s[i]))
      else r + [s[i]] + Escape(s[i + 1..], Run(zeros, s[i]))
  {
    assert s[i..][1..] == s[i + 1..];
    if zeros >= 2 && s[i] <= 3 {
      assert [3, s[i]] == [3] + [s[i]];
    }
  }

  lemma EscapeDone(r: seq<byte>, s: seq<byte>, zeros: nat)
    ensures r + Escape(s[|s|..], zeros) == r
  {
    assert s[|s|..] == [];
  }

  // The run of zeros the escaper has seen, counting the bytes it inserts.
  function EscapeRun(s: seq<byte>, zeros: nat := 0): nat {
    if s == [] then zeros
    else if zeros >= 2 && s[0] <= 3 then EscapeRun(s[1..], Run(0, s[0]))
    else EscapeRun(s[1..], Run(zeros, s[0]))
  }

  lemma {:induction false} EscapeAppend(a: seq<byte>, b: seq<byte>, zeros: nat)
    ensures Escape(a + b, zeros) == Escape(a, zeros) + Escape(b, EscapeRun(a, zeros))
  {
    if a == [] {
      assert a + b == b;
    } else {
      assert (a + b)[1..] == a[1..] + b;
      EscapeAppend(a[1..], b, if zeros >= 2 && a[0] <= 3 then Run(0, a[0]) else Run(zeros, a[0]));
    }
  }

  lemma {:induction false} EscapeRunOfLast(a: seq<byte>, zeros: nat)
    requires a != [] && a[|a| - 1] != 0
    ensures EscapeRun(a, zeros) == 0
  {
    if |a| > 1 {
      EscapeRunOfLast(a[1..], if zeros >= 2 && a[0] <= 3 then Run(0, a[0]) else Run(zeros, a[0]));
    }
  }

  // No zero run of two is followed by a byte up to 2.
  predicate Clean(s: seq<byte>, zeros: nat := 0) {
    s == [] || (!(zeros >= 2 && s[0] <= 2) && Clean(s[1..], Run(zeros, s[0])))
  }

  lemma {:induction false} EscapedIsClean(s: seq<byte>, zeros: nat)
    requires zeros <= 2
    ensures Clean(Escape(s, zeros), zeros)
  {
    if s != [] {
      if zeros == 2 && s[0] <= 3 {
        EscapedIsClean(s[1..], Run(0, s[0]));
        var rest := Escape(s[1..], Run(0, s[0]));
        assert ([3, s[0]] + rest)[1..] == [s[0]] + rest;
        assert ([s[0]] + rest)[1..] == rest;
      } else {
        EscapedIsClean(s[1..], Run(zeros, s[0]));
        var rest := Escape(s[1..], Run(zeros, s[0]));
        assert ([s[0]] + rest)[1..] == rest;
      }
    }
  }

  // The three bytes at i: 00 00 followed by a byte up to top.
  predicate TripleAt(s: seq<byte>, i: nat, top: int) {
    i + 3 <= |s| && s[i] == 0 && s[i + 1] == 0 && s[i + 2] <= top
  }

  // None of 00 00 00, 00 00 01, 00 00 02.
  ghost predicate NoTriples(s: seq<byte>) {
    forall i: nat :: !TripleAt(s, i, 2)
  }

  lemma {:induction false} CleanHasNoTriple(s: seq<byte>, zeros: nat, i: nat)
    requires Clean(s, zeros)
    ensures !TripleAt(s, i, 2)
  {
    if s != [] {
      if i > 0 {
        CleanHasNoTriple(s[1..], Run(zeros, s[0]), i - 1);
      } else if |s| >= 3 && s[0] == 0 && s[1] == 0 {
        var t := s[1..][1..];
        assert s[1..][0] == s[1] && t[0] == s[2];
        assert Clean(t, Run(Run(zeros, s[0]), s[1]));
      }
    }
  }

  lemma {:induction false} CleanAppend(a: seq<byte>, b: seq<byte>, zeros: nat)
    ensures Clean(a + b, zeros) <==> Clean(a, zeros) && Clean(b, RunAfter(a, zeros))
  {
    if a == [] {
      assert a + b == b;
    } else {
      assert (a + b)[1..] == a[1..] + b;
      CleanAppend(a[1..], b, Run(zeros, a[0]));
    }
  }

  // A NAL unit: header bytes ending in a nonzero byte, then the escaped payload.
  function NalUnit(header: seq<byte>, rbsp: seq<byte>): seq<byte> {
    header + Escape(rbsp)
  }

  // One NAL unit of the byte stream, led by the four-byte start code.
  function Framed(unit: seq<byte>): seq<byte> {
    START_CODE + unit
  }

  lemma HeaderIsClean(header: seq<byte>)
    requires 1 <= |header| <= 2 && header[|header| - 1] != 0
    ensures Clean(header) && RunAfter(header, 0) == 0
  {
    if |header| == 2 {
      var run := Run(0, header[0]);
      assert header[1..] == [header[1]] && header[1..][1..] == [];
      assert RunAfter(header[1..], run) == RunAfter([], Run(run, header[1]));
    }
  }

  lemma NalUnitHasNoTriples(header: seq<byte>, rbsp: seq<byte>)
    requires 1 <= |header| <= 2 && header[|header| - 1] != 0
    ensures NoTriples(NalUnit(header, rbsp))
  {
    EscapedIsClean(rbsp, 0);
    HeaderIsClean(header);
    CleanAppend(header, Escape(rbsp), 0);
    forall i: nat ensures !TripleAt(NalUnit(header, rbsp), i, 2) {
      CleanHasNoTriple(NalUnit(header, rbsp), 0, i);
    }
  }

  lemma {:induction false} EscapeLast(s: seq<byte>, zeros: nat)
    requires s != []
    ensures Escape(s, zeros) != []
    ensures Escape(s, zeros)[|Escape(s, zeros)| - 1] == s[|s| - 1]
  {
    if |s| > 1 {
      EscapeLast(s[1..], if zeros >= 2 && s[0] <= 3 then Run(0, s[0]) else Run(zeros, s[0]));
    }
  }

  // Escaping inserts at most one byte for every two bytes after the first.
  lemma {:induction false} EscapeGrowth(s: seq<byte>, zeros: nat)
    requires zeros <= 2
    ensures s != [] ==> |Escape(s, zeros)| <= |s| + (|s| + zeros - 1) / 2
  {
    if s != [] {
      if zeros == 2 && s[0] <= 3 {
        EscapeGrowth(s[1..], Run(0, s[0]));
      } else {
        EscapeGrowth(s[1..], Run(zeros, s[0]));
      }
    }
  }

  // No byte is inserted without need: among the byte strings without a forbidden triple that read back as the payload,
  // the escaped payload is a shortest one.
  lemma {:induction false} EscapeIsShortest(s: seq<byte>, t: seq<byte>, zeros: nat)
    requires zeros <= 2 && Clean(t, zeros) && Unescape(t, zeros) == s
    ensures |Escape(s, zeros)| <= |t|
    decreases |t|
  {
    if t != [] {
      if zeros == 2 && t[0] == 3 {
        EscapeIsShortest(s, t[1..], 0);
      } else {
        EscapeIsShortest(s[1..], t[1..], Run(zeros, t[0]));
      }
    }
  }

  // ---------- Splitting a byte stream into NAL units (section B.2 of both standards) ----------

  // Where the unit that begins at i ends: before 00 00 00, before 00 00 01, or with the stream.
  function UnitEnd(s: seq<byte>, i: nat): (e: nat)
    requires i <= |s|
    ensures i <= e <= |s|
    decreases |s| - i
  {
    if i == |s| || TripleAt(s, i, 1) then i else UnitEnd(s, i + 1)
  }

  // Skip zero bytes up to a start code prefix, take the unit behind it, and go on.
  function Split(s: seq<byte>): seq<seq<byte>>
    decreases |s|
  {
    if |s| < 3 then []
    else if s[0] == 0 && s[1] == 0 && s[2] == 1 then [s[3..UnitEnd(s, 3)]] + Split(s[UnitEnd(s, 3)..])
    else Split(s[1..])
  }

  function Stream(units: seq<seq<byte>>): seq<byte> {
    if units == [] then [] else Framed(units[0]) + Stream(units[1..])
  }

  // A unit without its trailing zero bytes.
  function Strip(u: seq<byte>): (r: seq<byte>)
    ensures r <= u
    ensures r == u <==> Unpadded(u)
  {
    if Unpadded(u) then u else Strip(u[..|u| - 1])
  }

  predicate Unpadded(u: seq<byte>) {
    u == [] || u[|u| - 1] != 0
  }

  // What a splitter makes of framed units: trailing zeros of every unit but the last are lost.
  function Delivered(units: seq<seq<byte>>): (r: seq<seq<byte>>)
    ensures |r| == |units|
  {
    if |units| <= 1 then units else [Strip(units[0])] + Delivered(units[1..])
  }

  lemma {:induction false} DeliveredAt(units: seq<seq<byte>>, i: nat)
    requires i < |units|
    ensures Delivered(units)[i] == if i == |units| - 1 then units[i] else Strip(units[i])
    decreases |units|
  {
    hide Strip;
    if i > 0 {
      DeliveredAt(units[1..], i - 1);
    }
  }

  lemma {:induction false} UnitEndIs(s: seq<byte>, i: nat, e: nat)
    requires i <= e <= |s|
    requires forall j: nat :: i <= j < e ==> !TripleAt(s, j, 1)
    requires e == |s| || TripleAt(s, e, 1)
    ensures UnitEnd(s, i) == e
    decreases e - i
  {
    if i < e {
      UnitEndIs(s, i + 1, e);
    }
  }

  lemma {:induction false} StripTail(u: seq<byte>)
    ensures Strip(u) == [] || Strip(u)[|Strip(u)| - 1] != 0
    ensures forall k :: |Strip(u)| <= k < |u| ==> u[k] == 0
  {
    if u != [] && u[|u| - 1] == 0 {
      StripTail(u[..|u| - 1]);
    }
  }

  // Zero bytes in front of a start code prefix are skipped.
  lemma {:induction false} SplitSkipsZeros(s: seq<byte>, n: nat)
    requires n + 3 <= |s| && s[n] == 0 && s[n + 1] == 0 && s[n + 2] == 1
    requires forall k :: 0 <= k < n ==> s[k] == 0
    ensures Split(s) == Split(s[n..])
    decreases n
  {
    if n > 0 {
      assert s[2] == 0;
      SplitSkipsZeros(s[1..], n - 1);
      assert s[1..][n - 1..] == s[n..];
    } else {
      assert s[0..] == s;
    }
  }

  // A start code prefix, with or without its leading zero byte.
  const SHORT_START_CODE: seq<byte> := [0, 0, 1]

  predicate IsStartCode(code: seq<byte>) {
    code == START_CODE || code == SHORT_START_CODE
  }

  // Inside a unit, up to its last nonzero byte or the end of the stream, nothing ends it.
  lemma NothingEndsInside(s: seq<byte>, u: seq<byte>, e: nat, j: nat)
    requires NoTriples(u) && 3 <= j < e <= 3 + |u| <= |s|
    requires forall k :: 3 <= k < 3 + |u| ==> s[k] == u[k - 3]
    requires e == |s| || s[e - 1] != 0
    ensures !TripleAt(s, j, 1)
  {
    assert !TripleAt(u, j - 3, 2);
  }

  // Behind it, zeros and the next start code do.
  lemma StartCodeEnds(s: seq<byte>, e: nat, next: nat)
    requires e <= next && next + 3 <= |s|
    requires forall k :: e <= k < next ==> s[k] == 0
    requires s[next] == 0 && s[next + 1] == 0 && s[next + 2] <= 1
    ensures TripleAt(s, e, 1)
  {
  }

  lemma FirstUnit(u: seq<byte>, code: seq<byte>, rest: seq<byte>)
    requires NoTriples(u)
    requires rest == [] || (IsStartCode(code) && code <= rest)
    ensures
      var s := [0, 0, 1] + u + rest;
      UnitEnd(s, 3) == if rest == [] then |s| else 3 + |Strip(u)|
  {
    hide NoTriples, TripleAt, Strip, UnitEnd;
    var s := [0, 0, 1] + u + rest;
    var body := if rest == [] then u else Strip(u);
    var e := 3 + |body|;
    StripTail(u);
    UnitInStream(u, body, rest);
    forall j: nat | 3 <= j < e ensures !TripleAt(s, j, 1) {
      NothingEndsInside(s, u, e, j);
    }
    if rest != [] {
      assert forall k :: 0 <= k < 3 ==> s[3 + |u| + k] == rest[k] == code[k];
      StartCodeEnds(s, e, 3 + |u|);
    }
    UnitEndIs(s, 3, e);
  }

  // A leading start code is found, whichever form it has.
  lemma SplitCode(code: seq<byte>, s: seq<byte>)
    requires IsStartCode(code)
    ensures Split(code + s) == Split(SHORT_START_CODE + s)
  {
    if code == START_CODE {
      assert (code + s)[1..] == SHORT_START_CODE + s;
      SplitSkipsZeros(code + s, 1);
    }
  }

  lemma SplitFirst(code: seq<byte>, u: seq<byte>, next: seq<byte>, rest: seq<byte>)
    requires NoTriples(u)
    requires IsStartCode(code) && IsStartCode(next) && next <= rest
    ensures Split(code + u + rest) == [Strip(u)] + Split(rest)
  {
    hide NoTriples, Strip, Split, UnitEnd;
    var s, e := SHORT_START_CODE + u + rest, 3 + |Strip(u)|;
    assert code + u + rest == code + (u + rest) && s == SHORT_START_CODE + (u + rest);
    SplitCode(code, u + rest);
    FirstUnit(u, next, rest);
    TakeUnit(s);
    StripTail(u);
    UnitInStream(u, Strip(u), rest);
    SplitAfterUnit(s, e, 3 + |u|, next);
  }

  // At a start code prefix, the unit up to its end is taken.
  lemma TakeUnit(s: seq<byte>)
    requires |s| >= 3 && s[0] == 0 && s[1] == 0 && s[2] == 1
    ensures Split(s) == [s[3..UnitEnd(s, 3)]] + Split(s[UnitEnd(s, 3)..])
  {
  }

  lemma UnitInStream(u: seq<byte>, body: seq<byte>, rest: seq<byte>)
    requires body <= u
    ensures
      var s := SHORT_START_CODE + u + rest;
      && s[3..3 + |body|] == body && s[3 + |u|..] == rest
      && (forall k :: 0 <= k <= |rest| ==> s[3 + |u|..3 + |u| + k] == rest[..k])
      && forall k :: 3 <= k < 3 + |u| ==> s[k] == u[k - 3]
  {
  }

  // The zeros behind a unit belong to the search for the next start code.
  lemma SplitAfterUnit(s: seq<byte>, e: nat, next: nat, code: seq<byte>)
    requires IsStartCode(code)
    requires e <= next && next + |code| <= |s|
    requires forall k :: e <= k < next ==> s[k] == 0
    requires s[next..next + |code|] == code
    ensures Split(s[e..]) == Split(s[next..])
  {
    var extra := |code| - 3;
    var n := next - e + extra;
    var found := s[next..next + |code|];
    assert found[extra] == s[next + extra] && found[extra + 1] == s[next + extra + 1]
        && found[extra + 2] == s[next + extra + 2] && found[0] == s[next];
    assert s[e..][n..] == s[next + extra..] == s[next..][extra..];
    SplitSkipsZeros(s[e..], n);
    SplitSkipsZeros(s[next..], extra);
  }

  lemma SplitLast(code: seq<byte>, u: seq<byte>)
    requires NoTriples(u) && IsStartCode(code)
    ensures Split(code + u) == [u]
  {
    var s := SHORT_START_CODE + u;
    SplitCode(code, u);
    FirstUnit(u, [], []);
    assert s + [] == s;
    assert Split(s) == [s[3..|s|]] + Split(s[|s|..]);
    assert s[3..|s|] == u;
    assert s[|s|..] == [];
  }

  // Each unit led by one of the start codes.
  function Chunks(codes: seq<seq<byte>>, units: seq<seq<byte>>): seq<byte>
    requires |codes| == |units|
  {
    if units == [] then [] else codes[0] + units[0] + Chunks(codes[1..], units[1..])
  }

  // Splitting loses exactly the trailing zeros of the units before the last.
  lemma {:induction false} SplitChunks(codes: seq<seq<byte>>, units: seq<seq<byte>>)
    requires |codes| == |units|
    requires forall u :: u in units ==> NoTriples(u)
    requires forall c :: c in codes ==> IsStartCode(c)
    ensures Split(Chunks(codes, units)) == Delivered(units)
    decreases |units|
  {
    hide NoTriples, IsStartCode, Strip;
    if |units| == 1 {
      assert Chunks(codes, units) == codes[0] + units[0];
      SplitLast(codes[0], units[0]);
    } else if |units| > 1 {
      var rest := Chunks(codes[1..], units[1..]);
      assert codes[1..][0] == codes[1];
      assert codes[1] <= rest;
      SplitFirst(codes[0], units[0], codes[1], rest);
      SplitChunks(codes[1..], units[1..]);
    }
  }

  function LongCodes(n: nat): (r: seq<seq<byte>>)
    ensures |r| == n && forall c :: c in r ==> IsStartCode(c)
  {
    if n == 0 then [] else [START_CODE] + LongCodes(n - 1)
  }

  lemma {:induction false} StreamIsChunks(units: seq<seq<byte>>)
    ensures Stream(units) == Chunks(LongCodes(|units|), units)
  {
    if units != [] {
      StreamIsChunks(units[1..]);
      assert LongCodes(|units|)[1..] == LongCodes(|units[1..]|);
    }
  }

  lemma SplitStream(units: seq<seq<byte>>)
    requires forall u :: u in units ==> NoTriples(u)
    ensures Split(Stream(units)) == Delivered(units)
  {
    StreamIsChunks(units);
    SplitChunks(LongCodes(|units|), units);
  }

  lemma {:induction false} DeliveredIntact(units: seq<seq<byte>>)
    ensures Delivered(units) == units
       <==> forall i :: 0 <= i < |units| - 1 ==> Unpadded(units[i])
  {
    if |units| > 1 {
      var u, rest := units[0], units[1..];
      DeliveredIntact(rest);
      assert units == [u] + rest;
      if Delivered(units) == units {
        ConcatInjective([Strip(u)], Delivered(rest), [u], rest);
      }
      assert forall i :: 0 <= i < |rest| ==> rest[i] == units[i + 1];
    }
  }

  // The units survive framing and splitting exactly when every unit but the last ends in a nonzero byte.
  lemma SplitReturnsUnits(units: seq<seq<byte>>)
    requires forall u :: u in units ==> NoTriples(u)
    ensures Split(Stream(units)) == units
       <==> forall i :: 0 <= i < |units| - 1 ==> Unpadded(units[i])
  {
    SplitStream(units);
    DeliveredIntact(units);
  }
}
