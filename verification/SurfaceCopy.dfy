/** Two-plane strided copies: src/objects.c and pack_yuv420_layout in src/v4l2_encoder.c. */
module SurfaceCopy {
  import opened Bitstring
  import opened Limits
  import opened Wrappers

  // ---------- Images as byte strings ----------

  function ZeroBytes(n: nat): (r: seq<byte>)
    ensures |r| == n
  {
    seq(n, i => 0)
  }

  // The bytes that rows at this stride take.
  function Span(rows: nat, stride: nat): nat {
    if rows == 0 then 0 else Span(rows - 1, stride) + stride
  }

  lemma {:induction false} SpanIs(rows: nat, stride: nat)
    ensures Span(rows, stride) == rows * stride
  {
    if rows > 0 {
      SpanIs(rows - 1, stride);
    }
  }

  lemma {:induction false} SpanGrows(r: nat, rows: nat, stride: nat)
    requires r < rows
    ensures Span(r, stride) + stride <= Span(rows, stride)
    decreases rows
  {
    if r < rows - 1 {
      SpanGrows(r, rows - 1, stride);
    }
  }

  // Rows of rowBytes taken at srcStride, laid out at stride with zeros between them.
  function Plane(src: seq<byte>, offset: nat, srcStride: nat, stride: nat, rowBytes: nat, rows: nat): (r: seq<byte>)
    requires offset + Span(rows, srcStride) <= |src| && rowBytes <= srcStride && rowBytes <= stride
    ensures |r| == Span(rows, stride)
  {
    if rows == 0 then []
    else
      var at := offset + Span(rows - 1, srcStride);
      Plane(src, offset, srcStride, stride, rowBytes, rows - 1) + src[at..at + rowBytes] + ZeroBytes(stride - rowBytes)
  }

  datatype Layout = Layout(stride: nat, uvOffset: nat)

  // Twice half luma rows and half chroma rows fit a buffer of n bytes without meeting.
  predicate Fits(n: nat, l: Layout, rowBytes: nat, half: nat) {
    && rowBytes <= l.stride
    && Span(2 * half, l.stride) <= l.uvOffset
    && l.uvOffset + Span(half, l.stride) <= n
  }

  function Luma(src: seq<byte>, from: Layout, stride: nat, rowBytes: nat, half: nat): (r: seq<byte>)
    requires Fits(|src|, from, rowBytes, half) && rowBytes <= stride
    ensures |r| == Span(2 * half, stride)
  {
    Plane(src, 0, from.stride, stride, rowBytes, 2 * half)
  }

  function Chroma(src: seq<byte>, from: Layout, stride: nat, rowBytes: nat, half: nat): (r: seq<byte>)
    requires Fits(|src|, from, rowBytes, half) && rowBytes <= stride
    ensures |r| == Span(half, stride)
  {
    Plane(src, from.uvOffset, from.stride, stride, rowBytes, half)
  }

  // An image of n bytes with the rows of src in layout to, and zeros everywhere else.
  function Image(n: nat, to: Layout, from: Layout, src: seq<byte>, rowBytes: nat, half: nat): (r: seq<byte>)
    requires Fits(n, to, rowBytes, half) && Fits(|src|, from, rowBytes, half)
    ensures |r| == n
  {
    Luma(src, from, to.stride, rowBytes, half) +
    ZeroBytes(to.uvOffset - Span(2 * half, to.stride)) +
    Chroma(src, from, to.stride, rowBytes, half) +
    ZeroBytes(n - to.uvOffset - Span(half, to.stride))
  }

  // ---------- Copying through a layout ----------

  lemma PlaneStep(src: seq<byte>, offset: nat, srcStride: nat, stride: nat, rowBytes: nat, row: nat)
    requires offset + Span(row + 1, srcStride) <= |src| && rowBytes <= srcStride && rowBytes <= stride
    ensures
      var at := offset + Span(row, srcStride);
      && at + rowBytes <= |src|
      && Plane(src, offset, srcStride, stride, rowBytes, row + 1) ==
         Plane(src, offset, srcStride, stride, rowBytes, row) + src[at..at + rowBytes] + ZeroBytes(stride - rowBytes)
  {
  }

  lemma SliceOfSlice(s: seq<byte>, at: nat, n: nat, lo: nat, hi: nat)
    requires at + n <= |s| && lo <= hi <= n
    ensures s[at..at + n][lo..hi] == s[at + lo..at + hi]
  {
    var a, b := s[at..at + n][lo..hi], s[at + lo..at + hi];
    assert forall k :: 0 <= k < hi - lo ==> a[k] == b[k];
  }

  lemma MidRow(mid: seq<byte>, at: nat, before: seq<byte>, row: seq<byte>, z: seq<byte>)
    requires at + |before| + |row| + |z| <= |mid|
    requires mid[at..at + |before| + |row| + |z|] == before + row + z
    ensures mid[at..at + |before|] == before
    ensures mid[at + |before|..at + |before| + |row|] == row
  {
    var n := |before| + |row| + |z|;
    SliceOfSlice(mid, at, n, 0, |before|);
    SliceOfSlice(mid, at, n, |before|, |before| + |row|);
    assert (before + row + z)[0..|before|] == before;
    assert (before + row + z)[|before|..|before| + |row|] == row;
  }

  // mid holds the rows of src from at on: those before the last, and the last.
  lemma MidStep(
    src: seq<byte>, offset: nat, srcStride: nat, mid: seq<byte>, at: nat, midStride: nat, rowBytes: nat, r: nat)
    requires offset + Span(r + 1, srcStride) <= |src| && rowBytes <= srcStride && rowBytes <= midStride
    requires at + Span(r + 1, midStride) <= |mid|
    requires mid[at..at + Span(r + 1, midStride)] == Plane(src, offset, srcStride, midStride, rowBytes, r + 1)
    ensures mid[at..at + Span(r, midStride)] == Plane(src, offset, srcStride, midStride, rowBytes, r)
    ensures
      mid[at + Span(r, midStride)..at + Span(r, midStride) + rowBytes] ==
      src[offset + Span(r, srcStride)..offset + Span(r, srcStride) + rowBytes]
  {
    hide Plane, ZeroBytes;
    PlaneStep(src, offset, srcStride, midStride, rowBytes, r);
    var from := offset + Span(r, srcStride);
    MidRow(mid, at, Plane(src, offset, srcStride, midStride, rowBytes, r), src[from..from + rowBytes],
           ZeroBytes(midStride - rowBytes));
  }

  // A source that itself holds the rows at this offset supplies the same rows.
  lemma {:induction false} PlaneOfPlane(
    src: seq<byte>, offset: nat, srcStride: nat, mid: seq<byte>, at: nat, midStride: nat, stride: nat, rowBytes: nat,
    rows: nat)
    requires offset + Span(rows, srcStride) <= |src| && rowBytes <= srcStride
    requires rowBytes <= midStride && rowBytes <= stride
    requires at + Span(rows, midStride) <= |mid|
    requires mid[at..at + Span(rows, midStride)] == Plane(src, offset, srcStride, midStride, rowBytes, rows)
    ensures Plane(mid, at, midStride, stride, rowBytes, rows) == Plane(src, offset, srcStride, stride, rowBytes, rows)
    decreases rows
  {
    if rows > 0 {
      hide Plane, ZeroBytes, Span;
      var r := rows - 1;
      SpanGrows(r, rows, srcStride);
      SpanGrows(r, rows, midStride);
      MidStep(src, offset, srcStride, mid, at, midStride, rowBytes, r);
      PlaneStep(src, offset, srcStride, stride, rowBytes, r);
      PlaneStep(mid, at, midStride, stride, rowBytes, r);
      PlaneOfPlane(src, offset, srcStride, mid, at, midStride, stride, rowBytes, r);
    }
  }

  lemma FourPieces(a: seq<byte>, b: seq<byte>, c: seq<byte>, d: seq<byte>)
    ensures (a + b + c + d)[0..|a|] == a
    ensures (a + b + c + d)[|a| + |b|..|a| + |b| + |c|] == c
  {
  }

  lemma ImagePlanes(n: nat, to: Layout, from: Layout, src: seq<byte>, rowBytes: nat, half: nat)
    requires Fits(n, to, rowBytes, half) && Fits(|src|, from, rowBytes, half)
    ensures
      var image := Image(n, to, from, src, rowBytes, half);
      && image[0..0 + Span(2 * half, to.stride)] == Luma(src, from, to.stride, rowBytes, half)
      && image[to.uvOffset..to.uvOffset + Span(half, to.stride)] == Chroma(src, from, to.stride, rowBytes, half)
  {
    hide Luma, Chroma, ZeroBytes, Span;
    FourPieces(Luma(src, from, to.stride, rowBytes, half), ZeroBytes(to.uvOffset - Span(2 * half, to.stride)),
               Chroma(src, from, to.stride, rowBytes, half), ZeroBytes(n - to.uvOffset - Span(half, to.stride)));
  }

  // Copying an image in and out again is copying it once: the layout in between leaves no trace.
  lemma CopiedThrough(
    n: nat, to: Layout, m: nat, between: Layout, from: Layout, src: seq<byte>, rowBytes: nat, half: nat)
    requires Fits(n, to, rowBytes, half) && Fits(m, between, rowBytes, half) && Fits(|src|, from, rowBytes, half)
    ensures
      Image(n, to, between, Image(m, between, from, src, rowBytes, half), rowBytes, half) ==
      Image(n, to, from, src, rowBytes, half)
  {
    hide Plane, ZeroBytes, Image, Span;
    var mid := Image(m, between, from, src, rowBytes, half);
    ImagePlanes(m, between, from, src, rowBytes, half);
    PlaneOfPlane(src, 0, from.stride, mid, 0, between.stride, to.stride, rowBytes, 2 * half);
    PlaneOfPlane(src, from.uvOffset, from.stride, mid, between.uvOffset, between.stride, to.stride, rowBytes, half);
    SameImage(n, to, between, mid, from, src, rowBytes, half);
  }

  lemma SameImage(n: nat, to: Layout, one: Layout, a: seq<byte>, other: Layout, b: seq<byte>, rowBytes: nat, half: nat)
    requires Fits(n, to, rowBytes, half) && Fits(|a|, one, rowBytes, half) && Fits(|b|, other, rowBytes, half)
    requires Luma(a, one, to.stride, rowBytes, half) == Luma(b, other, to.stride, rowBytes, half)
    requires Chroma(a, one, to.stride, rowBytes, half) == Chroma(b, other, to.stride, rowBytes, half)
    ensures Image(n, to, one, a, rowBytes, half) == Image(n, to, other, b, rowBytes, half)
  {
    hide Luma, Chroma, ZeroBytes, Span;
  }

  // ---------- Where each row comes from ----------

  lemma LastRow(before: seq<byte>, x: seq<byte>, z: seq<byte>)
    ensures (before + x + z)[|before|..|before| + |x|] == x
  {
  }

  lemma EarlierRow(before: seq<byte>, x: seq<byte>, z: seq<byte>, at: nat, n: nat)
    requires at + n <= |before|
    ensures (before + x + z)[at..at + n] == before[at..at + n]
  {
  }

  // Each row of a plane is the row of its source.
  lemma {:induction false} PlaneRow(
    src: seq<byte>, offset: nat, srcStride: nat, stride: nat, rowBytes: nat, rows: nat, r: nat)
    requires offset + Span(rows, srcStride) <= |src| && rowBytes <= srcStride && rowBytes <= stride
    requires r < rows
    ensures Span(r, stride) + rowBytes <= Span(rows, stride)
    ensures offset + Span(r, srcStride) + rowBytes <= |src|
    ensures
      Plane(src, offset, srcStride, stride, rowBytes, rows)[Span(r, stride)..Span(r, stride) + rowBytes] ==
      src[offset + Span(r, srcStride)..offset + Span(r, srcStride) + rowBytes]
    decreases rows
  {
    hide Plane, ZeroBytes, Span;
    SpanGrows(r, rows, stride);
    SpanGrows(r, rows, srcStride);
    SpanGrows(rows - 1, rows, srcStride);
    PlaneStep(src, offset, srcStride, stride, rowBytes, rows - 1);
    var at := offset + Span(rows - 1, srcStride);
    var before, x, z := Plane(src, offset, srcStride, stride, rowBytes, rows - 1), src[at..at + rowBytes],
      ZeroBytes(stride - rowBytes);
    if r < rows - 1 {
      PlaneRow(src, offset, srcStride, stride, rowBytes, rows - 1, r);
      EarlierRow(before, x, z, Span(r, stride), rowBytes);
    } else {
      LastRow(before, x, z);
    }
  }

  // Row r of a plane that begins at offset.
  function RowAt(bytes: seq<byte>, offset: nat, stride: nat, rowBytes: nat, r: nat): seq<byte>
    requires offset + Span(r, stride) + rowBytes <= |bytes|
  {
    bytes[offset + Span(r, stride)..offset + Span(r, stride) + rowBytes]
  }

  lemma RowInside(
    image: seq<byte>, at: nat, src: seq<byte>, offset: nat, srcStride: nat, stride: nat, rowBytes: nat, rows: nat,
    r: nat)
    requires offset + Span(rows, srcStride) <= |src| && rowBytes <= srcStride && rowBytes <= stride && r < rows
    requires at + Span(rows, stride) <= |image|
    requires image[at..at + Span(rows, stride)] == Plane(src, offset, srcStride, stride, rowBytes, rows)
    ensures at + Span(r, stride) + rowBytes <= |image| && offset + Span(r, srcStride) + rowBytes <= |src|
    ensures RowAt(image, at, stride, rowBytes, r) == RowAt(src, offset, srcStride, rowBytes, r)
  {
    hide Plane, Span;
    PlaneRow(src, offset, srcStride, stride, rowBytes, rows, r);
    SliceOfSlice(image, at, Span(rows, stride), Span(r, stride), Span(r, stride) + rowBytes);
  }

  // Every visible luma and chroma row of an image is the row of its source.
  lemma ImageRows(n: nat, to: Layout, from: Layout, src: seq<byte>, rowBytes: nat, half: nat, r: nat)
    requires Fits(n, to, rowBytes, half) && Fits(|src|, from, rowBytes, half) && r < 2 * half
    ensures Span(r, to.stride) + rowBytes <= n && Span(r, from.stride) + rowBytes <= |src|
    ensures
      var image := Image(n, to, from, src, rowBytes, half);
      RowAt(image, 0, to.stride, rowBytes, r) == RowAt(src, 0, from.stride, rowBytes, r)
    ensures r < half ==>
      && to.uvOffset + Span(r, to.stride) + rowBytes <= n && from.uvOffset + Span(r, from.stride) + rowBytes <= |src|
      && var image := Image(n, to, from, src, rowBytes, half);
         RowAt(image, to.uvOffset, to.stride, rowBytes, r) == RowAt(src, from.uvOffset, from.stride, rowBytes, r)
  {
    hide Plane, ZeroBytes, Image, Span, RowAt;
    var image := Image(n, to, from, src, rowBytes, half);
    ImagePlanes(n, to, from, src, rowBytes, half);
    RowInside(image, 0, src, 0, from.stride, to.stride, rowBytes, 2 * half, r);
    if r < half {
      RowInside(image, to.uvOffset, src, from.uvOffset, from.stride, to.stride, rowBytes, half, r);
    }
  }

  // ---------- What stands between the rows ----------

  lemma ZeroAt(n: nat, k: nat)
    requires k < n
    ensures ZeroBytes(n)[k] == 0
  {
  }

  // Position k belongs to one of the rows that begin at offset.
  predicate InRows(k: nat, offset: nat, stride: nat, rowBytes: nat, rows: nat) {
    exists r: nat :: r < rows && offset + Span(r, stride) <= k < offset + Span(r, stride) + rowBytes
  }

  lemma AppendedAt(before: seq<byte>, x: seq<byte>, z: seq<byte>, k: nat)
    requires k < |before| + |x| + |z|
    ensures (before + x + z)[k] ==
            if k < |before| then before[k] else if k < |before| + |x| then x[k - |before|] else z[k - |before| - |x|]
  {
  }

  lemma {:induction false} PlaneElsewhere(
    src: seq<byte>, offset: nat, srcStride: nat, stride: nat, rowBytes: nat, rows: nat, k: nat)
    requires offset + Span(rows, srcStride) <= |src| && rowBytes <= srcStride && rowBytes <= stride
    requires k < Span(rows, stride) && !InRows(k, 0, stride, rowBytes, rows)
    ensures Plane(src, offset, srcStride, stride, rowBytes, rows)[k] == 0
    decreases rows
  {
    if rows > 0 {
      var r := rows - 1;
      PlaneStep(src, offset, srcStride, stride, rowBytes, r);
      var at := offset + Span(r, srcStride);
      var before := Plane(src, offset, srcStride, stride, rowBytes, r);
      assert !(0 + Span(r, stride) <= k < 0 + Span(r, stride) + rowBytes);
      if k < Span(r, stride) {
        assert !InRows(k, 0, stride, rowBytes, r);
        PlaneElsewhere(src, offset, srcStride, stride, rowBytes, r, k);
      } else {
        ZeroAt(stride - rowBytes, k - Span(r, stride) - rowBytes);
      }
      hide Plane, ZeroBytes;
      AppendedAt(before, src[at..at + rowBytes], ZeroBytes(stride - rowBytes), k);
    }
  }

  lemma ShiftedRows(k: nat, offset: nat, stride: nat, rowBytes: nat, rows: nat)
    requires offset <= k
    ensures InRows(k, offset, stride, rowBytes, rows) <==> InRows(k - offset, 0, stride, rowBytes, rows)
  {
    hide Span;
  }

  // Whatever belongs to no visible row is zero.
  lemma ImageElsewhere(n: nat, to: Layout, from: Layout, src: seq<byte>, rowBytes: nat, half: nat, k: nat)
    requires Fits(n, to, rowBytes, half) && Fits(|src|, from, rowBytes, half) && k < n
    requires !InRows(k, 0, to.stride, rowBytes, 2 * half) && !InRows(k, to.uvOffset, to.stride, rowBytes, half)
    ensures Image(n, to, from, src, rowBytes, half)[k] == 0
  {
    hide Plane, ZeroBytes, Span, InRows;
    var luma, chroma := Span(2 * half, to.stride), Span(half, to.stride);
    if k < luma {
      PlaneElsewhere(src, 0, from.stride, to.stride, rowBytes, 2 * half, k);
    } else if k < to.uvOffset {
      ZeroAt(to.uvOffset - luma, k - luma);
    } else if k < to.uvOffset + chroma {
      ShiftedRows(k, to.uvOffset, to.stride, rowBytes, half);
      PlaneElsewhere(src, from.uvOffset, from.stride, to.stride, rowBytes, half, k - to.uvOffset);
    } else {
      ZeroAt(n - to.uvOffset - chroma, k - to.uvOffset - chroma);
    }
  }

  // ---------- What survives a copy ----------

  // The visible samples, row behind row.
  function Visible(bytes: seq<byte>, l: Layout, rowBytes: nat, half: nat): (r: seq<byte>)
    requires Fits(|bytes|, l, rowBytes, half)
    ensures |r| == Span(2 * half, rowBytes) + Span(half, rowBytes)
  {
    Luma(bytes, l, rowBytes, rowBytes, half) + Chroma(bytes, l, rowBytes, rowBytes, half)
  }

  lemma VisibleKept(n: nat, to: Layout, from: Layout, src: seq<byte>, rowBytes: nat, half: nat)
    requires Fits(n, to, rowBytes, half) && Fits(|src|, from, rowBytes, half)
    ensures Visible(Image(n, to, from, src, rowBytes, half), to, rowBytes, half) == Visible(src, from, rowBytes, half)
  {
    hide Plane, ZeroBytes, Image, Span;
    var image := Image(n, to, from, src, rowBytes, half);
    ImagePlanes(n, to, from, src, rowBytes, half);
    PlaneOfPlane(src, 0, from.stride, image, 0, to.stride, rowBytes, rowBytes, 2 * half);
    PlaneOfPlane(src, from.uvOffset, from.stride, image, to.uvOffset, to.stride, rowBytes, rowBytes, half);
  }

  lemma {:induction false} PlaneOfZeros(
    n: nat, offset: nat, srcStride: nat, stride: nat, rowBytes: nat, rows: nat)
    requires offset + Span(rows, srcStride) <= n && rowBytes <= srcStride && rowBytes <= stride
    ensures Plane(ZeroBytes(n), offset, srcStride, stride, rowBytes, rows) == ZeroBytes(Span(rows, stride))
    decreases rows
  {
    if rows > 0 {
      PlaneOfZeros(n, offset, srcStride, stride, rowBytes, rows - 1);
      var at := offset + Span(rows - 1, srcStride);
      assert ZeroBytes(n)[at..at + rowBytes] == ZeroBytes(rowBytes);
    }
  }

  lemma VisibleOfZeros(n: nat, l: Layout, rowBytes: nat, half: nat)
    requires Fits(n, l, rowBytes, half)
    ensures Visible(ZeroBytes(n), l, rowBytes, half) == ZeroBytes(Span(2 * half, rowBytes) + Span(half, rowBytes))
  {
    hide Plane, Span;
    PlaneOfZeros(n, 0, l.stride, rowBytes, rowBytes, 2 * half);
    PlaneOfZeros(n, l.uvOffset, l.stride, rowBytes, rowBytes, half);
  }

  // What is left of the source when it is read: nothing, where it is the memory that was cleared.
  function Seen(src: seq<byte>, shared: bool): (r: seq<byte>)
    ensures |r| == |src|
  {
    if shared then ZeroBytes(|src|) else src
  }

  // A copy keeps the visible samples if and only if it is between two memories, or there was nothing to see.
  lemma SurvivesExactly(
    n: nat, to: Layout, from: Layout, src: seq<byte>, shared: bool, rowBytes: nat, half: nat)
    requires Fits(n, to, rowBytes, half) && Fits(|src|, from, rowBytes, half)
    ensures
      Visible(Image(n, to, from, Seen(src, shared), rowBytes, half), to, rowBytes, half) ==
      Visible(src, from, rowBytes, half)
      <==> !shared || Visible(src, from, rowBytes, half) == ZeroBytes(Span(2 * half, rowBytes) + Span(half, rowBytes))
  {
    hide Image, Visible, ZeroBytes, Span;
    VisibleKept(n, to, from, Seen(src, shared), rowBytes, half);
    VisibleOfZeros(|src|, from, rowBytes, half);
  }

  // Putting an image that was derived from a surface into that surface, or getting it from there, clears it.
  lemma InPlaceExample()
    ensures
      var l, src: seq<byte> := Layout(2, 4), [1, 1, 1, 1, 1, 1];
      && Fits(6, l, 2, 1)
      && Visible(Image(6, l, l, Seen(src, true), 2, 1), l, 2, 1) != Visible(src, l, 2, 1)
  {
    hide Image, ZeroBytes;
    var l, src: seq<byte> := Layout(2, 4), [1, 1, 1, 1, 1, 1];
    assert Span(1, 2) == 2 && Span(2, 2) == 4 && Span(0, 2) == 0;
    SurvivesExactly(6, l, l, src, true, 2, 1);
    FirstSample(src, l, 2, 1);
    assert Visible(src, l, 2, 1)[0] == 1;
    assert ZeroBytes(6)[0] == 0 by {
      ZeroFirst(6);
    }
  }

  lemma FirstSample(bytes: seq<byte>, l: Layout, rowBytes: nat, half: nat)
    requires Fits(|bytes|, l, rowBytes, half) && rowBytes > 0 && half > 0
    ensures Span(2 * half, rowBytes) > 0 && bytes != []
    ensures Visible(bytes, l, rowBytes, half)[0] == bytes[0]
  {
    hide Plane;
    SpanGrows(0, 2 * half, rowBytes);
    SpanGrows(0, 2 * half, l.stride);
    PlaneRow(bytes, 0, l.stride, rowBytes, rowBytes, 2 * half, 0);
    var luma := Luma(bytes, l, rowBytes, rowBytes, half);
    assert luma[0..rowBytes][0] == bytes[0..rowBytes][0];
  }

  lemma ZeroFirst(n: nat)
    requires n > 0
    ensures ZeroBytes(n)[0] == 0
  {
  }

  // ---------- Copying ----------

  // memset to zero
  method Clear(a: array<byte>, n: nat)
    requires n <= a.Length
    modifies a
    ensures a[..] == ZeroBytes(n) + old(a[n..])
  {
    for i := 0 to n
      invariant forall k :: 0 <= k < i ==> a[k] == 0
      invariant a[i..] == old(a[i..])
    {
      a[i] := 0;
    }
    assert a[..n] == ZeroBytes(n);
    assert a[..] == a[..n] + a[n..];
  }

  // The memory copied to is another memory, or all of it is zero.
  ghost predicate Apart(to: array<byte>, from: array<byte>)
    reads to
  {
    to == from ==> to[..] == ZeroBytes(to.Length)
  }

  // memcpy
  method CopyBytes(to: array<byte>, at: nat, from: array<byte>, offset: nat, n: nat)
    requires at + n <= to.Length && offset + n <= from.Length && Apart(to, from)
    modifies to
    ensures from[..] == old(from[..])
    ensures to[..] == old(to[..at]) + from[offset..offset + n] + old(to[at + n..])
  {
    for i := 0 to n
      invariant from[..] == old(from[..])
      invariant to[..at] == old(to[..at]) && to[at..at + i] == from[offset..offset + i]
      invariant to[at + i..] == old(to[at + i..])
    {
      to[at + i] := from[offset + i];
      assert from[offset..offset + i + 1] == from[offset..offset + i] + [from[offset + i]];
    }
    assert to[..] == to[..at] + to[at..at + n] + to[at + n..];
  }

  lemma ZeroSplit(a: nat, b: nat)
    ensures ZeroBytes(a + b) == ZeroBytes(a) + ZeroBytes(b)
  {
  }

  // One more row written over zeros.
  lemma RowWritten(head: seq<byte>, row: seq<byte>, gap: nat, left: nat, tail: seq<byte>)
    ensures
      var before := head + ZeroBytes(left + |row| + gap) + tail;
      before[..|head|] + row + before[|head| + |row|..] == head + row + ZeroBytes(gap) + ZeroBytes(left) + tail
  {
    ZeroSplit(|row|, gap + left);
    ZeroSplit(gap, left);
    hide ZeroBytes;
    OverWritten(head, ZeroBytes(|row|), ZeroBytes(gap), ZeroBytes(left), tail, row);
  }

  lemma OverWritten(head: seq<byte>, x: seq<byte>, y: seq<byte>, z: seq<byte>, tail: seq<byte>, row: seq<byte>)
    requires |row| == |x|
    ensures
      var before := head + (x + (y + z)) + tail;
      before[..|head|] == head && before[|head| + |row|..] == y + z + tail
      && head + row + (y + z + tail) == head + row + y + z + tail
  {
  }

  lemma Regroup(head: seq<byte>, a: seq<byte>, b: seq<byte>, c: seq<byte>)
    ensures head + (a + b + c) == head + a + (b + c)
  {
  }

  // One row, written over zeros.
  method CopyRow(
    to: array<byte>, target: nat, from: array<byte>, source: nat, rowBytes: nat,
    ghost gap: nat, ghost left: nat, ghost head: seq<byte>, ghost tail: seq<byte>)
    requires Apart(to, from) && target == |head| && source + rowBytes <= from.Length
    requires to[..] == head + ZeroBytes(left + rowBytes + gap) + tail
    modifies to
    ensures from[..] == old(from[..])
    ensures to[..] == head + (from[source..source + rowBytes] + ZeroBytes(gap)) + ZeroBytes(left) + tail
  {
    hide ZeroBytes;
    ghost var row := from[source..source + rowBytes];
    RowWritten(head, row, gap, left, tail);
    CopyBytes(to, target, from, source, rowBytes);
    assert head + (row + ZeroBytes(gap)) == head + row + ZeroBytes(gap);
  }

  // The row loop of one plane, over an area that was cleared.
  method CopyPlane(
    to: array<byte>, at: nat, stride: nat, from: array<byte>, offset: nat, srcStride: nat, rowBytes: nat, rows: nat,
    ghost head: seq<byte>, ghost tail: seq<byte>)
    requires Apart(to, from) && at == |head|
    requires offset + Span(rows, srcStride) <= from.Length && rowBytes <= srcStride && rowBytes <= stride
    requires to[..] == head + ZeroBytes(Span(rows, stride)) + tail
    modifies to
    ensures from[..] == old(from[..])
    ensures to[..] == head + Plane(from[..], offset, srcStride, stride, rowBytes, rows) + tail
  {
    hide ZeroBytes, Plane, Span, Left;
    ghost var src := from[..];
    var target, source := at, offset;
    PlaneStart(head, src, offset, srcStride, stride, rowBytes, rows);
    ghost var done := head;
    for row := 0 to rows
      invariant from[..] == src && offset + Span(row, srcStride) <= |src|
      invariant target == |done| && source == offset + Span(row, srcStride)
      invariant done == head + Plane(src, offset, srcStride, stride, rowBytes, row)
      invariant to[..] == done + ZeroBytes(Left(rows, row, stride)) + tail
    {
      RowFits(rows, row, srcStride);
      LeftStep(rows, row, stride);
      NextRow(head, src, offset, srcStride, stride, rowBytes, row);
      CopyRow(to, target, from, source, rowBytes, stride - rowBytes, Left(rows, row + 1, stride), done, tail);
      done := done + (src[source..source + rowBytes] + ZeroBytes(stride - rowBytes));
      target, source := target + stride, source + srcStride;
    }
    NothingLeft(done, rows, stride, tail);
  }

  lemma NextRow(head: seq<byte>, src: seq<byte>, offset: nat, srcStride: nat, stride: nat, rowBytes: nat, row: nat)
    requires offset + Span(row + 1, srcStride) <= |src| && rowBytes <= srcStride && rowBytes <= stride
    ensures
      var at := offset + Span(row, srcStride);
      && at + srcStride == offset + Span(row + 1, srcStride)
      && head + Plane(src, offset, srcStride, stride, rowBytes, row + 1) ==
         head + Plane(src, offset, srcStride, stride, rowBytes, row) +
         (src[at..at + rowBytes] + ZeroBytes(stride - rowBytes))
  {
    PlaneStep(src, offset, srcStride, stride, rowBytes, row);
    hide Plane, ZeroBytes;
    var at := offset + Span(row, srcStride);
    Regroup(head, Plane(src, offset, srcStride, stride, rowBytes, row), src[at..at + rowBytes],
            ZeroBytes(stride - rowBytes));
  }

  // The bytes behind row.
  function Left(rows: nat, row: nat, stride: nat): nat
    requires row <= rows
  {
    Span(rows - row, stride)
  }

  lemma RowFits(rows: nat, row: nat, stride: nat)
    requires row < rows
    ensures Span(row + 1, stride) <= Span(rows, stride)
  {
    SpanGrows(row, rows, stride);
  }

  lemma LeftStep(rows: nat, row: nat, stride: nat)
    requires row < rows
    ensures Left(rows, row, stride) == Left(rows, row + 1, stride) + stride
  {
  }

  lemma PlaneStart(
    head: seq<byte>, src: seq<byte>, offset: nat, srcStride: nat, stride: nat, rowBytes: nat, rows: nat)
    requires offset <= |src| && rowBytes <= srcStride && rowBytes <= stride
    ensures Span(0, srcStride) == 0 && Left(rows, 0, stride) == Span(rows, stride)
    ensures head + Plane(src, offset, srcStride, stride, rowBytes, 0) == head
  {
  }

  lemma NothingLeft(a: seq<byte>, rows: nat, stride: nat, tail: seq<byte>)
    ensures a + ZeroBytes(Left(rows, rows, stride)) + tail == a + tail
  {
  }

  lemma ZeroFour(a: nat, b: nat, c: nat, d: nat)
    ensures ZeroBytes(a + b + c + d) == [] + ZeroBytes(a) + (ZeroBytes(b) + ZeroBytes(c) + ZeroBytes(d))
  {
  }

  lemma SecondPlane(luma: seq<byte>, gap: seq<byte>, zeros: seq<byte>, rest: seq<byte>, tail: seq<byte>)
    ensures [] + luma + (gap + zeros + rest + tail) == luma + gap + zeros + (rest + tail)
  {
  }

  // Clear the first n bytes, then copy the luma rows and the chroma rows.
  method CopyImage(
    to: array<byte>, n: nat, target: Layout, from: array<byte>, source: Layout, rowBytes: nat, half: nat)
    requires n <= to.Length && (to == from ==> n == to.Length)
    requires Fits(n, target, rowBytes, half) && Fits(from.Length, source, rowBytes, half)
    modifies to
    ensures to[..] == Image(n, target, source, Seen(old(from[..]), to == from), rowBytes, half) + old(to[n..])
  {
    hide ZeroBytes, Plane, Span;
    ghost var src, tail := Seen(from[..], to == from), to[n..];
    ghost var gap, rest := target.uvOffset - Span(2 * half, target.stride),
      n - target.uvOffset - Span(half, target.stride);
    ghost var zeros := ZeroBytes(Span(half, target.stride));
    Clear(to, n);
    ZeroFour(Span(2 * half, target.stride), gap, Span(half, target.stride), rest);
    ghost var behind := ZeroBytes(gap) + zeros + ZeroBytes(rest) + tail;
    ghost var luma := Luma(src, source, target.stride, rowBytes, half);
    FirstPlane(ZeroBytes(Span(2 * half, target.stride)), ZeroBytes(gap) + zeros + ZeroBytes(rest), tail);
    CopyPlane(to, 0, target.stride, from, 0, source.stride, rowBytes, 2 * half, [], behind);
    SecondPlane(luma, ZeroBytes(gap), zeros, ZeroBytes(rest), tail);
    CopyPlane(to, target.uvOffset, target.stride, from, source.uvOffset, source.stride, rowBytes, half,
              luma + ZeroBytes(gap), ZeroBytes(rest) + tail);
    LastPieces(luma + ZeroBytes(gap), Chroma(src, source, target.stride, rowBytes, half), ZeroBytes(rest), tail);
  }

  lemma FirstPlane(zeros: seq<byte>, behind: seq<byte>, tail: seq<byte>)
    ensures [] + zeros + behind + tail == [] + zeros + (behind + tail)
  {
  }

  lemma LastPieces(a: seq<byte>, b: seq<byte>, c: seq<byte>, d: seq<byte>)
    ensures a + b + (c + d) == a + b + c + d
  {
  }

  // ---------- Sizes ----------

  // The overflow checks by division are checks of the product.
  lemma DivisionChecksProduct(a: nat, b: nat, max: nat)
    requires b > 0
    ensures a > max / b <==> a * b > max
  {
    var q := max / b;
    assert q * b <= max < (q + 1) * b;
    if a > q {
      ProductMonotonic(q + 1, a, b);
    } else {
      ProductMonotonic(a, q, b);
    }
  }

  predicate ProductOverflows(stride: nat, rows: nat)
    requires rows > 0
    ensures ProductOverflows(stride, rows) <==> Span(rows, stride) > SIZE_MAX
  {
    SpanIs(rows, stride);
    DivisionChecksProduct(stride, rows, SIZE_MAX);
    stride > SIZE_MAX / rows
  }

  function Product(stride: nat, rows: nat): (r: nat)
    ensures r == Span(rows, stride)
  {
    SpanIs(rows, stride);
    stride * rows
  }

  function RowBytes(w: nat, bytesPerSample: nat): nat {
    w * bytesPerSample
  }

  lemma RowBytesGrow(v: nat, w: nat, bytesPerSample: nat)
    requires v <= w
    ensures RowBytes(v, bytesPerSample) <= RowBytes(w, bytesPerSample)
    ensures 0 < v && 0 < bytesPerSample ==> 0 < RowBytes(v, bytesPerSample)
  {
    ProductMonotonic(v, w, bytesPerSample);
    if 0 < v {
      ProductMonotonic(1, v, bytesPerSample);
    }
  }

  lemma RowAtLeast(w: nat, bytesPerSample: nat)
    requires 0 < bytesPerSample
    ensures w <= RowBytes(w, bytesPerSample)
  {
    ProductMonotonic(1, bytesPerSample, w);
  }

  lemma SpanMonotonic(a: nat, b: nat, stride: nat)
    requires a <= b
    ensures Span(a, stride) <= Span(b, stride)
  {
    if a < b {
      SpanGrows(a, b, stride);
    }
  }

  // An image of rows of rowBytes and height h in a buffer of n bytes.
  predicate Holds(n: nat, l: Layout, rowBytes: nat, h: nat) {
    rowBytes <= l.stride && Span(h, l.stride) <= l.uvOffset && l.uvOffset + Span(h / 2, l.stride) <= n
  }

  lemma HoldsFits(n: nat, l: Layout, rowBytes: nat, h: nat)
    requires h % 2 == 0
    ensures Holds(n, l, rowBytes, h) <==> Fits(n, l, rowBytes, h / 2)
  {
    hide Span;
    assert 2 * (h / 2) == h;
  }

  /** The memory of a surface: row stride, chroma offset and size in bytes. */
  datatype Memory = Memory(stride: nat, uvOffset: nat, capacity: nat)
  {
    function Planes(): Layout {
      Layout(stride, uvOffset)
    }
  }

  predicate Sized(width: nat, height: nat, bytesPerSample: nat) {
    width > 0 && height > 0 && width % 2 == 0 && height % 2 == 0 && 1 <= bytesPerSample <= 2
  }

  // The visible samples of a surface fit its memory.
  predicate Usable(width: nat, height: nat, bytesPerSample: nat, m: Memory) {
    && Sized(width, height, bytesPerSample)
    && Holds(m.capacity, m.Planes(), RowBytes(width, bytesPerSample), height)
    && m.capacity <= UINT32_MAX
  }

  // A part of a usable surface fits it too.
  lemma PartHolds(width: nat, height: nat, bytesPerSample: nat, m: Memory, w: nat, h: nat)
    requires Usable(width, height, bytesPerSample, m) && w <= width && h <= height
    ensures Holds(m.capacity, m.Planes(), RowBytes(w, bytesPerSample), h)
    ensures 0 < w ==> m.stride > 0
    ensures Span(h, m.stride) <= m.uvOffset <= UINT32_MAX && Span(h / 2, m.stride) <= UINT32_MAX
  {
    hide Span, RowBytes;
    RowBytesGrow(w, width, bytesPerSample);
    SpanMonotonic(h, height, m.stride);
    SpanMonotonic(h / 2, height / 2, m.stride);
  }

  // The bytes an image takes, as venus_surface_copy_from_yuv420 adds them up: in 64 bits, without a check.
  function Required(l: Layout, half: nat): nat {
    (l.uvOffset + Product(l.stride, half)) % (SIZE_MAX + 1)
  }

  // The check of that sum against a buffer's size is right if and only if the sum does not wrap into the buffer.
  lemma RequiredExact(n: nat, l: Layout, half: nat)
    requires n <= SIZE_MAX
    ensures
      (Required(l, half) <= n <==> l.uvOffset + Span(half, l.stride) <= n) <==>
      l.uvOffset + Span(half, l.stride) <= SIZE_MAX || Required(l, half) > n
  {
    hide Product;
  }

  // Two rows of two bytes and one more, with the chroma offset at the top of the range.
  lemma WrapExample()
    ensures
      var l := Layout(2, SIZE_MAX - 1);
      Required(l, 1) == 0 && !Fits(6, l, 2, 1) && Span(2, 2) <= l.uvOffset <= SIZE_MAX
  {
    assert Span(1, 2) == 2 && Span(2, 2) == 4;
  }

  // No caller's sum wraps: neither an image in memory of its own or of a surface, nor a frame from the decoder, whose
  // chroma rows stand behind its luma rows.
  lemma CallersDoNotWrap(
    width: nat, height: nat, bytesPerSample: nat, m: Memory, stride: nat, frameHeight: nat)
    ensures Usable(width, height, bytesPerSample, m) ==> m.uvOffset + Span(height / 2, m.stride) <= SIZE_MAX
    ensures stride <= UINT32_MAX && height <= frameHeight < 0x8000_0000 ==>
              Span(frameHeight, stride) + Span(height / 2, stride) <= SIZE_MAX
  {
    hide Span, RowBytes;
    if stride <= UINT32_MAX && height <= frameHeight < 0x8000_0000 {
      SpanIs(frameHeight, stride);
      SpanIs(height / 2, stride);
      assert frameHeight * stride <= 0x7fff_ffff * stride by {
        ProductMonotonic(frameHeight, 0x7fff_ffff, stride);
      }
      assert height / 2 * stride <= 0x4000_0000 * stride by {
        ProductMonotonic(height / 2, 0x4000_0000, stride);
      }
    }
  }

  // ---------- Surfaces ----------

  // What a copy between a surface and a client's image asks of both.
  predicate Copyable(width: nat, height: nat, bytesPerSample: nat, n: nat, l: Layout, w: nat, h: nat) {
    && w > 0 && h > 0 && w % 2 == 0 && h % 2 == 0 && w <= width && h <= height
    && Holds(n, l, RowBytes(w, bytesPerSample), h)
  }

  // In plain arithmetic.
  lemma CopyableExactly(
    width: nat, height: nat, bytesPerSample: nat, n: nat, stride: nat, uvOffset: nat, w: nat, h: nat)
    ensures
      Copyable(width, height, bytesPerSample, n, Layout(stride, uvOffset), w, h) <==>
      && 0 < w <= width && 0 < h <= height && w % 2 == 0 && h % 2 == 0
      && w * bytesPerSample <= stride && h * stride <= uvOffset && uvOffset + h / 2 * stride <= n
  {
    hide Span;
    SpanIs(h, stride);
    SpanIs(h / 2, stride);
  }

  class Surface {
    const width: nat
    const height: nat
    const bytesPerSample: nat
    const memory: Memory
    const data: array<byte>
    var dataSize: nat
    var ready: bool

    ghost predicate Valid()
      reads this
    {
      && Usable(width, height, bytesPerSample, memory)
      && data.Length == memory.capacity && dataSize <= data.Length
    }

    constructor (width: nat, height: nat, bytesPerSample: nat, memory: Memory)
      requires Usable(width, height, bytesPerSample, memory)
      ensures Valid() && this.width == width && this.height == height && this.bytesPerSample == bytesPerSample
      ensures this.memory == memory && dataSize == memory.capacity && ready
      ensures fresh(data) && data[..] == ZeroBytes(memory.capacity)
    {
      this.width, this.height, this.bytesPerSample, this.memory := width, height, bytesPerSample, memory;
      dataSize, ready := memory.capacity, true;
      data := new byte[memory.capacity](i => 0);
    }

    // The surface's stride and chroma offset, as both copies read them; no created surface has either zero.
    function StrideFor(rowBytes: nat): nat {
      if memory.stride != 0 then memory.stride else rowBytes
    }

    function UvOffsetFor(rowBytes: nat): nat {
      if memory.uvOffset != 0 then memory.uvOffset else Product(StrideFor(rowBytes), height)
    }

    // The overflow checks on the surface's side never fail.
    lemma OwnLayout(w: nat, h: nat)
      requires Valid() && 0 < w <= width && 0 < h <= height && h % 2 == 0
      ensures
        var rowBytes := RowBytes(w, bytesPerSample);
        && StrideFor(rowBytes) == memory.stride && UvOffsetFor(rowBytes) == memory.uvOffset
        && Holds(data.Length, memory.Planes(), rowBytes, h)
        && !ProductOverflows(memory.stride, h / 2) && memory.uvOffset + Product(memory.stride, h / 2) <= data.Length
    {
      hide RowBytes, Product, ProductOverflows;
      PartHolds(width, height, bytesPerSample, memory, w, h);
      SpanGrows(0, h, memory.stride);
    }

    // venus_surface_copy_from_yuv420; begin and end: whether the kernel opens and closes CPU access.
    method CopyFrom(source: array<byte>, sourceStride: nat, sourceUvOffset: nat, w: nat, h: nat, begin: bool, end: bool)
      returns (o: Outcome)
      requires Valid() && source.Length <= SIZE_MAX
      requires sourceUvOffset + Span(h / 2, sourceStride) <= SIZE_MAX
      modifies this, data
      ensures Valid()
      ensures
        var image, rowBytes := Layout(sourceStride, sourceUvOffset), RowBytes(w, bytesPerSample);
        var accepted := Copyable(width, height, bytesPerSample, source.Length, image, w, h) && begin;
        && o == (
             if !(0 < w <= width && 0 < h <= height && w % 2 == 0 && h % 2 == 0 && rowBytes <= sourceStride) then
               Fail(Invalid)
             else if sourceUvOffset < Span(h, sourceStride) then Fail(Overflow)
             else if sourceUvOffset + Span(h / 2, sourceStride) > source.Length then Fail(NoSpace)
             else if begin && end then Pass else Fail(Busy))
        && (accepted ==>
              && Fits(source.Length, image, rowBytes, h / 2)
              && Fits(data.Length, memory.Planes(), rowBytes, h / 2)
              && data[..] ==
                 Image(data.Length, memory.Planes(), image, Seen(old(source[..]), source == data), rowBytes, h / 2)
              && dataSize == memory.uvOffset + Span(h / 2, memory.stride) && ready)
        && (!accepted ==> data[..] == old(data[..]) && dataSize == old(dataSize) && ready == old(ready))
    {
      hide Image, Span, Usable, Product, ProductOverflows, RowBytes;
      :- Check(w != 0 && h != 0 && w % 2 == 0 && h % 2 == 0 && w <= width && h <= height, Invalid);
      var rowBytes := RowBytes(w, bytesPerSample);
      var image := Layout(sourceStride, sourceUvOffset);
      OwnLayout(w, h);
      HoldsFits(source.Length, image, rowBytes, h);
      HoldsFits(data.Length, memory.Planes(), rowBytes, h);
      :- Check(sourceStride >= rowBytes, Invalid);
      :- Check(
        && !ProductOverflows(sourceStride, h) && sourceUvOffset >= Product(sourceStride, h)
        && !ProductOverflows(sourceStride, h / 2),
        Overflow);
      :- Check(Required(image, h / 2) <= source.Length, NoSpace);
      var stride, uvOffset := StrideFor(rowBytes), UvOffsetFor(rowBytes);
      :- Check(begin, Busy);
      CopyImage(data, data.Length, Layout(stride, uvOffset), source, image, rowBytes, h / 2);
      NoTail(Image(data.Length, memory.Planes(), image, Seen(old(source[..]), source == data), rowBytes, h / 2),
             old(data[..]));
      dataSize := uvOffset + Product(stride, h / 2);
      ready := true;
      :- Check(end, Busy);
      return Pass;
    }

    // venus_surface_copy_to_yuv420
    method CopyTo(destination: array<byte>, stride: nat, uvOffset: nat, w: nat, h: nat, begin: bool, end: bool)
      returns (o: Outcome)
      requires Valid() && destination.Length <= SIZE_MAX
      modifies destination
      ensures
        var image, rowBytes := Layout(stride, uvOffset), RowBytes(w, bytesPerSample);
        var accepted := Copyable(width, height, bytesPerSample, destination.Length, image, w, h) && begin &&
                        memory.uvOffset + Span(h / 2, memory.stride) <= dataSize;
        && o == (
             if !(0 < w <= width && 0 < h <= height && w % 2 == 0 && h % 2 == 0 && rowBytes <= stride) then
               Fail(Invalid)
             else if uvOffset < Span(h, stride) || uvOffset + Span(h / 2, stride) > SIZE_MAX then Fail(Overflow)
             else if memory.uvOffset + Span(h / 2, memory.stride) > dataSize ||
                     uvOffset + Span(h / 2, stride) > destination.Length then Fail(NoSpace)
             else if begin && end then Pass else Fail(Busy))
        && (accepted ==>
              && Fits(data.Length, memory.Planes(), rowBytes, h / 2)
              && Fits(destination.Length, image, rowBytes, h / 2)
              && destination[..] ==
                 Image(destination.Length, image, memory.Planes(), Seen(old(data[..]), destination == data), rowBytes,
                       h / 2))
        && (!accepted ==> destination[..] == old(destination[..]))
    {
      hide Image, Span, Usable, Product, ProductOverflows, RowBytes;
      :- Check(w != 0 && h != 0 && w % 2 == 0 && h % 2 == 0 && w <= width && h <= height, Invalid);
      var rowBytes := RowBytes(w, bytesPerSample);
      var image := Layout(stride, uvOffset);
      OwnLayout(w, h);
      HoldsFits(destination.Length, image, rowBytes, h);
      HoldsFits(data.Length, memory.Planes(), rowBytes, h);
      :- Check(stride >= rowBytes, Invalid);
      :- Check(
        && !ProductOverflows(stride, h) && uvOffset >= Product(stride, h) && !ProductOverflows(stride, h / 2)
        && uvOffset <= SIZE_MAX - Product(stride, h / 2),
        Overflow);
      var sourceStride, sourceUvOffset := StrideFor(rowBytes), UvOffsetFor(rowBytes);
      :- Check(
        && sourceUvOffset + Product(sourceStride, h / 2) <= dataSize
        && uvOffset + Product(stride, h / 2) <= destination.Length,
        NoSpace);
      :- Check(begin, Busy);
      CopyImage(destination, destination.Length, image, data, Layout(sourceStride, sourceUvOffset), rowBytes, h / 2);
      NoTail(Image(destination.Length, image, memory.Planes(), Seen(old(data[..]), destination == data), rowBytes,
                   h / 2),
             old(destination[..]));
      :- Check(end, Busy);
      return Pass;
    }
  }

  lemma NoTail(a: seq<byte>, b: seq<byte>)
    ensures a + b[|b|..] == a
  {
  }

  // ---------- Layouts of created surfaces ----------

  function AlignUp(v: nat, alignment: nat): (r: nat)
    requires alignment > 0
    ensures v <= r < v + alignment && r % alignment == 0
  {
    AlignedSum(v, alignment);
    if v % alignment == 0 then v else v + (alignment - v % alignment)
  }

  lemma AlignedSum(v: nat, alignment: nat)
    requires alignment > 0
    ensures (v + (alignment - v % alignment)) % alignment == 0
  {
    var q := v / alignment;
    assert v + (alignment - v % alignment) == (q + 1) * alignment;
    MultipleHasNoRest(q + 1, alignment);
  }

  lemma MultipleHasNoRest(q: nat, d: nat)
    requires d > 0
    ensures q * d % d == 0
  {
    var x := q * d;
    var p := x / d;
    assert x == p * d + x % d;
    if p < q {
      ProductMonotonic(p + 1, q, d);
    } else {
      ProductMonotonic(q, p, d);
    }
  }

  const MIN_WIDTH := 48
  const MIN_HEIGHT := 32
  const MAX_WIDTH := 4096
  const MAX_HEIGHT := 4096

  predicate Creatable(width: nat, height: nat, bytesPerSample: nat) {
    Sized(width, height, bytesPerSample) && MIN_WIDTH <= width <= MAX_WIDTH && MIN_HEIGHT <= height <= MAX_HEIGHT
  }

  // The layout arithmetic of allocate_dma_surface, with the scanlines that stand before the chroma rows.
  method LayoutDma(width: nat, height: nat, bytesPerSample: nat) returns (res: Result<(Memory, nat)>)
    requires 1 <= bytesPerSample <= 2
    ensures res.Success? ==>
      var (m, scanlines) := res.value;
      && m.stride == RowBytes(AlignUp(width, 128), bytesPerSample) && scanlines == AlignUp(height, 32)
      && m.uvOffset == Span(scanlines, m.stride)
      && m.capacity == AlignUp(m.uvOffset + Span(AlignUp(height / 2, 16), m.stride) + 65536, 4096)
    ensures
      var stride, scanlines, chroma :=
        RowBytes(AlignUp(width, 128), bytesPerSample), AlignUp(height, 32), AlignUp(height / 2, 16);
      res.Success? <==>
        && stride <= SIZE_MAX && scanlines <= SIZE_MAX && chroma <= SIZE_MAX
        && AlignUp(Span(scanlines, stride) + Span(chroma, stride) + 65536, 4096) <= UINT32_MAX
    ensures Creatable(width, height, bytesPerSample) ==>
      res.Success? && Usable(width, height, bytesPerSample, res.value.0) && height <= res.value.1
  {
    hide AlignUp, RowBytes, Span, Product;
    var aligned, scanlines, chroma := AlignUp(width, 128), AlignUp(height, 32), AlignUp(height / 2, 16);
    var stride := RowBytes(aligned, bytesPerSample);
    SmallLayout(aligned, scanlines, chroma, bytesPerSample);
    RowAtLeast(aligned, bytesPerSample);
    :- Need(aligned <= SIZE_MAX && scanlines <= SIZE_MAX && chroma <= SIZE_MAX && stride <= SIZE_MAX, Overflow);
    var uvOffset := Product(stride, scanlines);
    :- Need(uvOffset <= SIZE_MAX && uvOffset + Product(stride, chroma) <= SIZE_MAX, Overflow);
    var size := uvOffset + Product(stride, chroma);
    :- Need(size <= SIZE_MAX - 65536, Overflow);
    var capacity := AlignUp(size + 65536, 4096);
    :- Need(capacity <= UINT32_MAX, Overflow);
    if Creatable(width, height, bytesPerSample) {
      RowBytesGrow(width, aligned, bytesPerSample);
      SpanMonotonic(height, scanlines, stride);
      SpanMonotonic(height / 2, chroma, stride);
    }
    return Success((Memory(stride, uvOffset, capacity), scanlines));
  }

  // Sizes up to the largest creatable ones stay far from any limit.
  lemma SmallLayout(width: nat, scanlines: nat, chroma: nat, bytesPerSample: nat)
    requires 1 <= bytesPerSample <= 2
    ensures width < 4224 && scanlines < 4128 && chroma < 2064 ==>
      var stride := RowBytes(width, bytesPerSample);
      stride < 8448 && Span(scanlines, stride) < 34873344 && Span(chroma, stride) < 17436672
  {
    if width < 4224 && scanlines < 4128 && chroma < 2064 {
      var stride := RowBytes(width, bytesPerSample);
      assert stride == if bytesPerSample == 1 then width else 2 * width;
      SpanIs(scanlines, stride);
      SpanIs(chroma, stride);
      ProductMonotonic(scanlines, 4127, stride);
      ProductMonotonic(chroma, 2063, stride);
    }
  }

  // The fallback of create_surfaces_locked: exactly the visible samples.
  function LayoutHeap(width: nat, height: nat, bytesPerSample: nat): Memory {
    var stride := RowBytes(width, bytesPerSample);
    Memory(stride, Product(stride, height), Product(width, height) * 3 / 2 * bytesPerSample)
  }

  // It has a byte for every visible sample and none to spare.
  lemma HeapExactly(width: nat, height: nat, bytesPerSample: nat)
    requires Sized(width, height, bytesPerSample)
    ensures
      var m := LayoutHeap(width, height, bytesPerSample);
      && m.stride == width * bytesPerSample && m.uvOffset == height * m.stride
      && m.capacity == m.uvOffset + height / 2 * m.stride
  {
    hide Span;
    var half := height / 2;
    var p := half * width;
    assert height * width == 2 * p by {
      assert height == half + half;
    }
    if bytesPerSample == 1 {
      assert height * width == 2 * p;
    } else {
      assert height * (width * 2) == 4 * p && half * (width * 2) == 2 * p;
    }
  }

  lemma HeapUsable(width: nat, height: nat, bytesPerSample: nat)
    requires Creatable(width, height, bytesPerSample)
    ensures Usable(width, height, bytesPerSample, LayoutHeap(width, height, bytesPerSample))
  {
    hide Span, Product;
    var half, stride := height / 2, RowBytes(width, bytesPerSample);
    assert stride == if bytesPerSample == 1 then width else 2 * width;
    HalfSpan(width, half);
    HalfSpan(stride, half);
    SpanDoubles(width, half);
    SpanIs(half, width);
    ProductMonotonic(half, 2048, width);
    assert height == 2 * half;
  }

  lemma {:induction false} HalfSpan(stride: nat, half: nat)
    ensures Span(2 * half, stride) == 2 * Span(half, stride)
  {
    if half > 0 {
      HalfSpan(stride, half - 1);
      assert Span(2 * half, stride) == Span(2 * half - 1, stride) + stride;
      assert Span(2 * half - 1, stride) == Span(2 * half - 2, stride) + stride;
    }
  }

  lemma {:induction false} SpanDoubles(stride: nat, rows: nat)
    ensures Span(rows, 2 * stride) == 2 * Span(rows, stride)
  {
    if rows > 0 {
      SpanDoubles(stride, rows - 1);
    }
  }

  // ---------- Packing for the encoder ----------

  // The bytes pack_yuv420_layout fills.
  function Packed(stride: nat, scanlines: nat, h: nat): nat {
    Span(scanlines, stride) + Span(AlignUp(h / 2, 16), stride)
  }

  // What it asks: rows that fit both strides, and chroma right behind the source's scanlines.
  predicate Packable(
    n: nat, stride: nat, scanlines: nat, size: nat, source: Layout, sourceScanlines: nat, w: nat, h: nat,
    bytesPerSample: nat)
  {
    && Sized(w, h, bytesPerSample) && RowBytes(w, bytesPerSample) <= UINT32_MAX
    && RowBytes(w, bytesPerSample) <= stride && h <= scanlines
    && RowBytes(w, bytesPerSample) <= source.stride && h <= sourceScanlines
    && source.uvOffset == Span(sourceScanlines, source.stride)
    && source.uvOffset + Span(h / 2, source.stride) <= size
    && Packed(stride, scanlines, h) <= n
  }

  // In plain arithmetic: the chroma rows stand behind the scanlines, and take room for a multiple of 16 rows.
  lemma PackableExactly(
    n: nat, stride: nat, scanlines: nat, size: nat, source: Layout, sourceScanlines: nat, w: nat, h: nat,
    bytesPerSample: nat)
    returns (chroma: nat)
    ensures h / 2 <= chroma < h / 2 + 16 && chroma % 16 == 0
    ensures Packed(stride, scanlines, h) == scanlines * stride + chroma * stride
    ensures
      Packable(n, stride, scanlines, size, source, sourceScanlines, w, h, bytesPerSample) <==>
      && 0 < w && 0 < h && w % 2 == 0 && h % 2 == 0 && (bytesPerSample == 1 || bytesPerSample == 2)
      && w * bytesPerSample <= 0xffff_ffff && w * bytesPerSample <= stride && h <= scanlines
      && w * bytesPerSample <= source.stride && h <= sourceScanlines
      && source.uvOffset == sourceScanlines * source.stride
      && source.uvOffset + h / 2 * source.stride <= size
      && scanlines * stride + chroma * stride <= n
  {
    hide Span;
    chroma := AlignUp(h / 2, 16);
    SpanIs(scanlines, stride);
    SpanIs(chroma, stride);
    SpanIs(sourceScanlines, source.stride);
    SpanIs(h / 2, source.stride);
  }

  lemma PackedFits(
    n: nat, stride: nat, scanlines: nat, size: nat, source: Layout, sourceScanlines: nat, w: nat, h: nat,
    bytesPerSample: nat)
    requires Packable(n, stride, scanlines, size, source, sourceScanlines, w, h, bytesPerSample)
    ensures
      Fits(Packed(stride, scanlines, h), Layout(stride, Span(scanlines, stride)), RowBytes(w, bytesPerSample), h / 2)
    ensures Fits(size, source, RowBytes(w, bytesPerSample), h / 2)
  {
    hide AlignUp, Span, RowBytes;
    SpanMonotonic(h, scanlines, stride);
    SpanMonotonic(h, sourceScanlines, source.stride);
    SpanMonotonic(h / 2, AlignUp(h / 2, 16), stride);
    assert 2 * (h / 2) == h;
  }

  method Pack(
    destination: array<byte>, stride: nat, scanlines: nat, source: array<byte>, from: Layout, sourceScanlines: nat,
    w: nat, h: nat, bytesPerSample: nat)
    returns (res: Result<nat>)
    requires destination != source && destination.Length <= SIZE_MAX && source.Length <= SIZE_MAX
    modifies destination
    ensures res.Success? <==>
      Packable(destination.Length, stride, scanlines, source.Length, from, sourceScanlines, w, h, bytesPerSample)
    ensures res.Success? ==>
      var target := Layout(stride, Span(scanlines, stride));
      && res.value == Packed(stride, scanlines, h)
      && Fits(res.value, target, RowBytes(w, bytesPerSample), h / 2)
      && Fits(source.Length, from, RowBytes(w, bytesPerSample), h / 2)
      && destination[..] ==
         Image(res.value, target, from, source[..], RowBytes(w, bytesPerSample), h / 2) + old(destination[res.value..])
    ensures res.Failure? ==> destination[..] == old(destination[..])
  {
    hide Image, Span, AlignUp, RowBytes, Product, ProductOverflows;
    :- Need(w != 0 && h != 0 && w % 2 == 0 && h % 2 == 0 && (bytesPerSample == 1 || bytesPerSample == 2), Invalid);
    var rowBytes := RowBytes(w, bytesPerSample);
    :- Need(rowBytes <= UINT32_MAX, Overflow);
    :- Need(stride >= rowBytes && scanlines >= h && from.stride >= rowBytes && sourceScanlines >= h, Invalid);
    var chroma := AlignUp(h / 2, 16);
    :- Need(!ProductOverflows(from.stride, sourceScanlines) && !ProductOverflows(stride, scanlines), Overflow);
    :- Need(from.uvOffset == Product(from.stride, sourceScanlines), Invalid);
    :- Need(!ProductOverflows(from.stride, h / 2) && from.uvOffset <= SIZE_MAX - Product(from.stride, h / 2), Overflow);
    :- Need(from.uvOffset + Product(from.stride, h / 2) <= source.Length, Invalid);
    var uvOffset := Product(stride, scanlines);
    :- Need(!ProductOverflows(stride, chroma) && uvOffset <= SIZE_MAX - Product(stride, chroma), Overflow);
    var required := uvOffset + Product(stride, chroma);
    :- Need(required <= destination.Length, NoSpace);
    PackedFits(destination.Length, stride, scanlines, source.Length, from, sourceScanlines, w, h, bytesPerSample);
    CopyImage(destination, required, Layout(stride, uvOffset), source, from, rowBytes, h / 2);
    return Success(required);
  }

  // Packing the stored image of a surface is packing the client's image directly.
  lemma StoredThenPacked(
    width: nat, height: nat, bytesPerSample: nat, m: Memory, src: seq<byte>, from: Layout, n: nat, target: Layout)
    requires Usable(width, height, bytesPerSample, m)
    requires Holds(|src|, from, RowBytes(width, bytesPerSample), height)
    requires Holds(n, target, RowBytes(width, bytesPerSample), height)
    ensures
      var rowBytes, half := RowBytes(width, bytesPerSample), height / 2;
      && Fits(|src|, from, rowBytes, half) && Fits(m.capacity, m.Planes(), rowBytes, half)
      && Fits(n, target, rowBytes, half)
      && Image(n, target, m.Planes(), Image(m.capacity, m.Planes(), from, src, rowBytes, half), rowBytes, half) ==
         Image(n, target, from, src, rowBytes, half)
  {
    hide Image, Span, Holds, Fits, RowBytes;
    HoldsFits(|src|, from, RowBytes(width, bytesPerSample), height);
    HoldsFits(m.capacity, m.Planes(), RowBytes(width, bytesPerSample), height);
    HoldsFits(n, target, RowBytes(width, bytesPerSample), height);
    CopiedThrough(n, target, m.capacity, m.Planes(), from, src, RowBytes(width, bytesPerSample), height / 2);
  }
}
