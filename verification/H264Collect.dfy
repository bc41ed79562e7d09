/** How src/decode.c gathers the pending buffers of an H.264 picture, and the room it reserves. */
module H264Collect {
  import opened Bitstring
  import opened H264AccessUnit
  import opened H264AnnexB
  import opened H264Syntax
  import opened Limits
  import opened Wrappers

  const MAX_BATCHES := 64

  /** A pending buffer; Broken when it is gone, too small or of impossible size. */
  datatype Pending =
    | PictureParameters(p: Picture)
    | Matrices
    | SliceParameters(xs: seq<SliceParameter>)
    | SliceData(bytes: seq<byte>)
    | Unknown
    | Broken
  {
    predicate Usable() {
      !Unknown? && !Broken?
    }

    predicate OfSlices() {
      SliceParameters? || SliceData?
    }
  }

  datatype Collected = Collected(p: Picture, batches: seq<Batch>, capacity: nat)

  // The slice buffers among the pending ones, and the picture parameters.
  function SliceBuffers(pending: seq<Pending>): (r: seq<Pending>)
    ensures forall x :: x in r ==> x.OfSlices()
  {
    if pending == [] then []
    else
      var n := |pending| - 1;
      SliceBuffers(pending[..n]) + if pending[n].OfSlices() then [pending[n]] else []
  }

  function Pictures(pending: seq<Pending>): seq<Picture> {
    if pending == [] then []
    else
      var n := |pending| - 1;
      Pictures(pending[..n]) + if pending[n].PictureParameters? then [pending[n].p] else []
  }

  // The buffers these batches came in: parameters, then data, for each in turn.
  function BuffersOf(batches: seq<Batch>): (r: seq<Pending>)
    ensures |r| == 2 * |batches|
    ensures forall k :: 0 <= k < |r| ==> (r[k].SliceParameters? <==> k % 2 == 0) && (r[k].SliceData? <==> k % 2 == 1)
  {
    if batches == [] then []
    else
      var n := |batches| - 1;
      BuffersOf(batches[..n]) + [SliceParameters(batches[n].parameters), SliceData(batches[n].data)]
  }

  // One picture, and parameters and data in turn.
  ghost predicate Describes(pending: seq<Pending>, x: Collected) {
    && (forall b :: b in pending ==> b.Usable())
    && Pictures(pending) == [x.p]
    && SliceBuffers(pending) == BuffersOf(x.batches)
    && 1 <= |x.batches| <= 64
    && x.capacity == Capacity(x.batches) <= SIZE_MAX
  }

  // What was gathered from the buffers before i; parameters still wait for their data when open is there.
  ghost predicate Gathered(pending: seq<Pending>, i: nat, p: Option<Picture>, open: Option<seq<SliceParameter>>,
                           batches: seq<Batch>)
    requires i <= |pending|
  {
    && (forall k :: 0 <= k < i ==> pending[k].Usable())
    && Pictures(pending[..i]) == (if p.Some? then [p.value] else [])
    && SliceBuffers(pending[..i]) == BuffersOf(batches) + if open.Some? then [SliceParameters(open.value)] else []
  }

  lemma PrefixStep(pending: seq<Pending>, i: nat)
    requires i < |pending|
    ensures SliceBuffers(pending[..i + 1]) ==
            SliceBuffers(pending[..i]) + if pending[i].OfSlices() then [pending[i]] else []
    ensures Pictures(pending[..i + 1]) ==
            Pictures(pending[..i]) + if pending[i].PictureParameters? then [pending[i].p] else []
  {
    assert pending[..i + 1][..i] == pending[..i];
  }

  lemma {:induction false} PrefixOfAll(pending: seq<Pending>, i: nat)
    requires i <= |pending|
    ensures SliceBuffers(pending[..i]) <= SliceBuffers(pending)
    ensures Pictures(pending[..i]) <= Pictures(pending)
    decreases |pending|
  {
    if i < |pending| {
      var init := pending[..|pending| - 1];
      PrefixOfAll(init, i);
      assert init[..i] == pending[..i];
    } else {
      assert pending[..i] == pending;
    }
  }

  // A buffer that does not fit what came before it spoils every description.
  lemma OutOfTurn(
    pending: seq<Pending>, i: nat, p: Option<Picture>, open: Option<seq<SliceParameter>>, batches: seq<Batch>)
    requires i < |pending| && Gathered(pending, i, p, open, batches)
    requires
      || !pending[i].Usable()
      || (pending[i].PictureParameters? && p.Some?)
      || (pending[i].SliceParameters? && open.Some?)
      || (pending[i].SliceData? && open.None?)
    ensures forall x :: !Describes(pending, x)
  {
    hide SliceBuffers, Pictures, BuffersOf, TotalData;
    PrefixStep(pending, i);
    PrefixOfAll(pending, i + 1);
    var buffers, before := SliceBuffers(pending), SliceBuffers(pending[..i]);
    assert pending[i] in pending;
    if pending[i].OfSlices() {
      assert buffers[|before|] == SliceBuffers(pending[..i + 1])[|before|];
    }
    forall x ensures !Describes(pending, x) {
      NotAmong(buffers, |before|, x.batches);
    }
  }

  // Parameters stand at even places, data at odd ones.
  lemma NotAmong(buffers: seq<Pending>, at: nat, batches: seq<Batch>)
    ensures buffers == BuffersOf(batches) && at < |buffers| ==>
      (buffers[at].SliceParameters? <==> at % 2 == 0) && (buffers[at].SliceData? <==> at % 2 == 1)
  {
    hide BuffersOf;
  }

  lemma BatchStep(batches: seq<Batch>, b: Batch)
    ensures BuffersOf(batches + [b]) == BuffersOf(batches) + [SliceParameters(b.parameters), SliceData(b.data)]
  {
    assert (batches + [b])[..|batches|] == batches;
  }

  lemma {:induction false} CapacityStep(batches: seq<Batch>, b: Batch)
    ensures TotalData(batches + [b]) == TotalData(batches) + |b.data|
  {
    if batches == [] {
      assert [b][1..] == [];
    } else {
      assert (batches + [b])[1..] == batches[1..] + [b];
      CapacityStep(batches[1..], b);
    }
  }

  // Equal buffers mean equal batches.
  lemma {:induction false} BuffersTell(a: seq<Batch>, b: seq<Batch>)
    requires BuffersOf(a) == BuffersOf(b)
    ensures a == b
  {
    if a != [] {
      var n := |a| - 1;
      assert |b| == |a|;
      ConcatInjective(BuffersOf(a[..n]), [SliceParameters(a[n].parameters), SliceData(a[n].data)],
                      BuffersOf(b[..n]), [SliceParameters(b[n].parameters), SliceData(b[n].data)]);
      BuffersTell(a[..n], b[..n]);
      assert a == a[..n] + [a[n]] && b == b[..n] + [b[n]];
    }
  }

  lemma {:induction false} BuffersOfPrefix(batches: seq<Batch>, n: nat)
    requires n <= |batches|
    ensures BuffersOf(batches[..n]) == BuffersOf(batches)[..2 * n]
    decreases |batches|
  {
    var m := |batches| - 1;
    if n < |batches| {
      BuffersOfPrefix(batches[..m], n);
      assert batches[..m][..n] == batches[..n];
    } else {
      assert batches[..n] == batches;
    }
  }

  lemma {:induction false} TotalOfPrefix(batches: seq<Batch>, n: nat)
    requires n <= |batches|
    ensures TotalData(batches[..n]) <= TotalData(batches)
  {
    if n > 0 {
      TotalOfPrefix(batches[1..], n - 1);
      assert batches[..n][1..] == batches[1..][..n - 1];
    }
  }

  // Buffers that begin with those of some batches hold these batches first.
  lemma PrefixTells(batches: seq<Batch>, more: seq<Batch>)
    requires BuffersOf(batches) <= BuffersOf(more)
    ensures |batches| <= |more| && TotalData(batches) <= TotalData(more)
  {
    hide BuffersOf, TotalData;
    var n := |batches|;
    assert n <= |more|;
    BuffersOfPrefix(more, n);
    BuffersTell(batches, more[..n]);
    TotalOfPrefix(more, n);
  }

  lemma TooMuch(pending: seq<Pending>, i: nat, batches: seq<Batch>)
    requires i < |pending| && SliceBuffers(pending[..i + 1]) == BuffersOf(batches)
    requires |batches| > 64 || Capacity(batches) > SIZE_MAX
    ensures forall x :: !Describes(pending, x)
  {
    hide SliceBuffers, Pictures, BuffersOf, TotalData;
    PrefixOfAll(pending, i + 1);
    forall x ensures !Describes(pending, x) {
      if SliceBuffers(pending) == BuffersOf(x.batches) {
        PrefixTells(batches, x.batches);
      }
    }
  }

  lemma Unfinished(
    pending: seq<Pending>, p: Option<Picture>, open: Option<seq<SliceParameter>>, batches: seq<Batch>)
    requires Gathered(pending, |pending|, p, open, batches)
    requires p.None? || batches == [] || open.Some?
    ensures forall x :: !Describes(pending, x)
  {
    hide SliceBuffers, Pictures, BuffersOf, TotalData;
    assert pending[..|pending|] == pending;
    forall x ensures !Describes(pending, x) {
      assert |BuffersOf(x.batches)| == 2 * |x.batches|;
    }
  }

  lemma NothingGathered(pending: seq<Pending>)
    ensures Gathered(pending, 0, None, None, []) && Capacity([]) == OVERHEAD <= SIZE_MAX
  {
  }

  lemma Pair(a: seq<Pending>, x: Pending, y: Pending)
    ensures a + [x] + [y] == a + [x, y]
  {
  }

  // collect_h264_buffers: succeeds exactly when some result describes the buffers, and that is the result.
  method Collect(pending: seq<Pending>) returns (res: Result<Collected>)
    ensures res.Success? ==> Describes(pending, res.value)
    ensures res.Failure? ==> res.error != NoSpace && forall x :: !Describes(pending, x)
  {
    hide SliceBuffers, Pictures, BuffersOf, TotalData;
    var p: Option<Picture>, open: Option<seq<SliceParameter>>, batches, capacity := None, None, [], OVERHEAD;
    NothingGathered(pending);
    var i := 0;
    while i < |pending|
      invariant 0 <= i <= |pending| && |batches| <= MAX_BATCHES
      invariant Gathered(pending, i, p, open, batches) && capacity == Capacity(batches) <= SIZE_MAX
    {
      PrefixStep(pending, i);
      var b := pending[i];
      if b.Broken? || b.Unknown? || (b.PictureParameters? && p.Some?) || (b.SliceParameters? && open.Some?)
         || (b.SliceData? && open.None?) {
        OutOfTurn(pending, i, p, open, batches);
        return Failure(if b.Unknown? then Unsupported else Invalid);
      }
      match b {
        case PictureParameters(q) => p := Some(q);
        case SliceParameters(xs) => open := Some(xs);
        case SliceData(bytes) =>
          var batch := Batch(open.value, bytes);
          BatchStep(batches, batch);
          CapacityStep(batches, batch);
          Pair(BuffersOf(batches), SliceParameters(open.value), b);
          if |batches| >= MAX_BATCHES || |bytes| > SIZE_MAX - capacity {
            TooMuch(pending, i, batches + [batch]);
            return Failure(if |batches| >= MAX_BATCHES then Invalid else Overflow);
          }
          batches, open, capacity := batches + [batch], None, capacity + |bytes|;
        case _ =>
      }
      i := i + 1;
    }
    assert pending[..i] == pending;
    if p.None? || batches == [] || open.Some? {
      Unfinished(pending, p, open, batches);
      return Failure(Invalid);
    }
    return Success(Collected(p.value, batches, capacity));
  }

  lemma DescribedOnce(pending: seq<Pending>, x: Collected, y: Collected)
    requires Describes(pending, x) && Describes(pending, y)
    ensures x == y
  {
    hide SliceBuffers, Pictures, BuffersOf, TotalData;
    BuffersTell(x.batches, y.batches);
  }

  // No two slices of a batch overlap, and there are few enough.
  predicate Modest(x: Collected) {
    (forall b :: b in x.batches ==> DisjointSlices(b)) && |TakenAll(x.batches)| <= 1009
  }

  // The H.264 part of backend_end_picture up to the submission: gather, reserve, build.
  method BuildPicture(profile: Profile, pending: seq<Pending>) returns (res: Result<seq<byte>>)
    requires forall b :: b in pending && b.PictureParameters? ==> b.p.WellFormed()
    ensures res.Success? <==>
      exists x :: Describes(pending, x) && x.p.Supported() && Complete(x.batches) && x.batches[0].parameters != [] &&
                  |AccessUnit(profile, x.p, x.batches)| <= x.capacity
    ensures res.Success? ==>
      exists x :: Describes(pending, x) && x.batches[0].parameters != [] &&
                  res.value == AccessUnit(profile, x.p, x.batches)
    ensures (exists x :: Describes(pending, x) && Modest(x)) ==> res != Failure(NoSpace)
  {
    hide Describes, AccessUnit, TakenAll, Picture.Supported, Complete, Modest, TotalData;
    var x :- Collect(pending);
    DescribedPicture(pending, x);
    forall y | Describes(pending, y) ensures y == x {
      DescribedOnce(pending, x, y);
    }
    if Modest(x) {
      ModestFits(profile, pending, x);
    }
    var output := new byte[x.capacity];
    var n := BuildAccessUnit(profile, x.p, x.batches, output);
    if n.Failure? {
      return Failure(n.error);
    }
    return Success(output[..n.value]);
  }

  lemma DescribedPicture(pending: seq<Pending>, x: Collected)
    requires Describes(pending, x)
    requires forall b :: b in pending && b.PictureParameters? ==> b.p.WellFormed()
    ensures x.p.WellFormed() && x.capacity > 0 && x.batches != []
  {
    hide SliceBuffers, BuffersOf, TotalData, Picture.WellFormed;
    PicturesAreWellFormed(pending);
    assert x.p in Pictures(pending);
  }

  lemma {:induction false} PicturesAreWellFormed(pending: seq<Pending>)
    requires forall b :: b in pending && b.PictureParameters? ==> b.p.WellFormed()
    ensures forall p :: p in Pictures(pending) ==> p.WellFormed()
  {
    hide Picture.WellFormed;
    if pending != [] {
      PicturesAreWellFormed(pending[..|pending| - 1]);
    }
  }

  lemma ModestFits(profile: Profile, pending: seq<Pending>, x: Collected)
    requires Describes(pending, x) && Modest(x) && x.p.WellFormed()
    ensures Built(profile, x.p, x.batches, x.capacity) != Failure(NoSpace)
  {
    hide Built, TakenAll, DisjointSlices, Picture.WellFormed, SliceBuffers, BuffersOf, Pictures, TotalData;
    NeverOutOfRoom(profile, x.p, x.batches);
  }
}
