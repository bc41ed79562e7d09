/** What a run of object calls leaves, told by the calls and their answers alone. */
module ObjectRuns {
  import opened ObjectCalls
  import opened ObjectStore
  import opened Wrappers

  /** A call and what it returned. */
  datatype Step = Step(call: Call, answer: Answer)

  function Play(calls: seq<Call>): Store {
    if calls == [] then EMPTY else Perform(Play(calls[..|calls| - 1]), calls[|calls| - 1]).0
  }

  // What the client saw of the run.
  function History(calls: seq<Call>): (h: seq<Step>)
    ensures |h| == |calls|
  {
    if calls == [] then []
    else
      var init, call := calls[..|calls| - 1], calls[|calls| - 1];
      History(init) + [Step(call, Perform(Play(init), call).1)]
  }

  // After every run of calls from the empty driver no reference dangles, no two images share a buffer, and CPU
  // access to each surface is open once for each of its mapped images.
  lemma {:induction false} ReferencesNeverDangle(calls: seq<Call>)
    ensures Inv(Play(calls))
  {
    hide Inv, Perform;
    if calls == [] {
      EmptyOk();
    } else {
      ReferencesNeverDangle(calls[..|calls| - 1]);
      PerformKeeps(Play(calls[..|calls| - 1]), calls[|calls| - 1]);
    }
  }

  // ---------- Lives of objects ----------

  // The call returned this id.
  predicate Makes(x: Step, id: nat) {
    match x.answer
    case Made(made) => id == made
    case MadeSurfaces(ids) => id in ids
    case MadeImage(image, buffer) => id == image || id == buffer
    case _ => false
  }

  // The call ends what the call of made returned as this id: it destroys the object itself, the context that the buffer
  // was made for, or the image that came with the buffer.
  predicate Ends(x: Step, made: Step, id: nat) {
    x.answer == Done &&
    match x.call
    case VaDestroyConfig(g) => g == id
    case VaDestroyContext(c) => c == id || made.call == VaCreateBuffer(c)
    case VaDestroySurfaces(fs) => id in fs
    case VaDestroyBuffer(b) => b == id
    case VaDestroyImage(i) => i == id || (made.answer.MadeImage? && made.answer.image == i)
    case _ => false
  }

  // Call k returned this id, and no later call ended it.
  predicate Lives(h: seq<Step>, k: nat, id: nat)
    ensures Lives(h, k, id) ==> k < |h| && Makes(h[k], id)
  {
    k < |h| && Makes(h[k], id) && forall j :: k < j < |h| ==> !Ends(h[j], h[k], id)
  }

  // The object is what the call made, with the links it was given.
  predicate Original(x: Step, id: nat, y: Thing) {
    match x.call
    case VaCreateConfig(config) => y == AConfig(config.profile, config.entrypoint)
    case VaCreateContext(g, _, _) => y == AContext(g)
    case VaCreateSurfaces(_, _) => y.ASurface?
    case VaCreateBuffer(c) => y.ABuffer? && y.context == Some(c)
    case VaCreateImage => OriginalImage(x, id, y, None)
    case VaDeriveImage(f, _) => OriginalImage(x, id, y, Some(f))
    case _ => false
  }

  predicate OriginalImage(x: Step, id: nat, y: Thing, surface: Option<nat>) {
    x.answer.MadeImage? &&
    if id == x.answer.image then y == AnImage(x.answer.buffer, surface)
    else y.ABuffer? && y.context == None
  }

  // Every id names an object exactly when it lives.
  ghost predicate Traced(s: Store, h: seq<Step>) {
    && (forall id: nat :: Look(s, id).Some? ==> exists k: nat :: Lives(h, k, id))
    && (forall k: nat, id: nat :: Lives(h, k, id) ==>
          Look(s, id).Some? && Original(h[k], id, Look(s, id).value) && WithImage(s, h[k], id))
  }

  // A buffer that came with an image is that image's.
  predicate WithImage(s: Store, x: Step, id: nat) {
    x.answer.MadeImage? && id == x.answer.buffer ==> Pictured(s, x.answer.image, id)
  }

  // ---------- One more call ----------

  // The buffer of an image belongs to no context, and to no other image.
  lemma PicturedOnce(s: Store, i: nat, b: nat)
    requires Inv(s) && Pictured(s, i, b)
    ensures BufferThere(s, b) && Look(s, b).value.context == None
    ensures forall j: nat :: Pictured(s, j, b) ==> j == i
  {
    hide BracketsCount;
    forall j: nat | Pictured(s, j, b) ensures j == i {
      assert s.images[i - IMAGES - 1].buffer == s.images[j - IMAGES - 1].buffer;
    }
  }

  lemma {:induction false} FreeAreThere(s: Store, fs: seq<nat>)
    requires HeldSurfaces(s, fs).None?
    ensures forall f :: f in fs ==> SurfaceThere(s, f)
  {
    hide Look;
    if fs != [] {
      FreeAreThere(s, fs[..|fs| - 1]);
    }
  }

  // What lives and is not ended goes on as what it was made.
  lemma LifeGoesOn(s: Store, call: Call, made: Step, id: nat)
    requires Inv(s) && Makes(made, id) && Look(s, id).Some?
    requires Original(made, id, Look(s, id).value) && WithImage(s, made, id)
    requires !Ends(Step(call, Perform(s, call).1), made, id)
    ensures
      var t := Perform(s, call).0;
      Look(t, id).Some? && Original(made, id, Look(t, id).value) && WithImage(t, made, id)
  {
    hide Inv, Look, Perform, Room, FreeSurfaces, HeldSurfaces, NoRoomForImage;
    CallDoes(s, call);
    var (t, a) := Perform(s, call);
    assert Look(t, id) == After(s, call, a, id);
    if made.answer.MadeImage? {
      assert Look(t, made.answer.image) == After(s, call, a, made.answer.image);
    }
    if call.VaDestroySurfaces? && a == Done {
      FreeAreThere(s, call.surfaces);
    }
    if call.VaDestroyImage? && a == Done {
      PicturedOnce(s, call.image, Look(s, call.image).value.buffer);
    }
  }

  // What is ended names nothing.
  lemma LifeEnds(s: Store, call: Call, made: Step, id: nat)
    requires Inv(s) && Makes(made, id) && Look(s, id).Some?
    requires Original(made, id, Look(s, id).value) && WithImage(s, made, id)
    requires Ends(Step(call, Perform(s, call).1), made, id)
    ensures Look(Perform(s, call).0, id).None?
  {
    hide Inv, Look, Perform, Room, FreeSurfaces, HeldSurfaces, NoRoomForImage, Verdict;
    CallDoes(s, call);
    var (t, a) := Perform(s, call);
    assert Look(t, id) == After(s, call, a, id);
  }

  // What is made is there as it should.
  lemma LifeBegins(s: Store, call: Call, id: nat)
    requires Inv(s) && Makes(Step(call, Perform(s, call).1), id)
    ensures
      var (t, a) := Perform(s, call);
      && Look(s, id).None? && Look(t, id).Some? && Original(Step(call, a), id, Look(t, id).value)
      && WithImage(t, Step(call, a), id)
  {
    hide Inv, Look, Perform, Verdict;
    CallDoes(s, call);
    var (t, a) := Perform(s, call);
    assert Look(t, id) == After(s, call, a, id);
    if a.MadeImage? {
      assert Look(t, a.image) == After(s, call, a, a.image);
    }
  }

  // Nothing comes to be unless it is made.
  lemma NothingElse(s: Store, call: Call, id: nat)
    requires Inv(s) && Look(s, id).None? && Look(Perform(s, call).0, id).Some?
    ensures Makes(Step(call, Perform(s, call).1), id)
  {
    hide Inv, Look, Perform, Verdict;
    CallDoes(s, call);
    var (t, a) := Perform(s, call);
    assert Look(t, id) == After(s, call, a, id);
  }

  // ---------- Runs ----------

  lemma LivesOn(h: seq<Step>, x: Step, k: nat, id: nat)
    ensures Lives(h + [x], k, id) <==>
            if k < |h| then Lives(h, k, id) && !Ends(x, h[k], id) else k == |h| && Makes(x, id)
  {
    hide Makes, Ends;
    if k < |h| && Lives(h + [x], k, id) {
      forall j | k < j < |h| ensures !Ends(h[j], h[k], id) {
        assert (h + [x])[j] == h[j];
      }
      assert (h + [x])[|h|] == x;
    }
  }

  lemma TracedOn(s: Store, h: seq<Step>, call: Call)
    requires Inv(s) && Traced(s, h)
    ensures Traced(Perform(s, call).0, h + [Step(call, Perform(s, call).1)])
  {
    hide Inv, Look, Perform, Lives, Makes, Ends, Original, WithImage;
    var (t, a) := Perform(s, call);
    var x := Step(call, a);
    forall id: nat | Look(t, id).Some? ensures exists k: nat :: Lives(h + [x], k, id) {
      if Look(s, id).Some? && !Makes(x, id) {
        var k: nat :| Lives(h, k, id);
        if Ends(x, h[k], id) {
          LifeEnds(s, call, h[k], id);
        }
        LivesOn(h, x, k, id);
      } else {
        if Look(s, id).None? {
          NothingElse(s, call, id);
        }
        LivesOn(h, x, |h|, id);
      }
    }
    forall k: nat, id: nat | Lives(h + [x], k, id)
      ensures Look(t, id).Some? && Original((h + [x])[k], id, Look(t, id).value) && WithImage(t, (h + [x])[k], id)
    {
      LivesOn(h, x, k, id);
      if k < |h| {
        LifeGoesOn(s, call, h[k], id);
      } else {
        LifeBegins(s, call, id);
      }
    }
  }

  lemma {:induction false} RunTraced(calls: seq<Call>)
    ensures Inv(Play(calls)) && Traced(Play(calls), History(calls))
  {
    hide Inv, Perform, Traced;
    ReferencesNeverDangle(calls);
    if calls == [] {
      NothingTraced();
    } else {
      var init, call := calls[..|calls| - 1], calls[|calls| - 1];
      RunTraced(init);
      TracedOn(Play(init), History(init), call);
    }
  }

  lemma NothingTraced()
    ensures Traced(EMPTY, [])
  {
  }

  // After any run an id names an object exactly when a call returned it that no later call ended; and the object is of
  // the kind and has the links that this call gave it.
  lemma FoundExactly(calls: seq<Call>, id: nat)
    ensures
      var s, h := Play(calls), History(calls);
      && (Look(s, id).Some? <==> exists k: nat :: Lives(h, k, id))
      && forall k: nat :: Lives(h, k, id) ==> Original(h[k], id, Look(s, id).value)
  {
    hide Inv, Look, Lives, Original, WithImage;
    RunTraced(calls);
  }

  // ---------- Maps and attachments ----------

  // How often this buffer was mapped, and unmapped, behind call k.
  function Maps(h: seq<Step>, k: nat, b: nat): nat {
    if |h| <= k + 1 then 0
    else
      var x := h[|h| - 1];
      Maps(h[..|h| - 1], k, b) + if x.call.VaMapBuffer? && x.call.buffer == b && x.answer == Done then 1 else 0
  }

  function Unmaps(h: seq<Step>, k: nat, b: nat): nat {
    if |h| <= k + 1 then 0
    else
      var x := h[|h| - 1];
      Unmaps(h[..|h| - 1], k, b) + if x.call == VaUnmapBuffer(b) && x.answer == Done then 1 else 0
  }

  ghost predicate Counted(s: Store, h: seq<Step>) {
    forall k: nat, b: nat :: Lives(h, k, b) && BufferThere(s, b) ==>
      Look(s, b).value.mapCount == Maps(h, k, b) - Unmaps(h, k, b)
  }

  // The context that a call attaches the surface to.
  function Attaches(x: Step, f: nat): Option<nat> {
    match x.call
    case VaBeginPicture(c, surface) => if surface == f && x.answer == Done then Some(c) else None
    case VaCreateContext(_, targets, _) => if f in targets && x.answer.Made? then Some(x.answer.id) else None
    case _ => None
  }

  // The context that the surface was attached to last, unless that was destroyed since or the surface is newer.
  function LastAttached(h: seq<Step>, f: nat): Option<nat> {
    if h == [] then None
    else
      var x, before := h[|h| - 1], LastAttached(h[..|h| - 1], f);
      if Makes(x, f) then None
      else if Attaches(x, f).Some? then Attaches(x, f)
      else if before.Some? && x == Step(VaDestroyContext(before.value), Done) then None
      else before
  }

  ghost predicate AttachedLast(s: Store, h: seq<Step>) {
    forall f: nat :: SurfaceThere(s, f) ==> Look(s, f).value.context == LastAttached(h, f)
  }

  lemma CountedOn(s: Store, h: seq<Step>, call: Call)
    requires Inv(s) && Traced(s, h) && Counted(s, h)
    ensures Counted(Perform(s, call).0, h + [Step(call, Perform(s, call).1)])
  {
    hide Inv, Look, Perform, Lives, Ends, Original, WithImage, Room, FreeSurfaces, HeldSurfaces, NoRoomForImage;
    CallDoes(s, call);
    var (t, a) := Perform(s, call);
    var x := Step(call, a);
    assert (h + [x])[..|h|] == h;
    forall k: nat, b: nat | Lives(h + [x], k, b) && BufferThere(t, b)
      ensures Look(t, b).value.mapCount == Maps(h + [x], k, b) - Unmaps(h + [x], k, b)
    {
      LivesOn(h, x, k, b);
      assert Look(t, b) == After(s, call, a, b);
      if k < |h| {
        assert Look(s, b).Some?;
      }
    }
  }

  lemma AttachedOn(s: Store, h: seq<Step>, call: Call)
    requires Inv(s) && AttachedLast(s, h)
    ensures AttachedLast(Perform(s, call).0, h + [Step(call, Perform(s, call).1)])
  {
    hide Inv, Look, Perform, Room, FreeSurfaces, HeldSurfaces, NoRoomForImage;
    CallDoes(s, call);
    var (t, a) := Perform(s, call);
    var x := Step(call, a);
    assert (h + [x])[..|h|] == h;
    forall f: nat | SurfaceThere(t, f) ensures Look(t, f).value.context == LastAttached(h + [x], f) {
      assert Look(t, f) == After(s, call, a, f);
    }
  }

  lemma {:induction false} RunCounted(calls: seq<Call>)
    ensures Counted(Play(calls), History(calls)) && AttachedLast(Play(calls), History(calls))
  {
    hide Inv, Perform, Traced, Counted, AttachedLast;
    if calls == [] {
      NothingCounted();
    } else {
      var init, call := calls[..|calls| - 1], calls[|calls| - 1];
      RunCounted(init);
      RunTraced(init);
      CountedOn(Play(init), History(init), call);
      AttachedOn(Play(init), History(init), call);
    }
  }

  lemma NothingCounted()
    ensures Counted(EMPTY, []) && AttachedLast(EMPTY, [])
  {
  }

  // A buffer's map count is the maps of it less the unmaps, since it was made.
  lemma MapsLessUnmaps(calls: seq<Call>, k: nat, b: nat)
    requires Lives(History(calls), k, b) && BufferThere(Play(calls), b)
    ensures
      var s, h := Play(calls), History(calls);
      Look(s, b).value.mapCount == Maps(h, k, b) - Unmaps(h, k, b)
  {
    hide Look, Lives, Maps, Unmaps, LastAttached;
    RunCounted(calls);
  }

  // A surface's context is the last one that a call attached it to.
  lemma ContextIsLast(calls: seq<Call>, f: nat)
    requires SurfaceThere(Play(calls), f)
    ensures Look(Play(calls), f).value.context == LastAttached(History(calls), f)
  {
    hide Look, LastAttached, Lives, Maps, Unmaps;
    RunCounted(calls);
  }
}
