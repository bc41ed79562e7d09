/** The driver's entry points over the slot tables, refining the object calls. */
module Driver {
  import opened Limits
  import opened ObjectCalls
  import opened ObjectStore
  import opened Wrappers

  lemma NothingToAdd(surfaces: map<nat, Surface>, from: nat, n: nat)
    ensures AddSurfaces(surfaces, from, 0) == Some((surfaces, []))
    ensures n > 0 ==> AddSurfaces(surfaces, MAX_SURFACES, n).None?
  {
  }

  // Surfaces and slots, behind a surface that was added in this slot.
  function Behind(slot: nat, r: Option<(map<nat, Surface>, seq<nat>)>): Option<(map<nat, Surface>, seq<nat>)> {
    if r.None? then None else Some((r.value.0, [slot] + r.value.1))
  }

  lemma NextSlot(surfaces: map<nat, Surface>, from: nat, n: nat)
    requires from < MAX_SURFACES && n > 0
    ensures AddSurfaces(surfaces, from, n) ==
      if from in surfaces then AddSurfaces(surfaces, from + 1, n)
      else Behind(from, AddSurfaces(surfaces[from := NEW_SURFACE], from + 1, n - 1))
  {
  }

  // Behind several of them.
  function BehindAll(slots: seq<nat>, r: Option<(map<nat, Surface>, seq<nat>)>)
    : Option<(map<nat, Surface>, seq<nat>)>
  {
    if r.None? then None else Some((r.value.0, slots + r.value.1))
  }

  lemma NothingCreated(r: Option<(map<nat, Surface>, seq<nat>)>)
    ensures BehindAll([], r) == r
  {
    if r.Some? {
      assert [] + r.value.1 == r.value.1;
    }
  }

  lemma BehindStep(slots: seq<nat>, slot: nat, r: Option<(map<nat, Surface>, seq<nat>)>)
    ensures BehindAll(slots, Behind(slot, r)) == BehindAll(slots + [slot], r)
  {
    if r.Some? {
      assert slots + ([slot] + r.value.1) == slots + [slot] + r.value.1;
    }
  }

  lemma NothingBehind(slots: seq<nat>, surfaces: map<nat, Surface>)
    ensures BehindAll(slots, Some((surfaces, []))) == Some((surfaces, slots))
  {
    assert slots + [] == slots;
  }

  // What the client sees of a call's result.
  function AnswerId(r: Result<nat>): Answer {
    if r.Success? then Made(r.value) else Denied(r.error)
  }

  function AnswerIds(r: Result<seq<nat>>): Answer {
    if r.Success? then MadeSurfaces(r.value) else Denied(r.error)
  }

  function AnswerIdPair(r: Result<(nat, nat)>): Answer {
    if r.Success? then MadeImage(r.value.0, r.value.1) else Denied(r.error)
  }

  class Driver {
    var configs: map<nat, Config>
    var contexts: map<nat, Context>
    var surfaces: map<nat, Surface>
    var buffers: map<nat, Buffer>
    var images: map<nat, Image>

    function Value(): Store
      reads this
    {
      Store(configs, contexts, surfaces, buffers, images)
    }

    constructor ()
      ensures Value() == EMPTY && Inv(Value())
    {
      configs, contexts, surfaces, buffers, images := map[], map[], map[], map[], map[];
      new;
      EmptyOk();
    }

    // The first free slot of a table, or its size.
    static method FreeSlot<T>(table: map<nat, T>, max: nat) returns (slot: nat)
      ensures Lowest(table.Keys, 0, max) == if slot < max then Some(slot) else None
    {
      slot := 0;
      while slot < max && slot in table
        invariant 0 <= slot <= max && Lowest(table.Keys, 0, max) == Lowest(table.Keys, slot, max)
      {
        slot := slot + 1;
      }
    }

    method CreateConfig(x: Config) returns (res: Result<nat>)
      modifies this`configs
      ensures (Value(), AnswerId(res)) == Perform(old(Value()), VaCreateConfig(x))
    {
      var slot := FreeSlot(configs, MAX_CONFIGS);
      :- Need(slot < MAX_CONFIGS, NoSpace);
      configs := configs[slot := x];
      return Success(Id(ConfigKind, slot));
    }

    method DestroyConfig(id: nat) returns (o: Outcome)
      requires Inv(Value())
      modifies this`configs
      ensures (Value(), AnswerDone(o)) == Perform(old(Value()), VaDestroyConfig(id))
    {
      hide Linked, BuffersUnshared, BracketsCount;
      var g := Find(configs.Keys, ConfigKind, id);
      :- Check(g.Some?, NotFound);
      var c := 0;
      while c < MAX_CONTEXTS
        invariant 0 <= c <= MAX_CONTEXTS && Value() == old(Value())
        invariant forall k :: 0 <= k < c && k in contexts ==> contexts[k].config != g.value
      {
        :- Check(!(c in contexts && contexts[c].config == g.value), Busy);
        c := c + 1;
      }
      configs := configs - {g.value};
      return Pass;
    }

    // The slots of the surfaces, or None when one is not there.
    method FindSurfaces(ids: seq<nat>) returns (r: Option<seq<nat>>)
      ensures r == FindAll(surfaces.Keys, SurfaceKind, ids)
    {
      var slots, i := [], 0;
      while i < |ids|
        invariant 0 <= i <= |ids| && FindAll(surfaces.Keys, SurfaceKind, ids[..i]) == Some(slots)
      {
        var slot := Find(surfaces.Keys, SurfaceKind, ids[i]);
        if slot.None? {
          FindAllFails(surfaces.Keys, SurfaceKind, ids, i);
          return None;
        }
        assert ids[..i + 1][..i] == ids[..i];
        slots := slots + [slot.value];
        i := i + 1;
      }
      assert ids[..i] == ids;
      return Some(slots);
    }

    method CreateContext(configId: nat, targets: seq<nat>, opens: bool) returns (res: Result<nat>)
      modifies this`contexts, this`surfaces
      ensures (Value(), AnswerId(res)) == Perform(old(Value()), VaCreateContext(configId, targets, opens))
    {
      var g := Find(configs.Keys, ConfigKind, configId);
      :- Need(g.Some?, NotFound);
      var fs := FindSurfaces(targets);
      :- Need(fs.Some?, NotFound);
      var slot := FreeSlot(contexts, MAX_CONTEXTS);
      :- Need(slot < MAX_CONTEXTS, NoSpace);
      :- Need(opens, Unsupported);
      contexts := contexts[slot := Context(g.value)];
      var i := 0;
      while i < |fs.value|
        invariant 0 <= i <= |fs.value|
        invariant surfaces == Attach(old(surfaces), slot, fs.value[..i])
        invariant contexts == old(contexts)[slot := Context(g.value)]
        invariant configs == old(configs) && buffers == old(buffers) && images == old(images)
      {
        assert fs.value[..i + 1][..i] == fs.value[..i];
        var f := fs.value[i];
        surfaces := surfaces[f := surfaces[f].(context := Some(slot))];
        i := i + 1;
      }
      assert fs.value[..i] == fs.value;
      return Success(Id(ContextKind, slot));
    }

    // destroy_context_buffers
    method DestroyContextBuffers(c: nat)
      requires Slots(buffers, MAX_BUFFERS)
      modifies this`buffers
      ensures buffers == WithoutContext(old(buffers), c)
    {
      var b := 0;
      while b < MAX_BUFFERS
        invariant 0 <= b <= MAX_BUFFERS
        invariant forall k :: k in buffers <==> k in old(buffers) && !(k < b && old(buffers)[k].context == Some(c))
        invariant forall k :: k in buffers ==> buffers[k] == old(buffers)[k]
      {
        if b in buffers && buffers[b].context == Some(c) {
          buffers := buffers - {b};
        }
        b := b + 1;
      }
    }

    method DetachSurfaces(c: nat)
      requires Slots(surfaces, MAX_SURFACES)
      modifies this`surfaces
      ensures surfaces == DetachAll(old(surfaces), c)
    {
      var f := 0;
      while f < MAX_SURFACES
        invariant 0 <= f <= MAX_SURFACES && surfaces.Keys == old(surfaces).Keys
        invariant forall k :: k in surfaces ==> surfaces[k] == if k < f then Detached(old(surfaces)[k], c)
          else old(surfaces)[k]
      {
        if f in surfaces && surfaces[f].context == Some(c) {
          surfaces := surfaces[f := surfaces[f].(context := None, pending := false)];
        }
        f := f + 1;
      }
    }

    method DestroyContext(id: nat) returns (o: Outcome)
      requires Inv(Value())
      modifies this
      ensures (Value(), AnswerDone(o)) == Perform(old(Value()), VaDestroyContext(id))
    {
      hide Linked, BuffersUnshared, BracketsCount, WithoutContext, DetachAll;
      var c := Find(contexts.Keys, ContextKind, id);
      :- Check(c.Some?, NotFound);
      DestroyContextBuffers(c.value);
      DetachSurfaces(c.value);
      contexts := contexts - {c.value};
      return Pass;
    }

    method BeginPicture(contextId: nat, surfaceId: nat) returns (o: Outcome)
      modifies this`surfaces
      ensures (Value(), AnswerDone(o)) == Perform(old(Value()), VaBeginPicture(contextId, surfaceId))
    {
      var c, f := Find(contexts.Keys, ContextKind, contextId), Find(surfaces.Keys, SurfaceKind, surfaceId);
      :- Check(c.Some? && f.Some? && contexts[c.value].config in configs, NotFound);
      surfaces := surfaces[f.value := surfaces[f.value].(context := Some(c.value))];
      return Pass;
    }

    method CountFree() returns (free: nat)
      ensures free == FreeCount(surfaces.Keys, 0)
    {
      free := 0;
      var slot := 0;
      while slot < MAX_SURFACES
        invariant 0 <= slot <= MAX_SURFACES && free + FreeCount(surfaces.Keys, slot) == FreeCount(surfaces.Keys, 0)
      {
        if slot !in surfaces {
          free := free + 1;
        }
        slot := slot + 1;
      }
    }

    // Surfaces are released again when memory runs out before the last one.
    method CreateSurfaces(n: nat, available: nat) returns (res: Result<seq<nat>>)
      modifies this`surfaces
      ensures (Value(), AnswerIds(res)) == Perform(old(Value()), VaCreateSurfaces(n, available))
    {
      hide AddSurfaces, FreeCount;
      :- Need(n != 0 && n <= MAX_SURFACES, Invalid);
      var free := CountFree();
      EnoughFree(surfaces, 0, n);
      :- Need(n <= free, NoSpace);
      ghost var goal := AddSurfaces(surfaces, 0, n);
      var slot: nat, created: seq<nat>, ids: seq<nat>, count: nat := 0, [], [], 0;
      NothingCreated(goal);
      while slot < MAX_SURFACES && count < n
        invariant 0 <= slot <= MAX_SURFACES && 0 <= count <= n && count <= available
        invariant BehindAll(created, AddSurfaces(surfaces, slot, n - count)) == goal
        invariant (forall k :: k in created ==> k < slot && k !in old(surfaces)) && |created| == count
        invariant surfaces.Keys == old(surfaces).Keys + set k | k in created
        invariant forall f :: f in old(surfaces) ==> surfaces[f] == old(surfaces)[f]
        invariant ids == Ids(SurfaceKind, created)
      {
        NextSlot(surfaces, slot, n - count);
        if slot !in surfaces {
          if count == available {
            surfaces := surfaces - set k | k in created;
            assert surfaces == old(surfaces);
            return Failure(Busy);
          }
          surfaces := surfaces[slot := NEW_SURFACE];
          BehindStep(created, slot, AddSurfaces(surfaces, slot + 1, n - count - 1));
          created, ids, count := created + [slot], ids + [Id(SurfaceKind, slot)], count + 1;
        }
        slot := slot + 1;
      }
      NothingToAdd(surfaces, slot, n - count);
      NothingBehind(created, surfaces);
      return Success(ids);
    }

    method SurfaceHasImage(f: nat) returns (has: bool)
      requires Inv(Value())
      ensures has == HasImage(Value(), f)
    {
      hide Linked, BuffersUnshared, BracketsCount;
      var i := 0;
      while i < MAX_IMAGES
        invariant 0 <= i <= MAX_IMAGES
        invariant forall k :: 0 <= k < i && k in images ==> images[k].surface != Some(f)
      {
        if i in images && images[i].surface == Some(f) {
          return true;
        }
        i := i + 1;
      }
      return false;
    }

    method DestroySurfaces(ids: seq<nat>) returns (o: Outcome)
      requires Inv(Value())
      modifies this`surfaces
      ensures (Value(), AnswerDone(o)) == Perform(old(Value()), VaDestroySurfaces(ids))
    {
      hide Inv, HasImage, Find, ObjectStore.DestroySurfaces;
      var slots, i := [], 0;
      while i < |ids|
        invariant 0 <= i <= |ids| && Value() == old(Value())
        invariant FindAll(surfaces.Keys, SurfaceKind, ids[..i]) == Some(slots)
        invariant Obstacle(Value(), ids[..i]).None?
      {
        var slot := Find(surfaces.Keys, SurfaceKind, ids[i]);
        assert ids[..i + 1][..i] == ids[..i];
        ObstacleStays(Value(), ids, i + 1);
        if slot.None? {
          return Fail(NotFound);
        }
        FoundIsUsed(surfaces.Keys, SurfaceKind, ids[i]);
        var f := surfaces[slot.value];
        var shown := SurfaceHasImage(slot.value);
        if f.pending || f.context.Some? || shown {
          return Fail(Busy);
        }
        slots := slots + [slot.value];
        i := i + 1;
      }
      assert ids[..i] == ids;
      NoObstacle(Value(), ids);
      NoneHeld(Value(), slots);
      surfaces := surfaces - set f | f in slots;
      return Pass;
    }

    method CreateBuffer(contextId: nat) returns (res: Result<nat>)
      modifies this`buffers
      ensures (Value(), AnswerId(res)) == Perform(old(Value()), VaCreateBuffer(contextId))
    {
      var c := Find(contexts.Keys, ContextKind, contextId);
      :- Need(c.Some?, NotFound);
      var slot := FreeSlot(buffers, MAX_BUFFERS);
      :- Need(slot < MAX_BUFFERS, NoSpace);
      buffers := buffers[slot := Buffer(Some(c.value), 0)];
      return Success(Id(BufferKind, slot));
    }

    method BufferUsedByImage(b: nat) returns (used: bool)
      requires Inv(Value())
      ensures used == UsedByImage(Value(), b)
    {
      hide Linked, BuffersUnshared, BracketsCount;
      var i := 0;
      while i < MAX_IMAGES
        invariant 0 <= i <= MAX_IMAGES
        invariant forall k :: 0 <= k < i && k in images ==> images[k].buffer != b
      {
        if i in images && images[i].buffer == b {
          return true;
        }
        i := i + 1;
      }
      return false;
    }

    method DestroyBuffer(id: nat) returns (o: Outcome)
      requires Inv(Value())
      modifies this`buffers
      ensures (Value(), AnswerDone(o)) == Perform(old(Value()), VaDestroyBuffer(id))
    {
      hide Inv, UsedByImage;
      var b := Find(buffers.Keys, BufferKind, id);
      :- Check(b.Some?, Invalid);
      var used := BufferUsedByImage(b.value);
      :- Check(buffers[b.value].mapCount == 0 && !used, Invalid);
      buffers := buffers - {b.value};
      return Pass;
    }

    // create_image_locked: the buffer is given back when no image slot is free.
    method AllocateImage(surface: Option<nat>) returns (res: Result<(nat, nat)>)
      requires Refers(surface, surfaces)
      modifies this`buffers, this`images
      ensures
        var (t, r) := ObjectStore.CreateImage(old(Value()), surface);
        Value() == t && AnswerIdPair(res) == AnswerImage(r)
    {
      var b := FreeSlot(buffers, MAX_BUFFERS);
      :- Need(b < MAX_BUFFERS, NoSpace);
      buffers := buffers[b := Buffer(None, 0)];
      var i := FreeSlot(images, MAX_IMAGES);
      if i >= MAX_IMAGES {
        buffers := buffers - {b};
        return Failure(NoSpace);
      }
      images := images[i := Image(b, surface)];
      return Success((Id(ImageKind, i), Id(BufferKind, b)));
    }

    method CreateImage() returns (res: Result<(nat, nat)>)
      modifies this`buffers, this`images
      ensures (Value(), AnswerIdPair(res)) == Perform(old(Value()), VaCreateImage)
    {
      res := AllocateImage(None);
    }

    method DeriveImage(id: nat, ready: bool) returns (res: Result<(nat, nat)>)
      modifies this`buffers, this`images
      ensures (Value(), AnswerIdPair(res)) == Perform(old(Value()), VaDeriveImage(id, ready))
    {
      var f := Find(surfaces.Keys, SurfaceKind, id);
      :- Need(f.Some?, NotFound);
      :- Need(ready, Busy);
      res := AllocateImage(f);
    }

    method DestroyImage(id: nat) returns (o: Outcome)
      modifies this`buffers, this`images
      ensures (Value(), AnswerDone(o)) == Perform(old(Value()), VaDestroyImage(id))
    {
      var i := Find(images.Keys, ImageKind, id);
      :- Check(i.Some?, NotFound);
      var b := images[i.value].buffer;
      :- Check(b in buffers && buffers[b].mapCount == 0, Busy);
      buffers := buffers - {b};
      images := images - {i.value};
      return Pass;
    }

    // surface_for_image_buffer
    method SurfaceForImageBuffer(b: nat) returns (f: Option<nat>)
      ensures f == SurfaceOf(Value(), b, 0)
      ensures f.Some? ==> f.value in surfaces
    {
      var i := 0;
      while i < MAX_IMAGES
        invariant 0 <= i <= MAX_IMAGES && SurfaceOf(Value(), b, i) == SurfaceOf(Value(), b, 0)
      {
        if i in images && images[i].buffer == b && images[i].surface.Some? {
          return if images[i].surface.value in surfaces then images[i].surface else None;
        }
        i := i + 1;
      }
      return None;
    }

    method MapBuffer(id: nat, begins: bool) returns (o: Outcome)
      modifies this`buffers, this`surfaces
      ensures (Value(), AnswerDone(o)) == Perform(old(Value()), VaMapBuffer(id, begins))
    {
      hide SurfaceOf;
      var found := Find(buffers.Keys, BufferKind, id);
      :- Check(found.Some? && buffers[found.value].mapCount != UINT32_MAX, Invalid);
      var b := found.value;
      var f := SurfaceForImageBuffer(b);
      if f.Some? && buffers[b].mapCount == 0 {
        :- Check(begins, Busy);
        surfaces := Brackets(surfaces, f.value, surfaces[f.value].brackets + 1);
      }
      buffers := buffers[b := buffers[b].(mapCount := buffers[b].mapCount + 1)];
      return Pass;
    }

    method UnmapBuffer(id: nat) returns (o: Outcome)
      modifies this`buffers, this`surfaces
      ensures (Value(), AnswerDone(o)) == Perform(old(Value()), VaUnmapBuffer(id))
    {
      hide SurfaceOf;
      var found := Find(buffers.Keys, BufferKind, id);
      :- Check(found.Some? && buffers[found.value].mapCount != 0, Invalid);
      var b := found.value;
      var f := SurfaceForImageBuffer(b);
      buffers := buffers[b := buffers[b].(mapCount := buffers[b].mapCount - 1)];
      if f.Some? && buffers[b].mapCount == 0 {
        surfaces := Brackets(surfaces, f.value, surfaces[f.value].brackets - 1);
      }
      return Pass;
    }
  }

  lemma FoundIsUsed(used: set<nat>, kind: Kind, id: nat)
    ensures Find(used, kind, id).Some? ==> Find(used, kind, id).value in used
  {
  }

  // An obstacle among the first surfaces is one for all.
  lemma {:induction false} ObstacleStays(s: Store, ids: seq<nat>, n: nat)
    requires n <= |ids|
    ensures Obstacle(s, ids[..n]).Some? ==> Obstacle(s, ids) == Obstacle(s, ids[..n])
    decreases |ids|
  {
    hide Find, Destroyable;
    if n < |ids| {
      ObstacleStays(s, ids[..|ids| - 1], n);
      assert ids[..|ids| - 1][..n] == ids[..n];
    } else {
      assert ids[..n] == ids;
    }
  }

  lemma NoneHeld(s: Store, fs: seq<nat>)
    requires forall f :: f in fs ==> Destroyable(s, f)
    ensures DestroySurfaces(s, fs) == (s.(surfaces := s.surfaces - set f | f in fs), Pass)
  {
    hide Destroyable;
  }
}
