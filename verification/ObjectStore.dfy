/**
  The slot tables of configs, contexts, surfaces, buffers and images, and what refers to what:
  src/backend.c, src/decode.c and src/objects.c. A table maps its used slots; objects refer to each other by slot.
 */
module ObjectStore {
  import opened Limits
  import opened Wrappers

  datatype Config = Config(profile: nat, entrypoint: nat)
  datatype Context = Context(config: nat)
  /** brackets counts the CPU accesses the kernel has open on the surface. */
  datatype Surface = Surface(context: Option<nat>, pending: bool, brackets: int)
  datatype Buffer = Buffer(context: Option<nat>, mapCount: nat)
  datatype Image = Image(buffer: nat, surface: Option<nat>)

  datatype Store = Store(
    configs: map<nat, Config>, contexts: map<nat, Context>, surfaces: map<nat, Surface>,
    buffers: map<nat, Buffer>, images: map<nat, Image>)

  const EMPTY := Store(map[], map[], map[], map[], map[])

  // ---------- Handles ----------

  const KIND := 0x0100_0000

  datatype Kind = ConfigKind | ContextKind | SurfaceKind | BufferKind | ImageKind
  {
    function Base(): nat {
      match this
      case ConfigKind => 1
      case ContextKind => 2
      case SurfaceKind => 3
      case BufferKind => 4
      case ImageKind => 5
    }

    function Max(): (m: nat)
      ensures m < KIND
    {
      match this
      case ConfigKind => MAX_CONFIGS
      case ContextKind => MAX_CONTEXTS
      case SurfaceKind => MAX_SURFACES
      case BufferKind => MAX_BUFFERS
      case ImageKind => MAX_IMAGES
    }
  }

  // The id a client sees: the kind in the top byte, and the slot counted from one.
  function Id(kind: Kind, slot: nat): nat {
    kind.Base() * KIND + slot + 1
  }

  // The used slot an id names.
  function Find(used: set<nat>, kind: Kind, id: nat): Option<nat> {
    if id / KIND != kind.Base() || id % KIND == 0 || id % KIND > kind.Max() then None
    else if id % KIND - 1 in used then Some(id % KIND - 1)
    else None
  }

  // An id finds its slot while it is used, and nothing of another kind.
  lemma FindExact(used: set<nat>, kind: Kind, id: nat, slot: nat)
    ensures Find(used, kind, id) == Some(slot) <==> id == Id(kind, slot) && slot in used && slot < kind.Max()
  {
  }

  // The slots that ids name, if every one names a used slot.
  function FindAll(used: set<nat>, kind: Kind, ids: seq<nat>): (r: Option<seq<nat>>)
    ensures r.Some? ==> forall slot :: slot in r.value ==> slot in used
    ensures r.Some? ==> |r.value| == |ids|
  {
    if ids == [] then Some([])
    else
      var n := |ids| - 1;
      var init, last := FindAll(used, kind, ids[..n]), Find(used, kind, ids[n]);
      if init.None? || last.None? then None else Some(init.value + [last.value])
  }

  lemma {:induction false} FindAllFails(used: set<nat>, kind: Kind, ids: seq<nat>, i: nat)
    requires i < |ids| && Find(used, kind, ids[i]).None?
    ensures FindAll(used, kind, ids).None?
  {
    if i < |ids| - 1 {
      FindAllFails(used, kind, ids[..|ids| - 1], i);
    }
  }

  // ---------- References ----------

  predicate Slots<T>(table: map<nat, T>, max: nat) {
    forall i :: i in table ==> i < max
  }

  predicate SlotsOk(s: Store) {
    && Slots(s.configs, MAX_CONFIGS) && Slots(s.contexts, MAX_CONTEXTS) && Slots(s.surfaces, MAX_SURFACES)
    && Slots(s.buffers, MAX_BUFFERS) && Slots(s.images, MAX_IMAGES)
  }

  predicate Refers<T>(o: Option<nat>, table: map<nat, T>) {
    o.Some? ==> o.value in table
  }

  // Whatever an object refers to is there, and an image's buffer belongs to no context.
  predicate Linked(s: Store) {
    && (forall c :: c in s.contexts ==> s.contexts[c].config in s.configs)
    && (forall f :: f in s.surfaces ==> Refers(s.surfaces[f].context, s.contexts))
    && (forall b :: b in s.buffers ==> Refers(s.buffers[b].context, s.contexts))
    && (forall i :: i in s.images ==>
          && s.images[i].buffer in s.buffers && s.buffers[s.images[i].buffer].context.None?
          && Refers(s.images[i].surface, s.surfaces))
  }

  predicate BuffersUnshared(s: Store) {
    forall i, j :: i in s.images && j in s.images && i != j ==> s.images[i].buffer != s.images[j].buffer
  }

  predicate Mapped(s: Store, i: nat, f: nat) {
    && i in s.images && s.images[i].surface == Some(f)
    && s.images[i].buffer in s.buffers && s.buffers[s.images[i].buffer].mapCount > 0
  }

  // The images derived from a surface whose buffers are mapped.
  function MappedImages(s: Store, f: nat): set<nat> {
    set i | i in s.images && Mapped(s, i, f)
  }

  // CPU access to a surface is open once for each mapped image of it.
  predicate BracketsCount(s: Store) {
    forall f :: f in s.surfaces ==> s.surfaces[f].brackets == |MappedImages(s, f)|
  }

  predicate Inv(s: Store) {
    SlotsOk(s) && Linked(s) && BuffersUnshared(s) && BracketsCount(s)
  }

  // ---------- Operations ----------

  // The lowest free slot from the given one up.
  function Lowest(used: set<nat>, from: nat, max: nat): (r: Option<nat>)
    ensures r.Some? ==> from <= r.value < max && r.value !in used && forall i :: from <= i < r.value ==> i in used
    ensures r.None? ==> forall i :: from <= i < max ==> i in used
    decreases max - from
  {
    if from >= max then None else if from !in used then Some(from) else Lowest(used, from + 1, max)
  }

  function CreateConfig(s: Store, x: Config): (Store, Result<nat>) {
    var slot := Lowest(s.configs.Keys, 0, MAX_CONFIGS);
    if slot.None? then (s, Failure(NoSpace)) else (s.(configs := s.configs[slot.value := x]), Success(slot.value))
  }

  function DestroyConfig(s: Store, g: nat): (Store, Outcome) {
    if g !in s.configs then (s, Fail(NotFound))
    else if exists c :: c in s.contexts && s.contexts[c].config == g then (s, Fail(Busy))
    else (s.(configs := s.configs - {g}), Pass)
  }

  function Attach(surfaces: map<nat, Surface>, c: nat, targets: seq<nat>): (r: map<nat, Surface>)
    requires forall t :: t in targets ==> t in surfaces
    ensures r.Keys == surfaces.Keys
  {
    if targets == [] then surfaces
    else
      var n := |targets| - 1;
      var before := Attach(surfaces, c, targets[..n]);
      before[targets[n] := before[targets[n]].(context := Some(c))]
  }

  // opens: whether the device could be opened for the config.
  function CreateContext(s: Store, g: nat, targets: seq<nat>, opens: bool): (Store, Result<nat>) {
    var slot := Lowest(s.contexts.Keys, 0, MAX_CONTEXTS);
    if g !in s.configs || exists t :: t in targets && t !in s.surfaces then (s, Failure(NotFound))
    else if slot.None? then (s, Failure(NoSpace))
    else if !opens then (s, Failure(Unsupported))
    else
      (s.(contexts := s.contexts[slot.value := Context(g)], surfaces := Attach(s.surfaces, slot.value, targets)),
       Success(slot.value))
  }

  function Detached(f: Surface, c: nat): Surface {
    if f.context == Some(c) then f.(context := None, pending := false) else f
  }

  function WithoutContext(buffers: map<nat, Buffer>, c: nat): map<nat, Buffer> {
    map b | b in buffers && buffers[b].context != Some(c) :: buffers[b]
  }

  function DetachAll(surfaces: map<nat, Surface>, c: nat): map<nat, Surface> {
    map f | f in surfaces :: Detached(surfaces[f], c)
  }

  function DestroyContext(s: Store, c: nat): (Store, Outcome) {
    if c !in s.contexts then (s, Fail(NotFound))
    else
      (s.(contexts := s.contexts - {c},
          buffers := WithoutContext(s.buffers, c),
          surfaces := DetachAll(s.surfaces, c)), Pass)
  }

  function BeginPicture(s: Store, c: nat, f: nat): (Store, Outcome) {
    if c !in s.contexts || s.contexts[c].config !in s.configs || f !in s.surfaces then (s, Fail(NotFound))
    else (s.(surfaces := s.surfaces[f := s.surfaces[f].(context := Some(c))]), Pass)
  }

  // The encoder starts or completes a frame of the surface.
  function SetPending(s: Store, f: nat, pending: bool): (Store, Outcome) {
    if f !in s.surfaces then (s, Fail(NotFound))
    else (s.(surfaces := s.surfaces[f := s.surfaces[f].(pending := pending)]), Pass)
  }

  const NEW_SURFACE := Surface(None, false, 0)

  // n more surfaces in the free slots from the given one up, and these slots.
  function AddSurfaces(surfaces: map<nat, Surface>, from: nat, n: nat): Option<(map<nat, Surface>, seq<nat>)>
    decreases n
  {
    if n == 0 then Some((surfaces, []))
    else
      var slot := Lowest(surfaces.Keys, from, MAX_SURFACES);
      if slot.None? then None
      else
        var rest := AddSurfaces(surfaces[slot.value := NEW_SURFACE], slot.value + 1, n - 1);
        if rest.None? then None else Some((rest.value.0, [slot.value] + rest.value.1))
  }

  // All or nothing; available: how many surfaces memory can be had for.
  function CreateSurfaces(s: Store, n: nat, available: nat): (Store, Result<seq<nat>>) {
    var added := AddSurfaces(s.surfaces, 0, n);
    if n == 0 || n > MAX_SURFACES then (s, Failure(Invalid))
    else if added.None? then (s, Failure(NoSpace))
    else if available < n then (s, Failure(Busy))
    else (s.(surfaces := added.value.0), Success(added.value.1))
  }

  predicate HasImage(s: Store, f: nat) {
    exists i :: i in s.images && s.images[i].surface == Some(f)
  }

  predicate Destroyable(s: Store, f: nat) {
    f in s.surfaces && !s.surfaces[f].pending && s.surfaces[f].context.None? && !HasImage(s, f)
  }

  function DestroySurfaces(s: Store, fs: seq<nat>): (Store, Outcome) {
    if exists f :: f in fs && !Destroyable(s, f) then (s, Fail(Busy))
    else (s.(surfaces := s.surfaces - (set f | f in fs)), Pass)
  }

  function CreateBuffer(s: Store, c: nat): (Store, Result<nat>) {
    var slot := Lowest(s.buffers.Keys, 0, MAX_BUFFERS);
    if c !in s.contexts then (s, Failure(NotFound))
    else if slot.None? then (s, Failure(NoSpace))
    else (s.(buffers := s.buffers[slot.value := Buffer(Some(c), 0)]), Success(slot.value))
  }

  predicate UsedByImage(s: Store, b: nat) {
    exists i :: i in s.images && s.images[i].buffer == b
  }

  function DestroyBuffer(s: Store, b: nat): (Store, Outcome) {
    if b !in s.buffers || s.buffers[b].mapCount > 0 || UsedByImage(s, b) then (s, Fail(Invalid))
    else (s.(buffers := s.buffers - {b}), Pass)
  }

  // An image with its own buffer, standing alone or derived from a surface.
  function CreateImage(s: Store, surface: Option<nat>): (Store, Result<(nat, nat)>) {
    var b, i := Lowest(s.buffers.Keys, 0, MAX_BUFFERS), Lowest(s.images.Keys, 0, MAX_IMAGES);
    if surface.Some? && surface.value !in s.surfaces then (s, Failure(NotFound))
    else if b.None? || i.None? then (s, Failure(NoSpace))
    else
      (s.(buffers := s.buffers[b.value := Buffer(None, 0)], images := s.images[i.value := Image(b.value, surface)]),
       Success((i.value, b.value)))
  }

  function DestroyImage(s: Store, i: nat): (Store, Outcome) {
    if i !in s.images then (s, Fail(NotFound))
    else if s.images[i].buffer !in s.buffers || s.buffers[s.images[i].buffer].mapCount > 0 then (s, Fail(Busy))
    else (s.(buffers := s.buffers - {s.images[i].buffer}, images := s.images - {i}), Pass)
  }

  predicate ShowsSurface(s: Store, i: nat, b: nat) {
    i in s.images && s.images[i].buffer == b && s.images[i].surface.Some?
  }

  // The surface of the lowest image derived into this buffer.
  function SurfaceOf(s: Store, b: nat, from: nat): (r: Option<nat>)
    ensures r.Some? ==> r.value in s.surfaces
    decreases MAX_IMAGES - from
  {
    if from >= MAX_IMAGES then None
    else if ShowsSurface(s, from, b) then
      if s.images[from].surface.value in s.surfaces then s.images[from].surface else None
    else SurfaceOf(s, b, from + 1)
  }

  function Brackets(surfaces: map<nat, Surface>, f: nat, brackets: int): map<nat, Surface>
    requires f in surfaces
  {
    surfaces[f := surfaces[f].(brackets := brackets)]
  }

  // Map a buffer; begins: whether the kernel opens CPU access to the surface.
  function Map(s: Store, b: nat, begins: bool): (Store, Outcome) {
    if b !in s.buffers || s.buffers[b].mapCount == UINT32_MAX then (s, Fail(Invalid))
    else
      var mapped := s.buffers[b := s.buffers[b].(mapCount := s.buffers[b].mapCount + 1)];
      var f := SurfaceOf(s, b, 0);
      if f.None? || s.buffers[b].mapCount > 0 then (s.(buffers := mapped), Pass)
      else if !begins then (s, Fail(Busy))
      else (s.(buffers := mapped, surfaces := Brackets(s.surfaces, f.value, s.surfaces[f.value].brackets + 1)), Pass)
  }

  // Unmap a buffer; closing CPU access succeeds.
  function Unmap(s: Store, b: nat): (Store, Outcome) {
    if b !in s.buffers || s.buffers[b].mapCount == 0 then (s, Fail(Invalid))
    else
      var unmapped := s.buffers[b := s.buffers[b].(mapCount := s.buffers[b].mapCount - 1)];
      var f := SurfaceOf(s, b, 0);
      if f.None? || s.buffers[b].mapCount > 1 then (s.(buffers := unmapped), Pass)
      else (s.(buffers := unmapped, surfaces := Brackets(s.surfaces, f.value, s.surfaces[f.value].brackets - 1)), Pass)
  }

  // ---------- Free slots ----------

  function FreeCount(used: set<nat>, from: nat): nat
    decreases MAX_SURFACES - from
  {
    if from >= MAX_SURFACES then 0 else (if from in used then 0 else 1) + FreeCount(used, from + 1)
  }

  lemma {:induction false} FreeBelow(used: set<nat>, from: nat, slot: nat)
    requires from <= slot < MAX_SURFACES && slot !in used
    requires forall i :: from <= i < slot ==> i in used
    ensures FreeCount(used, from) == 1 + FreeCount(used, slot + 1)
    decreases slot - from
  {
    if from < slot {
      FreeBelow(used, from + 1, slot);
    }
  }

  lemma {:induction false} NoneFree(used: set<nat>, from: nat)
    requires forall i :: from <= i < MAX_SURFACES ==> i in used
    ensures FreeCount(used, from) == 0
    decreases MAX_SURFACES - from
  {
    if from < MAX_SURFACES {
      NoneFree(used, from + 1);
    }
  }

  lemma {:induction false} SameFree(a: set<nat>, b: set<nat>, from: nat)
    requires forall i :: i >= from ==> (i in a <==> i in b)
    ensures FreeCount(a, from) == FreeCount(b, from)
    decreases MAX_SURFACES - from
  {
    if from < MAX_SURFACES {
      SameFree(a, b, from + 1);
    }
  }

  // Enough slots are free exactly when all of the surfaces find one.
  lemma {:induction false} EnoughFree(surfaces: map<nat, Surface>, from: nat, n: nat)
    ensures AddSurfaces(surfaces, from, n).Some? <==> n <= FreeCount(surfaces.Keys, from)
    decreases n
  {
    if n > 0 {
      var slot := Lowest(surfaces.Keys, from, MAX_SURFACES);
      if slot.None? {
        NoneFree(surfaces.Keys, from);
      } else {
        var added := surfaces[slot.value := NEW_SURFACE];
        FreeBelow(surfaces.Keys, from, slot.value);
        SameFree(added.Keys, surfaces.Keys, slot.value + 1);
        EnoughFree(added, slot.value + 1, n - 1);
      }
    }
  }

  // ---------- What every operation keeps ----------

  // Brackets stay counted when neither the images nor their buffers' map counts change.
  lemma SameMappings(s: Store, t: Store)
    requires BracketsCount(s)
    requires forall i, f :: f in t.surfaces ==> (Mapped(t, i, f) <==> Mapped(s, i, f))
    requires forall f :: f in t.surfaces ==> f in s.surfaces && t.surfaces[f].brackets == s.surfaces[f].brackets
    ensures BracketsCount(t)
  {
    hide Mapped;
    forall f | f in t.surfaces ensures t.surfaces[f].brackets == |MappedImages(t, f)| {
      MappedIn(s, f);
      MappedIn(t, f);
      assert MappedImages(t, f) == MappedImages(s, f);
    }
  }

  lemma MappedIn(s: Store, f: nat)
    ensures forall i :: i in MappedImages(s, f) <==> Mapped(s, i, f)
  {
  }

  lemma CreateConfigKeeps(s: Store, x: Config)
    requires Inv(s)
    ensures Inv(CreateConfig(s, x).0)
  {
    hide MappedImages, Mapped, BuffersUnshared;
    MappedSame(s, CreateConfig(s, x).0);
    SameMappings(s, CreateConfig(s, x).0);
    Unshared(s, CreateConfig(s, x).0);
  }

  lemma DestroyConfigKeeps(s: Store, g: nat)
    requires Inv(s)
    ensures Inv(DestroyConfig(s, g).0)
  {
    hide MappedImages, Mapped, BuffersUnshared;
    MappedSame(s, DestroyConfig(s, g).0);
    SameMappings(s, DestroyConfig(s, g).0);
    Unshared(s, DestroyConfig(s, g).0);
  }

  // Images and buffers decide what is mapped and what is shared.
  lemma MappedSame(s: Store, t: Store)
    requires t.images == s.images && t.buffers == s.buffers
    ensures forall i, f :: Mapped(t, i, f) <==> Mapped(s, i, f)
  {
  }

  lemma Unshared(s: Store, t: Store)
    requires t.images == s.images && BuffersUnshared(s)
    ensures BuffersUnshared(t)
  {
  }

  // Only surfaces changed, and they keep their brackets and refer to contexts there are.
  lemma SurfacesChangedKeeps(s: Store, t: Store)
    requires Inv(s) && t == s.(surfaces := t.surfaces) && t.surfaces.Keys == s.surfaces.Keys
    requires forall f :: f in t.surfaces ==>
      t.surfaces[f].brackets == s.surfaces[f].brackets && Refers(t.surfaces[f].context, s.contexts)
    ensures Inv(t)
  {
    hide MappedImages, Mapped, BuffersUnshared;
    MappedSame(s, t);
    SameMappings(s, t);
    Unshared(s, t);
  }

  lemma {:induction false} AttachKeeps(surfaces: map<nat, Surface>, c: nat, targets: seq<nat>)
    requires forall t :: t in targets ==> t in surfaces
    ensures
      var r := Attach(surfaces, c, targets);
      forall f :: f in surfaces ==>
        r[f].brackets == surfaces[f].brackets && (r[f].context == Some(c) || r[f].context == surfaces[f].context)
  {
    if targets != [] {
      AttachKeeps(surfaces, c, targets[..|targets| - 1]);
    }
  }

  lemma CreateContextKeeps(s: Store, g: nat, targets: seq<nat>, opens: bool)
    requires Inv(s)
    ensures Inv(CreateContext(s, g, targets, opens).0)
  {
    hide Attach, MappedImages, Mapped, BuffersUnshared;
    var t := CreateContext(s, g, targets, opens).0;
    if t != s {
      AttachKeeps(s.surfaces, Lowest(s.contexts.Keys, 0, MAX_CONTEXTS).value, targets);
      MappedSame(s, t);
      SameMappings(s, t);
      Unshared(s, t);
    }
  }

  // The buffers of images stay, so that the same images are mapped.
  lemma ImagesKept(s: Store, t: Store)
    requires Linked(s) && t.images == s.images
    requires forall b :: b in s.buffers && s.buffers[b].context.None? ==> b in t.buffers && t.buffers[b] == s.buffers[b]
    requires t.buffers.Keys <= s.buffers.Keys
    ensures forall i, f :: Mapped(t, i, f) <==> Mapped(s, i, f)
  {
  }

  lemma DestroyContextKeeps(s: Store, c: nat)
    requires Inv(s)
    ensures Inv(DestroyContext(s, c).0)
  {
    hide MappedImages, Mapped, BuffersUnshared;
    var t := DestroyContext(s, c).0;
    if c in s.contexts {
      ImagesKept(s, t);
      SameMappings(s, t);
      Unshared(s, t);
    }
  }

  lemma BeginPictureKeeps(s: Store, c: nat, f: nat)
    requires Inv(s)
    ensures Inv(BeginPicture(s, c, f).0)
  {
    hide Inv;
    var t := BeginPicture(s, c, f).0;
    if t != s {
      InvLinked(s);
      SurfacesChangedKeeps(s, t);
    }
  }

  lemma SetPendingKeeps(s: Store, f: nat, pending: bool)
    requires Inv(s)
    ensures Inv(SetPending(s, f, pending).0)
  {
    hide Inv;
    var t := SetPending(s, f, pending).0;
    if t != s {
      InvLinked(s);
      SurfacesChangedKeeps(s, t);
    }
  }

  lemma InvLinked(s: Store)
    requires Inv(s)
    ensures Linked(s)
  {
  }

  lemma AddSurfaceKeeps(s: Store, f: nat)
    requires Inv(s) && f !in s.surfaces && f < MAX_SURFACES
    ensures Inv(s.(surfaces := s.surfaces[f := NEW_SURFACE]))
  {
    var t := s.(surfaces := s.surfaces[f := NEW_SURFACE]);
    forall k | k in t.surfaces ensures t.surfaces[k].brackets == |MappedImages(t, k)| {
      if k == f {
        assert MappedImages(t, f) == {};
      } else {
        assert MappedImages(t, k) == MappedImages(s, k);
      }
    }
  }

  lemma {:induction false} AddSurfacesKeep(s: Store, from: nat, n: nat)
    requires Inv(s) && AddSurfaces(s.surfaces, from, n).Some?
    ensures Inv(s.(surfaces := AddSurfaces(s.surfaces, from, n).value.0))
    decreases n
  {
    hide Inv;
    if n > 0 {
      var slot := Lowest(s.surfaces.Keys, from, MAX_SURFACES).value;
      AddSurfaceKeeps(s, slot);
      AddSurfacesKeep(s.(surfaces := s.surfaces[slot := NEW_SURFACE]), slot + 1, n - 1);
    }
  }

  lemma CreateSurfacesKeeps(s: Store, n: nat, available: nat)
    requires Inv(s)
    ensures Inv(CreateSurfaces(s, n, available).0)
  {
    hide Inv, AddSurfaces;
    if AddSurfaces(s.surfaces, 0, n).Some? {
      AddSurfacesKeep(s, 0, n);
    }
  }

  lemma DestroySurfacesKeeps(s: Store, fs: seq<nat>)
    requires Inv(s)
    ensures Inv(DestroySurfaces(s, fs).0)
  {
    hide MappedImages, Mapped, BuffersUnshared, HasImage;
    var t := DestroySurfaces(s, fs).0;
    if forall f :: f in fs ==> Destroyable(s, f) {
      assert forall f :: f in fs ==> !HasImage(s, f);
      forall i | i in t.images ensures Refers(t.images[i].surface, t.surfaces) {
        ImageIsThere(s, i);
      }
      MappedSame(s, t);
      SameMappings(s, t);
      Unshared(s, t);
    }
  }

  lemma ImageIsThere(s: Store, i: nat)
    requires i in s.images
    ensures s.images[i].surface.Some? ==> HasImage(s, s.images[i].surface.value)
  {
  }

  // A buffer no image uses was added or removed.
  lemma OtherBuffer(s: Store, t: Store, b: nat)
    requires t.images == s.images && forall i :: i in s.images ==> s.images[i].buffer != b
    requires forall k :: k != b ==>
      (k in t.buffers <==> k in s.buffers) && (k in s.buffers ==> t.buffers[k] == s.buffers[k])
    ensures forall i, f :: Mapped(t, i, f) <==> Mapped(s, i, f)
  {
  }

  lemma CreateBufferKeeps(s: Store, c: nat)
    requires Inv(s)
    ensures Inv(CreateBuffer(s, c).0)
  {
    hide MappedImages, Mapped, BuffersUnshared;
    var t := CreateBuffer(s, c).0;
    if t != s {
      OtherBuffer(s, t, Lowest(s.buffers.Keys, 0, MAX_BUFFERS).value);
      SameMappings(s, t);
      Unshared(s, t);
    }
  }

  lemma DestroyBufferKeeps(s: Store, b: nat)
    requires Inv(s)
    ensures Inv(DestroyBuffer(s, b).0)
  {
    hide MappedImages, Mapped, BuffersUnshared;
    var t := DestroyBuffer(s, b).0;
    if t != s {
      assert forall i :: i in s.images ==> s.images[i].buffer != b;
      OtherBuffer(s, t, b);
      SameMappings(s, t);
      Unshared(s, t);
    }
  }

  // An image whose buffer is not mapped was added or removed with its buffer.
  lemma OtherImage(s: Store, t: Store, i: nat, b: nat)
    requires forall j :: j != i ==> (j in t.images <==> j in s.images) && (j in s.images ==> t.images[j] == s.images[j])
    requires forall k :: k != b ==>
      (k in t.buffers <==> k in s.buffers) && (k in s.buffers ==> t.buffers[k] == s.buffers[k])
    requires forall j :: j in s.images && j != i ==> s.images[j].buffer != b
    requires forall f :: !Mapped(s, i, f) && !Mapped(t, i, f)
    ensures forall j, f :: Mapped(t, j, f) <==> Mapped(s, j, f)
  {
  }

  // t has one more image, i, in a new buffer b that is not mapped.
  predicate ImageAdded(s: Store, t: Store, i: nat, b: nat, surface: Option<nat>) {
    && i !in s.images && i < MAX_IMAGES && b !in s.buffers && b < MAX_BUFFERS && Refers(surface, s.surfaces)
    && t == s.(buffers := s.buffers[b := Buffer(None, 0)], images := s.images[i := Image(b, surface)])
  }

  lemma ImageAddedLinks(s: Store, t: Store, i: nat, b: nat, surface: Option<nat>)
    requires ImageAdded(s, t, i, b, surface) && SlotsOk(s) && Linked(s)
    ensures SlotsOk(t) && Linked(t)
  {
  }

  lemma ImageAddedUnshared(s: Store, t: Store, i: nat, b: nat, surface: Option<nat>)
    requires ImageAdded(s, t, i, b, surface) && Linked(s) && BuffersUnshared(s)
    ensures BuffersUnshared(t)
    ensures forall j :: j in s.images ==> s.images[j].buffer != b
    ensures forall f :: !Mapped(s, i, f) && !Mapped(t, i, f)
  {
  }

  lemma CreateImageKeeps(s: Store, surface: Option<nat>)
    requires Inv(s)
    ensures Inv(CreateImage(s, surface).0)
  {
    hide MappedImages, Mapped, Linked, SlotsOk, BuffersUnshared;
    var t := CreateImage(s, surface).0;
    if t != s {
      var b, i := Lowest(s.buffers.Keys, 0, MAX_BUFFERS).value, Lowest(s.images.Keys, 0, MAX_IMAGES).value;
      ImageAddedLinks(s, t, i, b, surface);
      ImageAddedUnshared(s, t, i, b, surface);
      OtherImage(s, t, i, b);
      SameMappings(s, t);
    }
  }

  lemma DestroyImageKeeps(s: Store, i: nat)
    requires Inv(s)
    ensures Inv(DestroyImage(s, i).0)
  {
    var t := DestroyImage(s, i).0;
    if t != s {
      assert forall f :: !Mapped(s, i, f) && !Mapped(t, i, f);
      hide MappedImages, Mapped;
      OtherImage(s, t, i, s.images[i].buffer);
      SameMappings(s, t);
    }
  }

  // ---------- Mapping ----------

  lemma {:induction false} SurfaceOfIs(s: Store, b: nat, from: nat)
    requires SlotsOk(s) && Linked(s) && BuffersUnshared(s)
    ensures forall i :: i in s.images && s.images[i].buffer == b && i >= from ==>
      SurfaceOf(s, b, from) == s.images[i].surface
    ensures (forall i :: i in s.images && i >= from ==> s.images[i].buffer != b) ==> SurfaceOf(s, b, from).None?
    decreases MAX_IMAGES - from
  {
    if from < MAX_IMAGES && !ShowsSurface(s, from, b) {
      SurfaceOfIs(s, b, from + 1);
    }
  }

  // Only the image of this buffer changes sides when the buffer is first mapped or last unmapped.
  lemma Remapped(s: Store, t: Store, b: nat, f: nat)
    requires b in s.buffers && t.images == s.images && t.buffers.Keys == s.buffers.Keys
    requires forall k :: k in s.buffers && k != b ==> t.buffers[k] == s.buffers[k]
    ensures forall i :: (i in s.images ==> s.images[i].buffer != b) ==> (Mapped(t, i, f) <==> Mapped(s, i, f))
  {
  }

  lemma MapChangesOne(s: Store, t: Store, b: nat, i: nat, f: nat)
    requires BuffersUnshared(s) && i in s.images && s.images[i].buffer == b && s.images[i].surface == Some(f)
    requires b in s.buffers && t.images == s.images && t.buffers.Keys == s.buffers.Keys
    requires forall k :: k in s.buffers && k != b ==> t.buffers[k] == s.buffers[k]
    requires s.buffers[b].mapCount == 0 && t.buffers[b].mapCount > 0
    ensures MappedImages(t, f) == MappedImages(s, f) + {i} && i !in MappedImages(s, f)
    ensures forall g :: g != f ==> MappedImages(t, g) == MappedImages(s, g)
  {
    forall g ensures g != f ==> MappedImages(t, g) == MappedImages(s, g) {
      Remapped(s, t, b, g);
      if g != f {
        forall j ensures Mapped(t, j, g) <==> Mapped(s, j, g) {
          if j in s.images && s.images[j].buffer == b {
            assert j == i;
          }
        }
      }
    }
    Remapped(s, t, b, f);
    forall j ensures Mapped(t, j, f) <==> Mapped(s, j, f) || j == i {
      if j in s.images && s.images[j].buffer == b {
        assert j == i;
      }
    }
  }

  // Opening or closing one surface's brackets together with one of its images.
  lemma BracketsFollow(s: Store, t: Store, i: nat, f: nat)
    requires BracketsCount(s) && f in s.surfaces && t.surfaces.Keys == s.surfaces.Keys
    requires forall g :: g in s.surfaces && g != f ==> t.surfaces[g].brackets == s.surfaces[g].brackets
    requires forall g :: g != f ==> MappedImages(t, g) == MappedImages(s, g)
    requires
      || (MappedImages(t, f) == MappedImages(s, f) + {i} && i !in MappedImages(s, f)
          && t.surfaces[f].brackets == s.surfaces[f].brackets + 1)
      || (MappedImages(s, f) == MappedImages(t, f) + {i} && i !in MappedImages(t, f)
          && t.surfaces[f].brackets == s.surfaces[f].brackets - 1)
    ensures BracketsCount(t)
  {
    hide MappedImages;
  }

  // The buffer shows no surface: no bracket is due.
  lemma NoBrackets(s: Store, t: Store, b: nat)
    requires BracketsCount(s) && t.images == s.images && t.surfaces == s.surfaces
    requires b in s.buffers && t.buffers.Keys == s.buffers.Keys
    requires forall k :: k in s.buffers && k != b ==> t.buffers[k] == s.buffers[k]
    requires
      || (forall i :: i in s.images && s.images[i].buffer == b ==> s.images[i].surface.None?)
      || (s.buffers[b].mapCount > 0 && t.buffers[b].mapCount > 0)
    ensures BracketsCount(t)
  {
    forall i, f ensures Mapped(t, i, f) <==> Mapped(s, i, f) {
    }
    SameMappings(s, t);
  }

  lemma MapLinks(s: Store, t: Store, b: nat)
    requires SlotsOk(s) && Linked(s) && BuffersUnshared(s)
    requires t.configs == s.configs && t.contexts == s.contexts && t.images == s.images
    requires b in s.buffers && b in t.buffers
    requires t.buffers == s.buffers[b := s.buffers[b].(mapCount := t.buffers[b].mapCount)]
    requires t.surfaces.Keys == s.surfaces.Keys
    requires forall f :: f in s.surfaces ==> t.surfaces[f].context == s.surfaces[f].context
    ensures SlotsOk(t) && Linked(t) && BuffersUnshared(t)
  {
  }

  lemma MapKeeps(s: Store, b: nat, begins: bool)
    requires Inv(s)
    ensures Inv(Map(s, b, begins).0)
  {
    hide MappedImages, Mapped, SurfaceOf, Linked, SlotsOk, BuffersUnshared, BracketsCount;
    var t := Map(s, b, begins).0;
    if b in s.buffers {
      SurfaceOfIs(s, b, 0);
      SurfaceIs(s, b);
      if t != s {
        MapLinks(s, t, b);
        if SurfaceOf(s, b, 0).Some? && s.buffers[b].mapCount == 0 {
          var i :| i in s.images && s.images[i].buffer == b;
          var f := SurfaceOf(s, b, 0).value;
          MapChangesOne(s, t, b, i, f);
          BracketsFollow(s, t, i, f);
        } else {
          NoBrackets(s, t, b);
        }
      }
    }
  }

  lemma SurfaceIs(s: Store, b: nat)
    requires SlotsOk(s) && Linked(s) && BuffersUnshared(s)
    ensures SurfaceOf(s, b, 0).Some? ==> exists i :: i in s.images && s.images[i].buffer == b
  {
    SurfaceOfIs(s, b, 0);
  }

  lemma UnmapKeeps(s: Store, b: nat)
    requires Inv(s)
    ensures Inv(Unmap(s, b).0)
  {
    hide MappedImages, Mapped, SurfaceOf, Linked, SlotsOk, BuffersUnshared, BracketsCount;
    var t := Unmap(s, b).0;
    if b in s.buffers && s.buffers[b].mapCount > 0 {
      SurfaceOfIs(s, b, 0);
      SurfaceIs(s, b);
      MapLinks(s, t, b);
      if SurfaceOf(s, b, 0).Some? && s.buffers[b].mapCount == 1 {
        var i :| i in s.images && s.images[i].buffer == b;
        var f := SurfaceOf(s, b, 0).value;
        MapChangesOne(t, s, b, i, f);
        BracketsFollow(s, t, i, f);
      } else {
        NoBrackets(s, t, b);
      }
    }
  }

  lemma EmptyOk()
    ensures Inv(EMPTY)
  {
  }
}
