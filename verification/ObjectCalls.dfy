/**
  The object calls of the driver by the ids a client sees: what each does to the objects, and what a run of calls
  leaves. From src/backend.c, src/decode.c and src/objects.c.
 */
module ObjectCalls {
  import opened Limits
  import opened ObjectStore
  import opened Wrappers

  // ---------- Calls ----------

  /** EncoderSets stands for the encode side, which marks a surface whose frame is in flight. */
  datatype Call =
    | VaCreateConfig(x: Config)
    | VaDestroyConfig(config: nat)
    // opens: whether the device could be opened.
    | VaCreateContext(config: nat, targets: seq<nat>, opens: bool)
    | VaDestroyContext(context: nat)
    | VaBeginPicture(context: nat, surface: nat)
    | EncoderSets(surface: nat, pending: bool)
    // available: how many surfaces memory can be had for.
    | VaCreateSurfaces(n: nat, available: nat)
    | VaDestroySurfaces(surfaces: seq<nat>)
    | VaCreateBuffer(context: nat)
    | VaDestroyBuffer(buffer: nat)
    | VaCreateImage
    // ready: the surface holds a picture.
    | VaDeriveImage(surface: nat, ready: bool)
    | VaDestroyImage(image: nat)
    // begins: whether the kernel opens CPU access.
    | VaMapBuffer(buffer: nat, begins: bool)
    | VaUnmapBuffer(buffer: nat)

  /** What a call returns; an image comes with the id of its buffer. */
  datatype Answer =
    | Done
    | Made(id: nat)
    | MadeSurfaces(ids: seq<nat>)
    | MadeImage(image: nat, buffer: nat)
    | Denied(error: Error)

  function Ids(kind: Kind, slots: seq<nat>): (r: seq<nat>)
    ensures |r| == |slots|
  {
    seq(|slots|, i requires 0 <= i < |slots| => Id(kind, slots[i]))
  }

  function AnswerMade(kind: Kind, r: Result<nat>): Answer {
    if r.Success? then Made(Id(kind, r.value)) else Denied(r.error)
  }

  function AnswerDone(o: Outcome): Answer {
    if o.Pass? then Done else Denied(o.error)
  }

  function AnswerSurfaces(r: Result<seq<nat>>): Answer {
    if r.Success? then MadeSurfaces(Ids(SurfaceKind, r.value)) else Denied(r.error)
  }

  function AnswerImage(r: Result<(nat, nat)>): Answer {
    if r.Success? then MadeImage(Id(ImageKind, r.value.0), Id(BufferKind, r.value.1)) else Denied(r.error)
  }

  function PerformConfig(s: Store, call: Call): (Store, Answer)
    requires call.VaCreateConfig? || call.VaDestroyConfig?
  {
    match call
    case VaCreateConfig(x) =>
      var (t, r) := CreateConfig(s, x);
      (t, AnswerMade(ConfigKind, r))
    case VaDestroyConfig(id) =>
      var g := Find(s.configs.Keys, ConfigKind, id);
      if g.None? then (s, Denied(NotFound))
      else
        var (t, o) := DestroyConfig(s, g.value);
        (t, AnswerDone(o))
  }

  function PerformContext(s: Store, call: Call): (Store, Answer)
    requires call.VaCreateContext? || call.VaDestroyContext? || call.VaBeginPicture?
  {
    match call
    case VaCreateContext(config, targets, opens) =>
      var g, fs := Find(s.configs.Keys, ConfigKind, config), FindAll(s.surfaces.Keys, SurfaceKind, targets);
      if g.None? || fs.None? then (s, Denied(NotFound))
      else
        var (t, r) := CreateContext(s, g.value, fs.value, opens);
        (t, AnswerMade(ContextKind, r))
    case VaDestroyContext(id) =>
      var c := Find(s.contexts.Keys, ContextKind, id);
      if c.None? then (s, Denied(NotFound))
      else
        var (t, o) := DestroyContext(s, c.value);
        (t, AnswerDone(o))
    case VaBeginPicture(context, surface) =>
      var c, f := Find(s.contexts.Keys, ContextKind, context), Find(s.surfaces.Keys, SurfaceKind, surface);
      if c.None? || f.None? then (s, Denied(NotFound))
      else
        var (t, o) := BeginPicture(s, c.value, f.value);
        (t, AnswerDone(o))
  }

  // Why the surfaces cannot be destroyed: what the first of them that cannot be tells.
  function Obstacle(s: Store, ids: seq<nat>): Option<Error> {
    if ids == [] then None
    else
      var before, f := Obstacle(s, ids[..|ids| - 1]), Find(s.surfaces.Keys, SurfaceKind, ids[|ids| - 1]);
      if before.Some? then before
      else if f.None? then Some(NotFound)
      else if !Destroyable(s, f.value) then Some(Busy)
      else None
  }

  lemma {:induction false} NoObstacle(s: Store, ids: seq<nat>)
    requires Obstacle(s, ids).None?
    ensures FindAll(s.surfaces.Keys, SurfaceKind, ids).Some?
    ensures forall f :: f in FindAll(s.surfaces.Keys, SurfaceKind, ids).value ==> Destroyable(s, f)
  {
    hide Destroyable, Find;
    if ids != [] {
      NoObstacle(s, ids[..|ids| - 1]);
    }
  }

  function PerformSurface(s: Store, call: Call): (Store, Answer)
    requires call.EncoderSets? || call.VaCreateSurfaces? || call.VaDestroySurfaces?
  {
    match call
    case EncoderSets(surface, pending) =>
      var f := Find(s.surfaces.Keys, SurfaceKind, surface);
      if f.None? then (s, Denied(NotFound))
      else
        var (t, o) := SetPending(s, f.value, pending);
        (t, AnswerDone(o))
    case VaCreateSurfaces(n, available) =>
      var (t, r) := CreateSurfaces(s, n, available);
      (t, AnswerSurfaces(r))
    case VaDestroySurfaces(ids) =>
      var e := Obstacle(s, ids);
      if e.Some? then (s, Denied(e.value))
      else
        NoObstacle(s, ids);
        var (t, o) := DestroySurfaces(s, FindAll(s.surfaces.Keys, SurfaceKind, ids).value);
        (t, AnswerDone(o))
  }

  function PerformBuffer(s: Store, call: Call): (Store, Answer)
    requires call.VaCreateBuffer? || call.VaDestroyBuffer? || call.VaMapBuffer? || call.VaUnmapBuffer?
  {
    match call
    case VaCreateBuffer(context) =>
      var c := Find(s.contexts.Keys, ContextKind, context);
      if c.None? then (s, Denied(NotFound))
      else
        var (t, r) := CreateBuffer(s, c.value);
        (t, AnswerMade(BufferKind, r))
    case VaDestroyBuffer(id) =>
      var b := Find(s.buffers.Keys, BufferKind, id);
      if b.None? then (s, Denied(Invalid))
      else
        var (t, o) := DestroyBuffer(s, b.value);
        (t, AnswerDone(o))
    case VaMapBuffer(id, begins) =>
      var b := Find(s.buffers.Keys, BufferKind, id);
      if b.None? then (s, Denied(Invalid))
      else
        var (t, o) := Map(s, b.value, begins);
        (t, AnswerDone(o))
    case VaUnmapBuffer(id) =>
      var b := Find(s.buffers.Keys, BufferKind, id);
      if b.None? then (s, Denied(Invalid))
      else
        var (t, o) := Unmap(s, b.value);
        (t, AnswerDone(o))
  }

  function PerformImage(s: Store, call: Call): (Store, Answer)
    requires call.VaCreateImage? || call.VaDeriveImage? || call.VaDestroyImage?
  {
    match call
    case VaCreateImage =>
      var (t, r) := CreateImage(s, None);
      (t, AnswerImage(r))
    case VaDeriveImage(surface, ready) =>
      var f := Find(s.surfaces.Keys, SurfaceKind, surface);
      if f.None? then (s, Denied(NotFound))
      else if !ready then (s, Denied(Busy))
      else
        var (t, r) := CreateImage(s, f);
        (t, AnswerImage(r))
    case VaDestroyImage(id) =>
      var i := Find(s.images.Keys, ImageKind, id);
      if i.None? then (s, Denied(NotFound))
      else
        var (t, o) := DestroyImage(s, i.value);
        (t, AnswerDone(o))
  }

  function Perform(s: Store, call: Call): (Store, Answer) {
    match call
    case VaCreateConfig(_) => PerformConfig(s, call)
    case VaDestroyConfig(_) => PerformConfig(s, call)
    case VaCreateContext(_, _, _) => PerformContext(s, call)
    case VaDestroyContext(_) => PerformContext(s, call)
    case VaBeginPicture(_, _) => PerformContext(s, call)
    case EncoderSets(_, _) => PerformSurface(s, call)
    case VaCreateSurfaces(_, _) => PerformSurface(s, call)
    case VaDestroySurfaces(_) => PerformSurface(s, call)
    case VaCreateBuffer(_) => PerformBuffer(s, call)
    case VaDestroyBuffer(_) => PerformBuffer(s, call)
    case VaMapBuffer(_, _) => PerformBuffer(s, call)
    case VaUnmapBuffer(_) => PerformBuffer(s, call)
    case VaCreateImage => PerformImage(s, call)
    case VaDeriveImage(_, _) => PerformImage(s, call)
    case VaDestroyImage(_) => PerformImage(s, call)
  }

  // ---------- Objects by id ----------

  /** An object as a client knows it: it refers to others by their ids. */
  datatype Thing =
    | AConfig(profile: nat, entrypoint: nat)
    | AContext(config: nat)
    | ASurface(context: Option<nat>, pending: bool)
    | ABuffer(context: Option<nat>, mapCount: nat)
    | AnImage(buffer: nat, surface: Option<nat>)

  // The ids of the five tables begin behind these numbers.
  const CONFIGS := 0x0100_0000
  const CONTEXTS := 0x0200_0000
  const SURFACES := 0x0300_0000
  const BUFFERS := 0x0400_0000
  const IMAGES := 0x0500_0000

  function IdIn(base: nat, slot: Option<nat>): Option<nat> {
    if slot.Some? then Some(base + slot.value + 1) else None
  }

  // The object an id names.
  function Look(s: Store, id: nat): Option<Thing> {
    if CONFIGS < id <= CONFIGS + 16 && id - CONFIGS - 1 in s.configs then
      var x := s.configs[id - CONFIGS - 1];
      Some(AConfig(x.profile, x.entrypoint))
    else if CONTEXTS < id <= CONTEXTS + 8 && id - CONTEXTS - 1 in s.contexts then
      Some(AContext(CONFIGS + s.contexts[id - CONTEXTS - 1].config + 1))
    else if SURFACES < id <= SURFACES + 64 && id - SURFACES - 1 in s.surfaces then
      var x := s.surfaces[id - SURFACES - 1];
      Some(ASurface(IdIn(CONTEXTS, x.context), x.pending))
    else if BUFFERS < id <= BUFFERS + 512 && id - BUFFERS - 1 in s.buffers then
      var x := s.buffers[id - BUFFERS - 1];
      Some(ABuffer(IdIn(CONTEXTS, x.context), x.mapCount))
    else if IMAGES < id <= IMAGES + 128 && id - IMAGES - 1 in s.images then
      var x := s.images[id - IMAGES - 1];
      Some(AnImage(BUFFERS + x.buffer + 1, IdIn(SURFACES, x.surface)))
    else None
  }

  // An id finds an object exactly when it names one of its kind.
  lemma FindLooks(s: Store, id: nat)
    ensures Find(s.configs.Keys, ConfigKind, id) ==
            if Look(s, id).Some? && Look(s, id).value.AConfig? then Some(id - CONFIGS - 1) else None
    ensures Find(s.contexts.Keys, ContextKind, id) ==
            if Look(s, id).Some? && Look(s, id).value.AContext? then Some(id - CONTEXTS - 1) else None
    ensures Find(s.surfaces.Keys, SurfaceKind, id) ==
            if Look(s, id).Some? && Look(s, id).value.ASurface? then Some(id - SURFACES - 1) else None
    ensures Find(s.buffers.Keys, BufferKind, id) ==
            if Look(s, id).Some? && Look(s, id).value.ABuffer? then Some(id - BUFFERS - 1) else None
    ensures Find(s.images.Keys, ImageKind, id) ==
            if Look(s, id).Some? && Look(s, id).value.AnImage? then Some(id - IMAGES - 1) else None
  {
  }

  predicate ConfigThere(s: Store, id: nat) {
    Look(s, id).Some? && Look(s, id).value.AConfig?
  }

  predicate ContextThere(s: Store, id: nat) {
    Look(s, id).Some? && Look(s, id).value.AContext?
  }

  predicate SurfaceThere(s: Store, id: nat) {
    Look(s, id).Some? && Look(s, id).value.ASurface?
  }

  predicate BufferThere(s: Store, id: nat) {
    Look(s, id).Some? && Look(s, id).value.ABuffer?
  }

  predicate ImageThere(s: Store, id: nat) {
    Look(s, id).Some? && Look(s, id).value.AnImage?
  }

  // ---------- What a call does ----------

  // An id of this table names nothing yet.
  ghost predicate Room(s: Store, base: nat, max: nat) {
    exists id: nat :: base < id <= base + max && Look(s, id).None?
  }

  function FreeSurfaces(s: Store): set<nat> {
    set id: nat | SURFACES < id <= SURFACES + 64 && Look(s, id).None?
  }

  // An image shows the surface.
  ghost predicate Shown(s: Store, f: nat) {
    exists i: nat :: ImageThere(s, i) && Look(s, i).value.surface == Some(f)
  }

  // The image whose buffer this is.
  predicate Pictured(s: Store, i: nat, b: nat) {
    ImageThere(s, i) && Look(s, i).value.buffer == b
  }

  ghost function HeldSurface(s: Store, f: nat): Option<Error> {
    if !SurfaceThere(s, f) then Some(NotFound)
    else if Look(s, f) != Some(ASurface(None, false)) || Shown(s, f) then Some(Busy)
    else None
  }

  ghost function HeldSurfaces(s: Store, fs: seq<nat>): Option<Error> {
    if fs == [] then None
    else
      var before := HeldSurfaces(s, fs[..|fs| - 1]);
      if before.Some? then before else HeldSurface(s, fs[|fs| - 1])
  }

  ghost function NoRoomForImage(s: Store): Option<Error> {
    if Room(s, BUFFERS, 512) && Room(s, IMAGES, 128) then None else Some(NoSpace)
  }

  // Why the call is denied, if it is.
  ghost function Verdict(s: Store, call: Call): Option<Error> {
    match call
    case VaCreateConfig(_) => if Room(s, CONFIGS, 16) then None else Some(NoSpace)
    case VaDestroyConfig(g) =>
      if !ConfigThere(s, g) then Some(NotFound)
      else if exists c: nat :: Look(s, c) == Some(AContext(g)) then Some(Busy)
      else None
    case VaCreateContext(g, targets, opens) =>
      if !ConfigThere(s, g) || exists f :: f in targets && !SurfaceThere(s, f) then Some(NotFound)
      else if !Room(s, CONTEXTS, 8) then Some(NoSpace)
      else if !opens then Some(Unsupported)
      else None
    case VaDestroyContext(c) => if ContextThere(s, c) then None else Some(NotFound)
    case VaBeginPicture(c, f) => if ContextThere(s, c) && SurfaceThere(s, f) then None else Some(NotFound)
    case EncoderSets(f, _) => if SurfaceThere(s, f) then None else Some(NotFound)
    case VaCreateSurfaces(n, available) =>
      if n == 0 || n > 64 then Some(Invalid)
      else if |FreeSurfaces(s)| < n then Some(NoSpace)
      else if available < n then Some(Busy)
      else None
    case VaDestroySurfaces(fs) => HeldSurfaces(s, fs)
    case VaCreateBuffer(c) =>
      if !ContextThere(s, c) then Some(NotFound) else if !Room(s, BUFFERS, 512) then Some(NoSpace) else None
    case VaDestroyBuffer(b) =>
      if BufferThere(s, b) && Look(s, b).value.mapCount == 0 && !exists i: nat :: Pictured(s, i, b) then None
      else Some(Invalid)
    case VaCreateImage => NoRoomForImage(s)
    case VaDeriveImage(f, ready) =>
      if !SurfaceThere(s, f) then Some(NotFound) else if !ready then Some(Busy) else NoRoomForImage(s)
    case VaDestroyImage(i) =>
      if !ImageThere(s, i) then Some(NotFound)
      else
        var b := Look(s, i).value.buffer;
        if BufferThere(s, b) && Look(s, b).value.mapCount == 0 then None else Some(Busy)
    case VaMapBuffer(b, begins) =>
      if !BufferThere(s, b) || Look(s, b).value.mapCount == UINT32_MAX then Some(Invalid)
      else if !begins && Look(s, b).value.mapCount == 0 &&
              exists i: nat :: Pictured(s, i, b) && Look(s, i).value.surface.Some? then Some(Busy)
      else None
    case VaUnmapBuffer(b) => if BufferThere(s, b) && Look(s, b).value.mapCount > 0 then None else Some(Invalid)
  }

  // A surface that is attached to the context.
  function Attached(x: Option<Thing>, c: nat): Option<Thing> {
    if x.Some? && x.value.ASurface? then Some(ASurface(Some(c), x.value.pending)) else x
  }

  // What a context takes with it, and what it lets go.
  function Bereft(x: Option<Thing>, c: nat): Option<Thing> {
    if x.None? then None
    else if x.value.ABuffer? && x.value.context == Some(c) then None
    else if x.value.ASurface? && x.value.context == Some(c) then Some(ASurface(None, false))
    else x
  }

  function Recounted(x: Option<Thing>, change: int): Option<Thing> {
    if x.Some? && x.value.ABuffer? && x.value.mapCount + change >= 0 then
      Some(ABuffer(x.value.context, x.value.mapCount + change))
    else x
  }

  function Marked(x: Option<Thing>, pending: bool): Option<Thing> {
    if x.Some? && x.value.ASurface? then Some(ASurface(x.value.context, pending)) else x
  }

  // What an id names after the call.
  function After(s: Store, call: Call, a: Answer, id: nat): Option<Thing> {
    var x := Look(s, id);
    if a.Denied? then x
    else
      match call
      case VaCreateConfig(config) => if a == Made(id) then Some(AConfig(config.profile, config.entrypoint)) else x
      case VaDestroyConfig(g) => if id == g then None else x
      case VaCreateContext(g, targets, _) =>
        if a == Made(id) then Some(AContext(g))
        else if a.Made? && id in targets then Attached(x, a.id)
        else x
      case VaDestroyContext(c) => if id == c then None else Bereft(x, c)
      case VaBeginPicture(c, f) => if id == f then Attached(x, c) else x
      case EncoderSets(f, pending) => if id == f then Marked(x, pending) else x
      case VaCreateSurfaces(_, _) => if a.MadeSurfaces? && id in a.ids then Some(ASurface(None, false)) else x
      case VaDestroySurfaces(fs) => if id in fs then None else x
      case VaCreateBuffer(c) => if a == Made(id) then Some(ABuffer(Some(c), 0)) else x
      case VaDestroyBuffer(b) => if id == b then None else x
      case VaCreateImage => AfterImage(x, None, a, id)
      case VaDeriveImage(f, _) => AfterImage(x, Some(f), a, id)
      case VaDestroyImage(i) => if id == i || Pictured(s, i, id) then None else x
      case VaMapBuffer(b, _) => if id == b then Recounted(x, 1) else x
      case VaUnmapBuffer(b) => if id == b then Recounted(x, -1) else x
  }

  function AfterImage(x: Option<Thing>, surface: Option<nat>, a: Answer, id: nat): Option<Thing> {
    if !a.MadeImage? then x
    else if id == a.image then Some(AnImage(a.buffer, surface))
    else if id == a.buffer then Some(ABuffer(None, 0))
    else x
  }

  // The call was answered as it should, by ids that named nothing before.
  predicate AnswerFits(s: Store, call: Call, a: Answer) {
    match a
    case Done =>
      call.VaDestroyConfig? || call.VaDestroyContext? || call.VaBeginPicture? || call.EncoderSets? ||
      call.VaDestroySurfaces? || call.VaDestroyBuffer? || call.VaDestroyImage? || call.VaMapBuffer? ||
      call.VaUnmapBuffer?
    case Made(id) => (call.VaCreateConfig? || call.VaCreateContext? || call.VaCreateBuffer?) && Look(s, id).None?
    case MadeSurfaces(ids) =>
      && call.VaCreateSurfaces? && |ids| == call.n && (forall k :: 0 <= k < |ids| ==> Look(s, ids[k]).None?)
      && forall j, k :: 0 <= j < k < |ids| ==> ids[j] != ids[k]
    case MadeImage(i, b) =>
      (call.VaCreateImage? || call.VaDeriveImage?) && i != b && Look(s, i).None? && Look(s, b).None?
    case Denied(_) => true
  }

  // The call is denied exactly for the verdict, and then changes nothing; otherwise every id names what it should.
  ghost predicate Effect(s: Store, call: Call) {
    var (t, a) := Perform(s, call);
    && a.Denied? == Verdict(s, call).Some? && (a.Denied? ==> Some(a.error) == Verdict(s, call) && t == s)
    && AnswerFits(s, call, a) && forall id: nat :: Look(t, id) == After(s, call, a, id)
  }

  // Every used slot has its id.
  lemma SlotsLook(s: Store)
    requires SlotsOk(s)
    ensures forall c :: c in s.contexts ==>
              Look(s, CONTEXTS + c + 1) == Some(AContext(CONFIGS + s.contexts[c].config + 1))
    ensures forall i :: i in s.images ==>
              Look(s, IMAGES + i + 1) ==
              Some(AnImage(BUFFERS + s.images[i].buffer + 1, IdIn(SURFACES, s.images[i].surface)))
  {
  }

  // There is room in a table exactly when a slot of it is free.
  lemma RoomExactly(s: Store)
    ensures Room(s, CONFIGS, 16) <==> Lowest(s.configs.Keys, 0, MAX_CONFIGS).Some?
    ensures Room(s, CONTEXTS, 8) <==> Lowest(s.contexts.Keys, 0, MAX_CONTEXTS).Some?
    ensures Room(s, BUFFERS, 512) <==> Lowest(s.buffers.Keys, 0, MAX_BUFFERS).Some?
    ensures Room(s, IMAGES, 128) <==> Lowest(s.images.Keys, 0, MAX_IMAGES).Some?
  {
    FreeIsNone(s);
    UsedIsSome(s);
    hide Look;
  }

  lemma FreeIsNone(s: Store)
    ensures forall g :: g !in s.configs && 0 <= g < 16 ==> Look(s, CONFIGS + g + 1).None?
    ensures forall c :: c !in s.contexts && 0 <= c < 8 ==> Look(s, CONTEXTS + c + 1).None?
    ensures forall b :: b !in s.buffers && 0 <= b < 512 ==> Look(s, BUFFERS + b + 1).None?
    ensures forall i :: i !in s.images && 0 <= i < 128 ==> Look(s, IMAGES + i + 1).None?
  {
  }

  lemma UsedIsSome(s: Store)
    ensures forall id: nat :: CONFIGS < id <= CONFIGS + 16 && Look(s, id).None? ==> id - CONFIGS - 1 !in s.configs
    ensures forall id: nat :: CONTEXTS < id <= CONTEXTS + 8 && Look(s, id).None? ==> id - CONTEXTS - 1 !in s.contexts
    ensures forall id: nat :: BUFFERS < id <= BUFFERS + 512 && Look(s, id).None? ==> id - BUFFERS - 1 !in s.buffers
    ensures forall id: nat :: IMAGES < id <= IMAGES + 128 && Look(s, id).None? ==> id - IMAGES - 1 !in s.images
  {
  }

  lemma ThereAre(s: Store, id: nat)
    ensures ConfigThere(s, id) ==> CONFIGS < id <= CONFIGS + 16 && id - CONFIGS - 1 in s.configs
    ensures ContextThere(s, id) ==> CONTEXTS < id <= CONTEXTS + 8 && id - CONTEXTS - 1 in s.contexts
    ensures SurfaceThere(s, id) ==> SURFACES < id <= SURFACES + 64 && id - SURFACES - 1 in s.surfaces
    ensures BufferThere(s, id) ==> BUFFERS < id <= BUFFERS + 512 && id - BUFFERS - 1 in s.buffers
    ensures ImageThere(s, id) ==> IMAGES < id <= IMAGES + 128 && id - IMAGES - 1 in s.images
  {
  }

  // Only the object in one slot of a table changes.
  lemma ConfigLooks(s: Store, t: Store, g: nat)
    requires t == s.(configs := t.configs) && g < 16
    requires forall k :: k != g ==>
      (k in t.configs <==> k in s.configs) && (k in s.configs ==> t.configs[k] == s.configs[k])
    ensures Look(t, CONFIGS + g + 1) ==
            if g in t.configs then Some(AConfig(t.configs[g].profile, t.configs[g].entrypoint)) else None
    ensures forall id: nat :: id != CONFIGS + g + 1 ==> Look(t, id) == Look(s, id)
  {
  }

  lemma BufferLooks(s: Store, t: Store, b: nat)
    requires t == s.(buffers := t.buffers) && b < 512
    requires forall k :: k != b ==>
      (k in t.buffers <==> k in s.buffers) && (k in s.buffers ==> t.buffers[k] == s.buffers[k])
    ensures Look(t, BUFFERS + b + 1) ==
            if b in t.buffers then Some(ABuffer(IdIn(CONTEXTS, t.buffers[b].context), t.buffers[b].mapCount)) else None
    ensures forall id: nat :: id != BUFFERS + b + 1 ==> Look(t, id) == Look(s, id)
  {
  }

  lemma ConfigCreated(s: Store, x: Config)
    ensures Effect(s, VaCreateConfig(x))
  {
    hide Room, Look,
      PerformContext, PerformSurface, PerformBuffer, PerformImage;
    RoomExactly(s);
    FreeIsNone(s);
    var slot := Lowest(s.configs.Keys, 0, MAX_CONFIGS);
    if slot.Some? {
      ConfigLooks(s, CreateConfig(s, x).0, slot.value);
    }
  }

  lemma ConfigDestroyed(s: Store, g: nat)
    requires Inv(s)
    ensures Effect(s, VaDestroyConfig(g))
  {
    hide BracketsCount, BuffersUnshared, Linked, Find, Look,
      PerformContext, PerformSurface, PerformBuffer, PerformImage;
    FindLooks(s, g);
    ThereAre(s, g);
    SlotsLook(s);
    if ConfigThere(s, g) {
      ConfigLooks(s, s.(configs := s.configs - {g - CONFIGS - 1}), g - CONFIGS - 1);
      if c :| c in s.contexts && s.contexts[c].config == g - CONFIGS - 1 {
        assert Look(s, CONTEXTS + c + 1) == Some(AContext(g));
      }
      if c: nat :| Look(s, c) == Some(AContext(g)) {
        ThereAre(s, c);
        assert c - CONTEXTS - 1 in s.contexts;
      }
    }
  }

  lemma ContextDestroyed(s: Store, c: nat)
    requires Inv(s)
    ensures Effect(s, VaDestroyContext(c))
  {
    hide BracketsCount, BuffersUnshared, Find,
      PerformConfig, PerformSurface, PerformBuffer, PerformImage;
    FindLooks(s, c);
  }

  lemma PictureBegun(s: Store, c: nat, f: nat)
    requires Inv(s)
    ensures Effect(s, VaBeginPicture(c, f))
  {
    hide BracketsCount, BuffersUnshared, Find,
      PerformConfig, PerformSurface, PerformBuffer, PerformImage;
    FindLooks(s, c);
    FindLooks(s, f);
  }

  lemma PendingSet(s: Store, f: nat, pending: bool)
    requires Inv(s)
    ensures Effect(s, EncoderSets(f, pending))
  {
    hide BracketsCount, BuffersUnshared, Find,
      PerformConfig, PerformContext, PerformBuffer, PerformImage;
    FindLooks(s, f);
  }

  lemma BufferCreated(s: Store, c: nat)
    requires Inv(s)
    ensures Effect(s, VaCreateBuffer(c))
  {
    hide Inv, Look, Find, Room,
      PerformConfig, PerformContext, PerformSurface, PerformImage,
      HeldSurfaces, FreeSurfaces, NoRoomForImage, Pictured, Recounted, Marked, Bereft, AfterImage, Attached,
      AnswerDone, AnswerSurfaces, AnswerImage, Lowest;
    FindLooks(s, c);
    ThereAre(s, c);
    RoomExactly(s);
    FreeIsNone(s);
    var slot := Lowest(s.buffers.Keys, 0, MAX_BUFFERS);
    if ContextThere(s, c) && slot.Some? {
      BufferLooks(s, CreateBuffer(s, c - CONTEXTS - 1).0, slot.value);
    }
  }

  lemma BufferDestroyed(s: Store, b: nat)
    requires Inv(s)
    ensures Effect(s, VaDestroyBuffer(b))
  {
    hide Inv, Look, Find, PerformConfig, PerformContext, PerformSurface, PerformImage;
    InvSlots(s);
    FindLooks(s, b);
    ThereAre(s, b);
    SlotsLook(s);
    if BufferThere(s, b) {
      if i :| i in s.images && s.images[i].buffer == b - BUFFERS - 1 {
        assert Pictured(s, IMAGES + i + 1, b);
      }
      if i: nat :| Pictured(s, i, b) {
        ThereAre(s, i);
        assert i - IMAGES - 1 in s.images;
      }
      BufferLooks(s, s.(buffers := s.buffers - {b - BUFFERS - 1}), b - BUFFERS - 1);
      BufferIs(s, b);
    }
  }

  lemma BufferIs(s: Store, b: nat)
    requires BufferThere(s, b)
    ensures b > BUFFERS && b - BUFFERS - 1 in s.buffers
    ensures
      var x := s.buffers[b - BUFFERS - 1];
      Look(s, b) == Some(ABuffer(IdIn(CONTEXTS, x.context), x.mapCount))
  {
  }

  // The map count of buffer b is n in t, and nothing else changed but brackets.
  predicate Remapped(s: Store, t: Store, b: nat, n: nat) {
    && b in s.buffers && t == s.(buffers := s.buffers[b := s.buffers[b].(mapCount := n)], surfaces := t.surfaces)
    && t.surfaces.Keys == s.surfaces.Keys
    && forall f :: f in s.surfaces ==> t.surfaces[f] == s.surfaces[f].(brackets := t.surfaces[f].brackets)
  }

  lemma MapIs(s: Store, b: nat, begins: bool)
    requires b in s.buffers
    ensures
      var (t, o) := Map(s, b, begins);
      var n := s.buffers[b].mapCount;
      && o == (if n == UINT32_MAX then Fail(Invalid)
               else if !begins && n == 0 && SurfaceOf(s, b, 0).Some? then Fail(Busy) else Pass)
      && if o.Pass? then Remapped(s, t, b, n + 1) else t == s
  {
    hide SurfaceOf;
  }

  lemma UnmapIs(s: Store, b: nat)
    requires b in s.buffers
    ensures
      var (t, o) := Unmap(s, b);
      var n := s.buffers[b].mapCount;
      o == (if n == 0 then Fail(Invalid) else Pass) && if o.Pass? then Remapped(s, t, b, n - 1) else t == s
  {
    hide SurfaceOf;
  }

  lemma RemappedLooks(s: Store, t: Store, b: nat, n: nat)
    requires BufferThere(s, b) && b > BUFFERS && Remapped(s, t, b - BUFFERS - 1, n)
    ensures forall id: nat :: Look(t, id) == if id == b then Some(Look(s, b).value.(mapCount := n)) else Look(s, id)
  {
  }

  lemma BufferUnmapped(s: Store, b: nat)
    requires Inv(s)
    ensures Effect(s, VaUnmapBuffer(b))
  {
    hide Inv, Look, Find, Unmap, Remapped, PerformConfig, PerformContext, PerformSurface, PerformImage;
    FindLooks(s, b);
    if BufferThere(s, b) {
      BufferIs(s, b);
      var slot := b - BUFFERS - 1;
      UnmapIs(s, slot);
      if s.buffers[slot].mapCount > 0 {
        RemappedLooks(s, Unmap(s, slot).0, b, s.buffers[slot].mapCount - 1);
      }
    }
  }

  // A buffer shows a surface exactly when a derived image has it.
  lemma ShowsExactly(s: Store, b: nat)
    requires Inv(s) && BufferThere(s, b)
    ensures SurfaceOf(s, b - BUFFERS - 1, 0).Some? <==>
            exists i: nat :: Pictured(s, i, b) && Look(s, i).value.surface.Some?
  {
    hide BracketsCount, SurfaceOf;
    SurfaceOfIs(s, b - BUFFERS - 1, 0);
    SlotsLook(s);
    if SurfaceOf(s, b - BUFFERS - 1, 0).Some? {
      SurfaceIs(s, b - BUFFERS - 1);
      var i :| i in s.images && s.images[i].buffer == b - BUFFERS - 1;
      assert Pictured(s, IMAGES + i + 1, b) && Look(s, IMAGES + i + 1).value.surface.Some?;
    }
    if i: nat :| Pictured(s, i, b) && Look(s, i).value.surface.Some? {
      assert i - IMAGES - 1 in s.images;
    }
  }

  lemma BufferMapped(s: Store, b: nat, begins: bool)
    requires Inv(s)
    ensures Effect(s, VaMapBuffer(b, begins))
  {
    hide Inv, Look, Find, Map, Remapped, SurfaceOf, PerformConfig, PerformContext, PerformSurface, PerformImage;
    FindLooks(s, b);
    if BufferThere(s, b) {
      ShowsExactly(s, b);
      BufferIs(s, b);
      var slot := b - BUFFERS - 1;
      MapIs(s, slot, begins);
      if Map(s, slot, begins).1.Pass? {
        RemappedLooks(s, Map(s, slot, begins).0, b, s.buffers[slot].mapCount + 1);
      }
    }
  }

  lemma ImageAddedLooks(s: Store, t: Store, i: nat, b: nat, surface: Option<nat>)
    requires ImageAdded(s, t, i, b, surface)
    ensures Look(s, IMAGES + i + 1).None? && Look(s, BUFFERS + b + 1).None?
    ensures forall id: nat ::
              Look(t, id) ==
              if id == IMAGES + i + 1 then Some(AnImage(BUFFERS + b + 1, IdIn(SURFACES, surface)))
              else if id == BUFFERS + b + 1 then Some(ABuffer(None, 0))
              else Look(s, id)
  {
  }

  lemma ImageCreated(s: Store)
    requires Inv(s)
    ensures Effect(s, VaCreateImage)
  {
    hide Inv, Look, Room, Find,
      PerformConfig, PerformContext, PerformSurface, PerformBuffer;
    RoomExactly(s);
    var b, i := Lowest(s.buffers.Keys, 0, MAX_BUFFERS), Lowest(s.images.Keys, 0, MAX_IMAGES);
    if b.Some? && i.Some? {
      ImageAddedLooks(s, CreateImage(s, None).0, i.value, b.value, None);
    }
  }

  lemma ImageDerived(s: Store, f: nat, ready: bool)
    requires Inv(s)
    ensures Effect(s, VaDeriveImage(f, ready))
  {
    hide Inv, Look, Room, Find,
      PerformConfig, PerformContext, PerformSurface, PerformBuffer,
      HeldSurfaces, FreeSurfaces, Pictured, Recounted, Marked, Bereft, Attached, AnswerDone, AnswerMade, AnswerSurfaces;
    FindLooks(s, f);
    ThereAre(s, f);
    RoomExactly(s);
    var b, i := Lowest(s.buffers.Keys, 0, MAX_BUFFERS), Lowest(s.images.Keys, 0, MAX_IMAGES);
    if SurfaceThere(s, f) && b.Some? && i.Some? {
      ImageAddedLooks(s, CreateImage(s, Some(f - SURFACES - 1)).0, i.value, b.value, Some(f - SURFACES - 1));
    }
  }

  lemma ImageDestroyed(s: Store, i: nat)
    requires Inv(s)
    ensures Effect(s, VaDestroyImage(i))
  {
    hide BracketsCount, BuffersUnshared, Find,
      PerformConfig, PerformContext, PerformSurface, PerformBuffer;
    FindLooks(s, i);
  }

  // ---------- Several surfaces at once ----------

  lemma SnocHas(ids: seq<nat>)
    requires ids != []
    ensures forall f :: f in ids <==> f in ids[..|ids| - 1] || f == ids[|ids| - 1]
  {
    assert ids == ids[..|ids| - 1] + [ids[|ids| - 1]];
  }

  lemma {:induction false} FindAllLooks(s: Store, ids: seq<nat>)
    ensures
      var slots := FindAll(s.surfaces.Keys, SurfaceKind, ids);
      && (slots.Some? <==> forall f :: f in ids ==> SurfaceThere(s, f))
      && (slots.Some? ==> forall k :: 0 <= k < |ids| ==> ids[k] > SURFACES && slots.value[k] == ids[k] - SURFACES - 1)
  {
    hide Look, Find;
    if ids != [] {
      var n := |ids| - 1;
      FindAllLooks(s, ids[..n]);
      FindLooks(s, ids[n]);
      ThereAre(s, ids[n]);
      SnocHas(ids);
    }
  }

  lemma {:induction false} AttachIs(surfaces: map<nat, Surface>, c: nat, targets: seq<nat>)
    requires forall t :: t in targets ==> t in surfaces
    ensures forall f :: f in surfaces ==>
              Attach(surfaces, c, targets)[f] ==
              if f in targets then surfaces[f].(context := Some(c)) else surfaces[f]
  {
    if targets != [] {
      AttachIs(surfaces, c, targets[..|targets| - 1]);
    }
  }

  // The ids are those of the slots.
  predicate Name(ids: seq<nat>, slots: seq<nat>) {
    |slots| == |ids| && forall k :: 0 <= k < |ids| ==> ids[k] == SURFACES + slots[k] + 1
  }

  lemma NamedSame(ids: seq<nat>, slots: seq<nat>, f: nat)
    requires Name(ids, slots)
    ensures SURFACES + f + 1 in ids <==> f in slots
  {
    if SURFACES + f + 1 in ids {
      var k :| 0 <= k < |ids| && ids[k] == SURFACES + f + 1;
      assert slots[k] == f;
    }
    if f in slots {
      var k :| 0 <= k < |slots| && slots[k] == f;
      assert ids[k] == SURFACES + f + 1;
    }
  }

  lemma ContextAddedLooks(s: Store, t: Store, g: nat, c: nat, ids: seq<nat>, slots: seq<nat>)
    requires c !in s.contexts && c < 8 && Name(ids, slots) && t.surfaces.Keys == s.surfaces.Keys
    requires t == s.(contexts := s.contexts[c := Context(g)], surfaces := t.surfaces)
    requires forall f :: f in s.surfaces ==>
      t.surfaces[f] == if f in slots then s.surfaces[f].(context := Some(c)) else s.surfaces[f]
    ensures Look(s, CONTEXTS + c + 1).None?
    ensures forall id: nat ::
              Look(t, id) ==
              if id == CONTEXTS + c + 1 then Some(AContext(CONFIGS + g + 1))
              else if id in ids then Attached(Look(s, id), CONTEXTS + c + 1)
              else Look(s, id)
  {
    forall id: nat
      ensures
        Look(t, id) ==
        if id == CONTEXTS + c + 1 then Some(AContext(CONFIGS + g + 1))
        else if id in ids then Attached(Look(s, id), CONTEXTS + c + 1)
        else Look(s, id)
    {
      if SURFACES < id {
        NamedSame(ids, slots, id - SURFACES - 1);
      }
    }
  }

  lemma ContextCreated(s: Store, g: nat, targets: seq<nat>, opens: bool)
    requires Inv(s)
    ensures Effect(s, VaCreateContext(g, targets, opens))
  {
    hide Inv, Look, Find, Room, Attach,
      PerformConfig, PerformSurface, PerformBuffer, PerformImage,
      HeldSurfaces, FreeSurfaces, NoRoomForImage, Pictured, Recounted, Marked, Bereft, AfterImage, AnswerDone,
      AnswerSurfaces, AnswerImage, Lowest, Name;
    FindLooks(s, g);
    ThereAre(s, g);
    FindAllLooks(s, targets);
    RoomExactly(s);
    var slots, c := FindAll(s.surfaces.Keys, SurfaceKind, targets), Lowest(s.contexts.Keys, 0, MAX_CONTEXTS);
    if ConfigThere(s, g) && slots.Some? && c.Some? && opens {
      AttachIs(s.surfaces, c.value, slots.value);
      var t := CreateContext(s, g - CONFIGS - 1, slots.value, opens).0;
      ContextAddedLooks(s, t, g - CONFIGS - 1, c.value, targets, slots.value);
    }
  }

  // t has the surfaces and new ones in these free slots, which ascend.
  ghost predicate Added(surfaces: map<nat, Surface>, from: nat, t: map<nat, Surface>, slots: seq<nat>) {
    && (forall k :: k in slots ==> from <= k < MAX_SURFACES && k !in surfaces)
    && (forall j, k :: 0 <= j < k < |slots| ==> slots[j] < slots[k])
    && (forall k :: k in t <==> k in surfaces || k in slots)
    && (forall k :: k in surfaces ==> t[k] == surfaces[k])
    && (forall k :: k in slots ==> t[k] == NEW_SURFACE)
  }

  lemma AddedFirst(surfaces: map<nat, Surface>, from: nat, slot: nat, t: map<nat, Surface>, rest: seq<nat>)
    requires from <= slot < MAX_SURFACES && slot !in surfaces
    requires Added(surfaces[slot := NEW_SURFACE], slot + 1, t, rest)
    ensures Added(surfaces, from, t, [slot] + rest)
  {
    var slots := [slot] + rest;
    assert forall k :: k in slots <==> k == slot || k in rest;
    forall j, k | 0 <= j < k < |slots| ensures slots[j] < slots[k] {
      assert slots[k] == rest[k - 1] && rest[k - 1] in rest;
    }
    assert t[slot] == surfaces[slot := NEW_SURFACE][slot];
  }

  lemma NothingAdded(surfaces: map<nat, Surface>, from: nat)
    ensures Added(surfaces, from, surfaces, [])
  {
  }

  lemma {:induction false} AddedAre(surfaces: map<nat, Surface>, from: nat, n: nat)
    ensures
      var r := AddSurfaces(surfaces, from, n);
      r.Some? ==> |r.value.1| == n && Added(surfaces, from, r.value.0, r.value.1)
    decreases n
  {
    hide Added;
    if n == 0 {
      NothingAdded(surfaces, from);
    } else {
      var slot := Lowest(surfaces.Keys, from, MAX_SURFACES);
      if slot.Some? {
        var more := surfaces[slot.value := NEW_SURFACE];
        AddedAre(more, slot.value + 1, n - 1);
        var rest := AddSurfaces(more, slot.value + 1, n - 1);
        if rest.Some? {
          AddedFirst(surfaces, from, slot.value, rest.value.0, rest.value.1);
        }
      }
    }
  }

  // The free slots from this one up.
  function FreeSlots(used: set<nat>, from: nat): set<nat> {
    set slot: nat | from <= slot < MAX_SURFACES && slot !in used
  }

  lemma {:induction false} FreeCounted(used: set<nat>, from: nat)
    ensures FreeCount(used, from) == |FreeSlots(used, from)|
    decreases MAX_SURFACES - from
  {
    if from < MAX_SURFACES {
      FreeCounted(used, from + 1);
      var rest := FreeSlots(used, from + 1);
      assert FreeSlots(used, from) == if from in used then rest else rest + {from};
    } else {
      assert FreeSlots(used, from) == {};
    }
  }

  lemma {:induction false} SameSize(slots: set<nat>, ids: set<nat>)
    requires forall slot: nat :: slot in slots <==> SURFACES + slot + 1 in ids
    requires forall id :: id in ids ==> id > SURFACES
    ensures |ids| == |slots|
    decreases |slots|
  {
    if slot :| slot in slots {
      SameSize(slots - {slot}, ids - {SURFACES + slot + 1});
    } else {
      forall id: nat ensures id !in ids {
        if id > SURFACES {
          assert id - SURFACES - 1 !in slots;
        }
      }
    }
  }

  lemma FreeExactly(s: Store)
    ensures |FreeSurfaces(s)| == FreeCount(s.surfaces.Keys, 0)
  {
    FreeCounted(s.surfaces.Keys, 0);
    SameSize(FreeSlots(s.surfaces.Keys, 0), FreeSurfaces(s));
  }

  lemma SurfacesAddedLooks(s: Store, t: Store, ids: seq<nat>, slots: seq<nat>)
    requires Name(ids, slots) && t == s.(surfaces := t.surfaces)
    requires forall k :: k in slots ==> k < 64 && k !in s.surfaces
    requires forall k :: k in t.surfaces <==> k in s.surfaces || k in slots
    requires forall k :: k in t.surfaces ==> t.surfaces[k] == if k in s.surfaces then s.surfaces[k] else NEW_SURFACE
    ensures forall k :: 0 <= k < |ids| ==> Look(s, ids[k]).None?
    ensures forall id: nat :: Look(t, id) == if id in ids then Some(ASurface(None, false)) else Look(s, id)
  {
    forall id: nat ensures Look(t, id) == if id in ids then Some(ASurface(None, false)) else Look(s, id) {
      if SURFACES < id {
        NamedSame(ids, slots, id - SURFACES - 1);
      }
    }
    forall k | 0 <= k < |ids| ensures Look(s, ids[k]).None? {
      assert slots[k] in slots;
    }
  }

  lemma SurfacesCreated(s: Store, n: nat, available: nat)
    ensures Effect(s, VaCreateSurfaces(n, available))
  {
    hide Look, AddSurfaces, FreeCount,
      PerformConfig, PerformContext, PerformBuffer, PerformImage;
    FreeExactly(s);
    EnoughFree(s.surfaces, 0, n);
    AddedAre(s.surfaces, 0, n);
    var added := AddSurfaces(s.surfaces, 0, n);
    if added.Some? {
      SurfacesAddedLooks(s, s.(surfaces := added.value.0), Ids(SurfaceKind, added.value.1), added.value.1);
    }
  }

  lemma HeldExactly(s: Store, f: nat)
    requires SlotsOk(s) && SurfaceThere(s, f)
    ensures f > SURFACES && (HeldSurface(s, f).None? <==> Destroyable(s, f - SURFACES - 1))
    ensures HeldSurface(s, f) != Some(NotFound)
  {
    SlotsLook(s);
    if i :| i in s.images && s.images[i].surface == Some(f - SURFACES - 1) {
      assert ImageThere(s, IMAGES + i + 1);
    }
    if i: nat :| ImageThere(s, i) && Look(s, i).value.surface == Some(f) {
      assert i - IMAGES - 1 in s.images;
    }
  }

  lemma {:induction false} ObstacleIs(s: Store, ids: seq<nat>)
    requires SlotsOk(s)
    ensures Obstacle(s, ids) == HeldSurfaces(s, ids)
  {
    hide Look, Find, Destroyable, HeldSurface;
    if ids != [] {
      var f := ids[|ids| - 1];
      ObstacleIs(s, ids[..|ids| - 1]);
      FindLooks(s, f);
      if SurfaceThere(s, f) {
        HeldExactly(s, f);
        HeldOrNot(s, f);
      } else {
        HeldOrNot(s, f);
      }
    }
  }

  lemma HeldOrNot(s: Store, f: nat)
    ensures HeldSurface(s, f) == Some(NotFound) <==> !SurfaceThere(s, f)
    ensures HeldSurface(s, f).None? || HeldSurface(s, f) == Some(NotFound) || HeldSurface(s, f) == Some(Busy)
  {
  }

  lemma SurfacesRemovedLooks(s: Store, t: Store, ids: seq<nat>, slots: seq<nat>)
    requires Name(ids, slots) && t == s.(surfaces := s.surfaces - set f | f in slots)
    requires forall f :: f in slots ==> f < 64
    ensures forall id: nat :: Look(t, id) == if id in ids then None else Look(s, id)
  {
    forall id: nat ensures Look(t, id) == if id in ids then None else Look(s, id) {
      if SURFACES < id {
        NamedSame(ids, slots, id - SURFACES - 1);
      }
    }
  }

  lemma SurfacesDestroyed(s: Store, ids: seq<nat>)
    requires Inv(s)
    ensures Effect(s, VaDestroySurfaces(ids))
  {
    hide Inv, Look, Find, Obstacle, HeldSurfaces, Destroyable,
      PerformConfig, PerformContext, PerformBuffer, PerformImage;
    InvSlots(s);
    ObstacleIs(s, ids);
    if Obstacle(s, ids).None? {
      NoObstacle(s, ids);
      FindAllLooks(s, ids);
      var slots := FindAll(s.surfaces.Keys, SurfaceKind, ids).value;
      assert forall f :: f in slots ==> f in s.surfaces;
      SurfacesRemovedLooks(s, DestroySurfaces(s, slots).0, ids, slots);
    }
  }

  lemma InvSlots(s: Store)
    requires Inv(s)
    ensures SlotsOk(s)
  {
  }

  // What every call does to every object: by ids, whatever the slots.
  lemma CallDoes(s: Store, call: Call)
    requires Inv(s)
    ensures Effect(s, call)
  {
    hide Inv, Effect;
    match call
    case VaCreateConfig(x) => ConfigCreated(s, x);
    case VaDestroyConfig(g) => ConfigDestroyed(s, g);
    case VaCreateContext(g, targets, opens) => ContextCreated(s, g, targets, opens);
    case VaDestroyContext(c) => ContextDestroyed(s, c);
    case VaBeginPicture(c, f) => PictureBegun(s, c, f);
    case EncoderSets(f, pending) => PendingSet(s, f, pending);
    case VaCreateSurfaces(n, available) => SurfacesCreated(s, n, available);
    case VaDestroySurfaces(fs) => SurfacesDestroyed(s, fs);
    case VaCreateBuffer(c) => BufferCreated(s, c);
    case VaDestroyBuffer(b) => BufferDestroyed(s, b);
    case VaCreateImage => ImageCreated(s);
    case VaDeriveImage(f, ready) => ImageDerived(s, f, ready);
    case VaDestroyImage(i) => ImageDestroyed(s, i);
    case VaMapBuffer(b, begins) => BufferMapped(s, b, begins);
    case VaUnmapBuffer(b) => BufferUnmapped(s, b);
  }

  lemma PerformKeeps(s: Store, call: Call)
    requires Inv(s)
    ensures Inv(Perform(s, call).0)
  {
    hide Inv, CreateConfig, DestroyConfig, CreateContext, DestroyContext, BeginPicture, SetPending, CreateSurfaces,
      DestroySurfaces, CreateBuffer, DestroyBuffer, CreateImage, DestroyImage, Map, Unmap, Find, FindAll, Obstacle;
    match call
    case VaCreateConfig(x) => CreateConfigKeeps(s, x);
    case VaDestroyConfig(id) =>
      var g := Find(s.configs.Keys, ConfigKind, id);
      if g.Some? {
        DestroyConfigKeeps(s, g.value);
      }
    case VaCreateContext(config, targets, opens) =>
      var g, fs := Find(s.configs.Keys, ConfigKind, config), FindAll(s.surfaces.Keys, SurfaceKind, targets);
      if g.Some? && fs.Some? {
        CreateContextKeeps(s, g.value, fs.value, opens);
      }
    case VaDestroyContext(id) =>
      var c := Find(s.contexts.Keys, ContextKind, id);
      if c.Some? {
        DestroyContextKeeps(s, c.value);
      }
    case VaBeginPicture(context, surface) =>
      var c, f := Find(s.contexts.Keys, ContextKind, context), Find(s.surfaces.Keys, SurfaceKind, surface);
      if c.Some? && f.Some? {
        BeginPictureKeeps(s, c.value, f.value);
      }
    case EncoderSets(surface, pending) =>
      var f := Find(s.surfaces.Keys, SurfaceKind, surface);
      if f.Some? {
        SetPendingKeeps(s, f.value, pending);
      }
    case VaCreateSurfaces(n, available) => CreateSurfacesKeeps(s, n, available);
    case VaDestroySurfaces(ids) =>
      if Obstacle(s, ids).None? {
        NoObstacle(s, ids);
        DestroySurfacesKeeps(s, FindAll(s.surfaces.Keys, SurfaceKind, ids).value);
      }
    case VaCreateBuffer(context) =>
      var c := Find(s.contexts.Keys, ContextKind, context);
      if c.Some? {
        CreateBufferKeeps(s, c.value);
      }
    case VaDestroyBuffer(id) =>
      var b := Find(s.buffers.Keys, BufferKind, id);
      if b.Some? {
        DestroyBufferKeeps(s, b.value);
      }
    case VaCreateImage => CreateImageKeeps(s, None);
    case VaDeriveImage(surface, ready) => CreateImageKeeps(s, Find(s.surfaces.Keys, SurfaceKind, surface));
    case VaDestroyImage(id) =>
      var i := Find(s.images.Keys, ImageKind, id);
      if i.Some? {
        DestroyImageKeeps(s, i.value);
      }
    case VaMapBuffer(id, begins) =>
      var b := Find(s.buffers.Keys, BufferKind, id);
      if b.Some? {
        MapKeeps(s, b.value, begins);
      }
    case VaUnmapBuffer(id) =>
      var b := Find(s.buffers.Keys, BufferKind, id);
      if b.Some? {
        UnmapKeeps(s, b.value);
      }
  }
}
