/**
  The encode side of one context as a value, and what each locked region does to it: src/encode.c.
  A buffer or surface is named by its slot.
 */
module EncodeState {
  import opened Bitstring
  import opened Limits
  import opened Wrappers

  const MICROSECONDS := 1_000_000
  const TWO_64 := 0x1_0000_0000_0000_0000

  /** A buffer slot; what a coded buffer holds of its frame. */
  datatype Buffer = Buffer(
    used: bool, coded: bool, context: nat, capacity: nat,
    ready: bool, delivered: bool, inputDone: bool, contents: seq<byte>, packets: nat,
    sequence: nat, tag: nat, source: Option<nat>, overflowed: bool, damaged: bool)

  datatype Surface = Surface(used: bool, ready: bool, pending: bool, codedBuffer: Option<nat>)

  /** The queue lists coded buffers in submission order. */
  datatype State = State(
    queue: seq<nat>, buffers: seq<Buffer>, surfaces: seq<Surface>, sequence: nat, delivery: nat)

  /** What the hardware reports: a packet of a frame, or that a frame's input was consumed. */
  datatype Event = Packet(tag: nat, data: seq<byte>, final: bool, damaged: bool) | InputDone(tag: nat)

  // ---------- Tags ----------

  // encode_sequence skips zero when it wraps.
  function NextSequence(n: nat): nat {
    if n + 1 == TWO_64 then 1 else n + 1
  }

  // 1 + (sequence - 1) * 1000000 / fps in 64-bit arithmetic.
  function FrameTag(sequence: nat, fps: nat): (tag: nat)
    requires sequence > 0 && fps > 0
    ensures tag < TWO_64
  {
    (1 + ((sequence - 1) * MICROSECONDS % TWO_64) / fps) % TWO_64
  }

  // The last frame whose product does not wrap.
  const MAX_FRAMES := (TWO_64 - 1) / MICROSECONDS + 1

  lemma TagValue(n: nat, fps: nat)
    requires 0 < n <= MAX_FRAMES && fps > 0
    ensures 0 <= (n - 1) * MICROSECONDS < TWO_64
    ensures FrameTag(n, fps) == 1 + (n - 1) * MICROSECONDS / fps
  {
    var x := (n - 1) * MICROSECONDS;
    assert x < TWO_64 - 1;
    QuotientSmall(x, fps);
  }

  lemma QuotientSmall(x: nat, d: nat)
    requires d > 0
    ensures x / d <= x
  {
    if x / d > x {
      ProductMonotonic(1, d, x / d);
    }
  }

  lemma QuotientStep(x: nat, step: nat, d: nat)
    requires 0 < d <= step
    ensures x / d < (x + step) / d
  {
    var q := x / d;
    assert x + step >= q * d + d == (q + 1) * d;
    if (x + step) / d <= q {
      ProductMonotonic((x + step) / d, q, d);
    }
  }

  lemma NextTagIsLarger(n: nat, fps: nat)
    requires 0 < n < MAX_FRAMES && 0 < fps <= MICROSECONDS
    ensures 0 < FrameTag(n, fps) < FrameTag(n + 1, fps)
  {
    hide FrameTag;
    TagValue(n, fps);
    TagValue(n + 1, fps);
    QuotientStep((n - 1) * MICROSECONDS, MICROSECONDS, fps);
  }

  // Up to the wrap, tags of frames at up to a million per second strictly increase, and none is zero.
  lemma {:induction false} TagsIncrease(m: nat, n: nat, fps: nat)
    requires 0 < m < n <= MAX_FRAMES && 0 < fps <= MICROSECONDS
    ensures 0 < FrameTag(m, fps) < FrameTag(n, fps)
    decreases n
  {
    hide FrameTag;
    NextTagIsLarger(n - 1, fps);
    if m < n - 1 {
      TagsIncrease(m, n - 1, fps);
    }
  }

  // The first frame behind the wrap gets a smaller tag than the frame before it.
  lemma TagWraps(fps: nat)
    requires 0 < fps <= 240
    ensures FrameTag(MAX_FRAMES + 1, fps) < FrameTag(MAX_FRAMES, fps)
  {
    TagValue(MAX_FRAMES, fps);
    var x, y := (MAX_FRAMES - 1) * MICROSECONDS, MAX_FRAMES * MICROSECONDS % TWO_64;
    assert y == 448384 && x == 18446744073709000000;
    assert y + 240 <= x;
    QuotientSmall(y, fps);
    assert y / fps < x / fps by {
      QuotientStep(y, x - y, fps);
    }
  }

  // The tag travels as seconds and microseconds and comes back.
  lemma TagTravels(tag: uint64)
    ensures tag / MICROSECONDS < 0x8000_0000_0000_0000
    ensures (tag / MICROSECONDS) * MICROSECONDS + tag % MICROSECONDS == tag
  {
  }

  // ---------- Regions ----------

  predicate Live(buffers: seq<Buffer>, id: nat) {
    id < |buffers| && buffers[id].used
  }

  predicate LiveSurface(surfaces: seq<Surface>, id: nat) {
    id < |surfaces| && surfaces[id].used
  }

  // venus_encode_queue_coded_buffer_locked
  function Queue(s: State, context: nat, id: nat, tag: nat): (State, Outcome) {
    if tag == 0 then (s, Fail(Invalid))
    else if |s.queue| >= MAX_SURFACES then (s, Fail(NoSpace))
    else if !Live(s.buffers, id) || !s.buffers[id].coded || s.buffers[id].context != context then (s, Fail(NotFound))
    else if id in s.queue then (s, Fail(Already))
    else
      (s.(queue := s.queue + [id],
          buffers := s.buffers[id := s.buffers[id].(sequence := s.sequence, tag := tag)]), Pass)
  }

  predicate Matches(buffers: seq<Buffer>, id: nat, tag: nat) {
    Live(buffers, id) && buffers[id].coded && buffers[id].tag == tag
  }

  // The first queued buffer that waits for this tag.
  function FirstTagged(queue: seq<nat>, buffers: seq<Buffer>, tag: nat): (r: Option<nat>)
    ensures r.Some? ==> r.value < |queue| && Matches(buffers, queue[r.value], tag)
    ensures r.Some? ==> forall k :: 0 <= k < r.value ==> !Matches(buffers, queue[k], tag)
    ensures r.None? ==> forall k :: 0 <= k < |queue| ==> !Matches(buffers, queue[k], tag)
  {
    if queue == [] then None
    else if Matches(buffers, queue[0], tag) then Some(0)
    else
      var rest := FirstTagged(queue[1..], buffers, tag);
      if rest.None? then None else Some(rest.value + 1)
  }

  function Remove<T>(s: seq<T>, k: nat): (r: seq<T>)
    requires k < |s|
    ensures |r| == |s| - 1
  {
    s[..k] + s[k + 1..]
  }

  // The surface that buffer id was filled from waits for this buffer.
  predicate LinkedTo(surfaces: seq<Surface>, id: nat, b: Buffer) {
    b.source.Some? && LiveSurface(surfaces, b.source.value) && surfaces[b.source.value].codedBuffer == Some(id)
  }

  // A surface whose frame is complete on both sides is no longer pending.
  function Settle(surfaces: seq<Surface>, id: nat, b: Buffer): (r: seq<Surface>)
    ensures |r| == |surfaces|
  {
    if LinkedTo(surfaces, id, b) && b.ready && b.inputDone then
      surfaces[b.source.value := surfaces[b.source.value].(pending := false)]
    else surfaces
  }

  // The buffer with one more packet.
  function Filled(b: Buffer, data: seq<byte>, final: bool, damaged: bool): Buffer {
    b.(contents := b.contents + data, packets := b.packets + 1, damaged := b.damaged || damaged,
       ready := b.ready || final)
  }

  function Overflowed(b: Buffer): Buffer {
    b.(overflowed := true)
  }

  function Consumed(b: Buffer): Buffer {
    b.(inputDone := true)
  }

  // The queued buffer at k takes a packet, or has no room for it.
  function StoreAt(s: State, k: nat, data: seq<byte>, final: bool, damaged: bool): (State, Outcome)
    requires k < |s.queue| && s.queue[k] < |s.buffers|
  {
    var id := s.queue[k];
    var b := s.buffers[id];
    if |b.contents| + |data| > b.capacity then
      (s.(buffers := s.buffers[id := Overflowed(b)]), Fail(NoSpace))
    else
      var b' := Filled(b, data, final, damaged);
      if !final then (s.(buffers := s.buffers[id := b']), Pass)
      else
        (s.(queue := Remove(s.queue, k), buffers := s.buffers[id := b'], surfaces := Settle(s.surfaces, id, b')), Pass)
  }

  // venus_encode_store_packet_locked
  function StorePacket(s: State, tag: nat, data: seq<byte>, final: bool, damaged: bool): (State, Outcome) {
    if tag == 0 || s.queue == [] then (s, Fail(Invalid))
    else
      var k := FirstTagged(s.queue, s.buffers, tag);
      if k.None? then (s, Fail(NotFound)) else StoreAt(s, k.value, data, final, damaged)
  }

  predicate Awaits(b: Buffer, context: nat, tag: nat) {
    b.used && b.coded && b.context == context && b.tag == tag
  }

  // The first buffer slot of the context that carries this tag.
  function FirstAwaiting(buffers: seq<Buffer>, context: nat, tag: nat): (r: Option<nat>)
    ensures r.Some? ==> r.value < |buffers| && Awaits(buffers[r.value], context, tag)
    ensures r.Some? ==> forall k :: 0 <= k < r.value ==> !Awaits(buffers[k], context, tag)
    ensures r.None? ==> forall k :: 0 <= k < |buffers| ==> !Awaits(buffers[k], context, tag)
  {
    if buffers == [] then None
    else if Awaits(buffers[0], context, tag) then Some(0)
    else
      var rest := FirstAwaiting(buffers[1..], context, tag);
      if rest.None? then None else Some(rest.value + 1)
  }

  function InputDoneAt(s: State, i: nat): State
    requires i < |s.buffers|
  {
    var b := Consumed(s.buffers[i]);
    s.(buffers := s.buffers[i := b], surfaces := Settle(s.surfaces, i, b))
  }

  // store_output_done
  function StoreInputDone(s: State, context: nat, tag: nat): (State, Outcome) {
    var i := FirstAwaiting(s.buffers, context, tag);
    if i.None? then (s, Fail(NotFound)) else (InputDoneAt(s, i.value), Pass)
  }

  // dequeue_capture and dequeue_output: an empty packet is not handed on, final or not.
  function Hardware(s: State, context: nat, e: Event): (State, Outcome) {
    match e
    case Packet(tag, data, final, damaged) =>
      if data == [] then (s, Pass) else StorePacket(s, tag, data, final, damaged)
    case InputDone(tag) => StoreInputDone(s, context, tag)
  }

  // The hardware's reports while the lock is held.
  function Pump(s: State, context: nat, events: seq<Event>): State
    decreases |events|
  {
    if events == [] then s else Pump(Hardware(s, context, events[0]).0, context, events[1..])
  }

  // rollback_coded_buffer
  function Rollback(s: State, id: nat): State {
    if s.queue == [] || s.queue[|s.queue| - 1] != id then s
    else
      s.(queue := s.queue[..|s.queue| - 1],
         buffers := if Live(s.buffers, id) then s.buffers[id := s.buffers[id].(sequence := 0, tag := 0)] else s.buffers)
  }

  // What end_picture asks of the coded buffer and the source surface.
  predicate Submittable(buffers: seq<Buffer>, surfaces: seq<Surface>, context: nat, id: nat, surface: nat) {
    && Live(buffers, id) && buffers[id].coded && buffers[id].context == context
    && 0 < buffers[id].capacity <= 0xffff_ffff
    && LiveSurface(surfaces, surface) && surfaces[surface].ready
  }

  function Cleared(b: Buffer, surface: nat): Buffer {
    b.(contents := [], ready := false, delivered := false, inputDone := false, packets := 0, sequence := 0, tag := 0,
       source := Some(surface), overflowed := false, damaged := false)
  }

  // The coded buffer is cleared under the next sequence number, and queued.
  function Prepare(s: State, context: nat, fps: nat, id: nat, surface: nat): (State, Outcome)
    requires fps > 0 && Submittable(s.buffers, s.surfaces, context, id, surface)
  {
    var n := NextSequence(s.sequence);
    var cleared := s.(sequence := n, buffers := s.buffers[id := Cleared(s.buffers[id], surface)]);
    Queue(cleared, context, id, FrameTag(n, fps))
  }

  // Once queued, the frame's surface waits for it.
  function Accept(s: State, context: nat, fps: nat, id: nat, surface: nat): (State, Outcome)
    requires fps > 0 && Submittable(s.buffers, s.surfaces, context, id, surface)
  {
    var (queued, o) := Prepare(s, context, fps, id, surface);
    if o.Fail? then (queued, o)
    else
      var waiting := queued.surfaces[surface].(pending := true, codedBuffer := Some(id));
      (queued.(surfaces := queued.surfaces[surface := waiting]), Pass)
  }

  // The frame was not taken: it leaves the queue again.
  function Withdraw(s: State, id: nat, surface: nat): State {
    var rolled := Rollback(s, id);
    if surface < |rolled.surfaces| then
      rolled.(surfaces := rolled.surfaces[surface := rolled.surfaces[surface].(pending := false)])
    else rolled
  }

  // The sequence and queue part of venus_encode_end_picture_locked: events are what the hardware reports during
  // the submission, taken whether it took the frame.
  function Submit(s: State, context: nat, fps: nat, id: nat, surface: nat, events: seq<Event>, taken: bool)
    : (State, Outcome)
  {
    if fps == 0 || !Submittable(s.buffers, s.surfaces, context, id, surface) then (s, Fail(Invalid))
    else
      var (accepted, o) := Accept(s, context, fps, id, surface);
      if o.Fail? then (accepted, o)
      else
        var pumped := Pump(accepted, context, events);
        if taken then (pumped, Pass) else (Withdraw(pumped, id, surface), Fail(Busy))
  }

  // ---------- Buffers and surfaces ----------

  const FREE := Buffer(false, false, 0, 0, false, false, false, [], 0, 0, 0, None, false, false)

  // allocate_buffer, in a free slot.
  function Create(s: State, context: nat, id: nat, coded: bool, capacity: nat): (State, Outcome) {
    if id >= |s.buffers| || s.buffers[id].used then (s, Fail(NoSpace))
    else
      (s.(buffers := s.buffers[id := FREE.(used := true, coded := coded, context := context, capacity := capacity)]),
       Pass)
  }

  // venus_encode_sync_surface_locked: pump until the surface is no longer pending; a surface whose frame is in a
  // buffer of another context waits for that one.
  function Sync(s: State, context: nat, f: nat, events: seq<Event>): (State, Outcome)
    requires f < |s.surfaces|
  {
    var b := s.surfaces[f].codedBuffer;
    if b.None? || !Live(s.buffers, b.value) || s.buffers[b.value].context != context then (s, Fail(NotFound))
    else
      var t := Pump(s, context, events);
      if f >= |t.surfaces| || t.surfaces[f].pending then (t, Fail(Busy)) else (t, Pass)
  }

  // backend_begin_picture: a surface whose frame is pending is waited for.
  function Begin(s: State, context: nat, f: nat, events: seq<Event>): (State, Outcome) {
    if !LiveSurface(s.surfaces, f) then (s, Fail(Invalid))
    else
      var (t, o) := if s.surfaces[f].pending then Sync(s, context, f, events) else (s, Pass);
      if o.Fail? then (t, o) else if f >= |t.surfaces| || !t.surfaces[f].ready then (t, Fail(Invalid)) else (t, Pass)
  }

  // backend_destroy_buffer, of a buffer that is neither mapped nor an image's: a frame its surface waits for is
  // waited for.
  function Destroy(s: State, context: nat, id: nat, events: seq<Event>): (State, Outcome) {
    if !Live(s.buffers, id) || s.buffers[id].context != context then (s, Fail(Invalid))
    else if !s.buffers[id].coded || !LinkedTo(s.surfaces, id, s.buffers[id]) then (Freed(s, id), Pass)
    else
      var f := s.buffers[id].source.value;
      var (t, o) := if s.surfaces[f].pending then Sync(s, context, f, events) else (s, Pass);
      if o.Fail? || f >= |t.surfaces| then (t, Fail(Busy))
      else (Freed(t.(surfaces := t.surfaces[f := t.surfaces[f].(codedBuffer := None)]), id), Pass)
  }

  // venus_backend_free_buffer
  function Freed(s: State, id: nat): State {
    if id < |s.buffers| then s.(buffers := s.buffers[id := FREE]) else s
  }

  // ---------- Delivery ----------

  /** How one locked region of a waiting client ends. */
  datatype Turn = Delivered | Refused(error: Error) | Again

  // One pass through wait_coded_delivery_locked between two points where the lock is held.
  function Deliver(s: State, context: nat, id: nat): (State, Turn) {
    if !Live(s.buffers, id) || s.buffers[id].context != context then (s, Refused(NotFound))
    else
      var b := s.buffers[id];
      if b.delivered then (s, Delivered)
      else if b.sequence == s.delivery then
        (s.(delivery := s.delivery + 1, buffers := s.buffers[id := b.(delivered := true)]), Delivered)
      else if b.sequence < s.delivery then (s, Refused(Invalid))
      else (s, Again)
  }

  // The first region of a client that maps a coded buffer: pump until the frame is complete, then try.
  function Enter(s: State, context: nat, id: nat, events: seq<Event>): (State, Turn) {
    if !Live(s.buffers, id) || !s.buffers[id].coded || s.buffers[id].context != context then (s, Refused(NotFound))
    else
      var pumped := if s.buffers[id].ready then s else Pump(s, context, events);
      if !Live(pumped.buffers, id) || !pumped.buffers[id].ready then (pumped, Refused(Busy))
      else if pumped.buffers[id].tag == 0 then (pumped, Refused(NotFound))
      else Deliver(pumped, context, id)
  }
}
