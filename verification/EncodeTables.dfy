/**
  What the shared buffer and surface tables do to one encode context: buffers that come and go, surfaces that are
  waited for, and the locked regions of other contexts. From src/encode.c, src/decode.c and src/objects.c.
 */
module EncodeTables {
  import opened Bitstring
  import opened EncodeInvariant
  import opened EncodeState
  import opened Wrappers

  // ---------- What reports leave alone ----------

  predicate SameFrameLater(a: Buffer, b: Buffer) {
    && b.used == a.used && b.coded == a.coded && b.context == a.context && b.source == a.source
    && b.tag == a.tag && b.sequence == a.sequence && b.delivered == a.delivered && (a.ready ==> b.ready)
  }

  // t differs from s in what reports change.
  predicate Reported(s: State, t: State) {
    && t.sequence == s.sequence && t.delivery == s.delivery && |t.buffers| == |s.buffers|
    && |t.surfaces| == |s.surfaces|
    && forall i :: 0 <= i < |s.buffers| ==> SameFrameLater(s.buffers[i], t.buffers[i])
  }

  lemma StoredReports(s: State, t: State, id: nat, data: seq<byte>, final: bool, damaged: bool)
    requires Stored(s, t, id, data, final, damaged)
    ensures Reported(s, t)
  {
    hide Settle, Remove;
  }

  lemma EventReports(s: State, c: nat, fps: nat, e: Event)
    requires Bounded(s, fps) && QueueOk(s, c)
    ensures Reported(s, Hardware(s, c, e).0)
  {
    hide Settle, Remove, Stored, StorePacket, QueueOk;
    if e.Packet? {
      StorePacketIs(s, c, fps, e.tag, e.data, e.final, e.damaged);
      if e.data != [] && Hardware(s, c, e).1.Pass? {
        var id: nat :| id < |s.buffers| && Stored(s, Hardware(s, c, e).0, id, e.data, e.final, e.damaged);
        StoredReports(s, Hardware(s, c, e).0, id, e.data, e.final, e.damaged);
      }
    }
  }

  lemma {:induction false} PumpReports(s: State, c: nat, fps: nat, log: seq<Logged>, events: seq<Event>)
    requires Bounded(s, fps) && Inv(s, c, fps, log)
    ensures Reported(s, Pump(s, c, events))
    decreases |events|
  {
    hide Inv, Hardware, LogAfter, QueueOk;
    if events != [] {
      InvQueue(s, c, fps, log);
      EventReports(s, c, fps, events[0]);
      HardwareKeeps(s, c, fps, log, events[0]);
      PumpReports(Hardware(s, c, events[0]).0, c, fps, LogAfter(s, c, log, events[0]), events[1..]);
    }
  }

  // ---------- A queued frame and its surface ----------

  // While buffer id is queued, the surface it was filled from is pending and waits for it.
  predicate Awaited(s: State, id: nat) {
    && id < |s.buffers| && Linked(s, id)
    && (id in s.queue ==> s.surfaces[s.buffers[id].source.value].pending)
  }

  lemma SettledLinks(surfaces: seq<Surface>, id: nat, b: Buffer, i: nat, other: Buffer)
    requires LinkedTo(surfaces, i, other)
    ensures LinkedTo(Settle(surfaces, id, b), i, other)
    ensures !(i == id && b.ready && b.inputDone) ==>
              Settle(surfaces, id, b)[other.source.value] == surfaces[other.source.value]
  {
  }

  lemma PacketAwaits(s: State, k: nat, data: seq<byte>, final: bool, damaged: bool, c: nat, id: nat)
    requires QueueOk(s, c) && k < |s.queue| && Awaited(s, id)
    ensures Awaited(StoreAt(s, k, data, final, damaged).0, id)
  {
    hide Settle, Remove;
    var x := s.queue[k];
    var b := s.buffers[x];
    if |b.contents| + |data| <= b.capacity && final {
      RemoveKeeps(s.queue, k, c);
      SettledLinks(s.surfaces, x, StoreAt(s, k, data, final, damaged).0.buffers[x], id, s.buffers[id]);
    }
  }

  lemma InputAwaits(s: State, i: nat, c: nat, id: nat)
    requires QueueOk(s, c) && i < |s.buffers| && Mine(s.buffers[i], c) && Awaited(s, id)
    ensures Awaited(InputDoneAt(s, i), id)
  {
    hide Settle;
    SettledLinks(s.surfaces, i, s.buffers[i].(inputDone := true), id, s.buffers[id]);
    if i == id && id in s.queue {
      assert !s.buffers[id].ready;
    }
  }

  lemma EventAwaits(s: State, c: nat, e: Event, id: nat)
    requires QueueOk(s, c) && Awaited(s, id)
    ensures Awaited(Hardware(s, c, e).0, id)
  {
    hide StoreAt, Awaited, FirstTagged, FirstAwaiting;
    match e
    case Packet(tag, data, final, damaged) =>
      var k := FirstTagged(s.queue, s.buffers, tag);
      if tag != 0 && s.queue != [] && k.Some? {
        PacketAwaits(s, k.value, data, final, damaged, c, id);
      }
    case InputDone(tag) =>
      var i := FirstAwaiting(s.buffers, c, tag);
      if i.Some? {
        InputAwaits(s, i.value, c, id);
      }
  }

  lemma {:induction false} PumpAwaits(s: State, c: nat, fps: nat, log: seq<Logged>, events: seq<Event>, id: nat)
    requires Bounded(s, fps) && Inv(s, c, fps, log) && Awaited(s, id)
    ensures Awaited(Pump(s, c, events), id)
    decreases |events|
  {
    hide Inv, Hardware, LogAfter, QueueOk, Awaited;
    if events != [] {
      InvQueue(s, c, fps, log);
      EventAwaits(s, c, events[0], id);
      HardwareKeeps(s, c, fps, log, events[0]);
      PumpAwaits(Hardware(s, c, events[0]).0, c, fps, LogAfter(s, c, log, events[0]), events[1..], id);
    }
  }

  // ---------- Buffers come and go ----------

  lemma CreateKeeps(s: State, c: nat, fps: nat, log: seq<Logged>, id: nat, coded: bool, capacity: nat)
    requires fps > 0 && Inv(s, c, fps, log)
    ensures Inv(Create(s, c, id, coded, capacity).0, c, fps, log)
  {
    hide FrameTag, Joined;
    var t := Create(s, c, id, coded, capacity).0;
    if t != s {
      forall i | 0 <= i < |t.buffers| ensures HoldsFrame(t.buffers[i], c, log) {
        assert HoldsFrame(s.buffers[i], c, log);
      }
      forall i | 0 <= i < |t.buffers| && Tagged(t.buffers[i], c) && Linked(t, i)
        ensures t.surfaces[t.buffers[i].source.value].pending == !(t.buffers[i].ready && t.buffers[i].inputDone)
      {
        assert i != id && Linked(s, i);
      }
    }
  }

  // A queue entry may outlive its buffer.
  lemma FreedKeeps(s: State, c: nat, fps: nat, log: seq<Logged>, id: nat)
    requires fps > 0 && Inv(s, c, fps, log)
    ensures Inv(Freed(s, id), c, fps, log)
  {
    hide FrameTag, Joined;
    var t := Freed(s, id);
    forall i | 0 <= i < |t.buffers| ensures HoldsFrame(t.buffers[i], c, log) {
      assert HoldsFrame(s.buffers[i], c, log);
    }
    forall i | 0 <= i < |t.buffers| && Tagged(t.buffers[i], c) && Linked(t, i)
      ensures t.surfaces[t.buffers[i].source.value].pending == !(t.buffers[i].ready && t.buffers[i].inputDone)
    {
      assert i != id && Linked(s, i);
    }
  }

  function Unlinked(s: State, f: nat): State
    requires f < |s.surfaces|
  {
    s.(surfaces := s.surfaces[f := s.surfaces[f].(codedBuffer := None)])
  }

  lemma UnlinkedKeeps(s: State, c: nat, fps: nat, log: seq<Logged>, f: nat)
    requires fps > 0 && Inv(s, c, fps, log) && f < |s.surfaces|
    ensures Inv(Unlinked(s, f), c, fps, log)
  {
    hide FrameTag, Joined, HoldsFrame, TagOk;
    var t := Unlinked(s, f);
    forall i | 0 <= i < |t.buffers| && Tagged(t.buffers[i], c) && Linked(t, i)
      ensures t.surfaces[t.buffers[i].source.value].pending == !(t.buffers[i].ready && t.buffers[i].inputDone)
    {
      assert Linked(s, i);
    }
  }

  // Destroying the buffer does not free one that is queued.
  predicate Orderly(s: State, c: nat, id: nat, events: seq<Event>) {
    var (t, o) := Destroy(s, c, id, events);
    o.Pass? ==> id !in t.queue
  }

  // The state in which a buffer is freed: its surface, if it waits for the buffer, has been waited for.
  function Waited(s: State, c: nat, id: nat, events: seq<Event>): State
    requires id < |s.buffers|
  {
    if s.buffers[id].coded && Linked(s, id) && s.surfaces[s.buffers[id].source.value].pending then Pump(s, c, events)
    else s
  }

  // Destroying is waiting, unlinking and freeing, or stops after the waiting.
  lemma DestroyIs(s: State, c: nat, fps: nat, log: seq<Logged>, id: nat, events: seq<Event>)
    requires Bounded(s, fps) && Inv(s, c, fps, log)
    ensures
      var (t, o) := Destroy(s, c, id, events);
      if !Live(s.buffers, id) || s.buffers[id].context != c then t == s && o.Fail?
      else
        var waited := Waited(s, c, id, events);
        && Inv(waited, c, fps, DestroyLog(s, c, log, id, events)) && Reported(s, waited)
        && (o.Fail? ==> t == waited)
        && (o.Pass? ==>
              && t.queue == waited.queue
              && if s.buffers[id].coded && Linked(s, id) then
                   t == Freed(Unlinked(waited, s.buffers[id].source.value), id)
                 else t == Freed(waited, id))
        && (o.Pass? <==>
              s.buffers[id].coded && Linked(s, id) ==> !waited.surfaces[s.buffers[id].source.value].pending)
  {
    hide Inv, Pump, PumpLog, Reported, SameFrameLater;
    PumpKeeps(s, c, fps, log, events);
    PumpReports(s, c, fps, log, events);
    SameReported(s);
    ReportedSizes(s, Pump(s, c, events));
  }

  lemma SameReported(s: State)
    ensures Reported(s, s)
  {
  }

  lemma ReportedSizes(s: State, t: State)
    requires Reported(s, t)
    ensures |t.buffers| == |s.buffers| && |t.surfaces| == |s.surfaces|
    ensures t.sequence == s.sequence && t.delivery == s.delivery
  {
  }

  function DestroyLog(s: State, c: nat, log: seq<Logged>, id: nat, events: seq<Event>): seq<Logged> {
    if !Live(s.buffers, id) || s.buffers[id].context != c || !s.buffers[id].coded || !Linked(s, id) then log
    else if s.surfaces[s.buffers[id].source.value].pending then PumpLog(s, c, log, events)
    else log
  }

  lemma DestroyKeeps(s: State, c: nat, fps: nat, log: seq<Logged>, id: nat, events: seq<Event>)
    requires Bounded(s, fps) && Inv(s, c, fps, log)
    ensures Inv(Destroy(s, c, id, events).0, c, fps, DestroyLog(s, c, log, id, events))
    ensures Destroy(s, c, id, events).0.sequence == s.sequence
  {
    hide Inv, Destroy, Pump, PumpLog;
    DestroyIs(s, c, fps, log, id, events);
    if Destroy(s, c, id, events).1.Pass? {
      var later, waited := DestroyLog(s, c, log, id, events), Waited(s, c, id, events);
      if s.buffers[id].coded && Linked(s, id) {
        UnlinkedKeeps(waited, c, fps, later, s.buffers[id].source.value);
        FreedKeeps(Unlinked(waited, s.buffers[id].source.value), c, fps, later, id);
      } else {
        FreedKeeps(waited, c, fps, later, id);
      }
    }
  }

  // A queued buffer is freed if and only if its surface no longer waits for it.
  lemma FreesQueuedExactly(s: State, c: nat, fps: nat, log: seq<Logged>, id: nat, events: seq<Event>)
    requires Bounded(s, fps) && Inv(s, c, fps, log)
    requires id in s.queue && id < |s.buffers| && Mine(s.buffers[id], c)
    ensures !Orderly(s, c, id, events) <==> !Awaited(s, id)
    ensures Tagged(s.buffers[id], c) ==> (Awaited(s, id) <==> Linked(s, id))
  {
    hide Destroy, Pump, PumpLog, DestroyLog, TagsOk, SequencesDiffer, OrderOk, ContentsOk, LogOk;
    DestroyIs(s, c, fps, log, id, events);
    if Awaited(s, id) {
      PumpAwaits(s, c, fps, log, events, id);
      LaterLinked(s, Pump(s, c, events), id);
    }
  }

  lemma LaterLinked(s: State, t: State, id: nat)
    requires Awaited(s, id) && Awaited(t, id) && t.buffers[id].source == s.buffers[id].source
    ensures id in t.queue ==> t.surfaces[s.buffers[id].source.value].pending
  {
  }

  // ---------- Surfaces are waited for ----------

  function BeginLog(s: State, c: nat, log: seq<Logged>, f: nat, events: seq<Event>): seq<Logged> {
    if !LiveSurface(s.surfaces, f) || !s.surfaces[f].pending then log
    else
      var b := s.surfaces[f].codedBuffer;
      if b.None? || !Live(s.buffers, b.value) || s.buffers[b.value].context != c then log
      else PumpLog(s, c, log, events)
  }

  lemma BeginKeeps(s: State, c: nat, fps: nat, log: seq<Logged>, f: nat, events: seq<Event>)
    requires Bounded(s, fps) && Inv(s, c, fps, log)
    ensures
      var (t, o) := Begin(s, c, f, events);
      && Inv(t, c, fps, BeginLog(s, c, log, f, events)) && Reported(s, t)
      && (t == s || t == Pump(s, c, events))
      && (o.Pass? ==> LiveSurface(t.surfaces, f) ==> !t.surfaces[f].pending)
  {
    hide Inv, Pump, PumpLog, Reported;
    PumpKeeps(s, c, fps, log, events);
    PumpReports(s, c, fps, log, events);
    SameReported(s);
  }

  // ---------- Other contexts ----------

  // A buffer of context c.
  predicate Own(b: Buffer, c: nat) {
    b.used && b.context == c
  }

  predicate SameLink(a: Surface, b: Surface) {
    a.used == b.used && a.pending == b.pending && a.codedBuffer == b.codedBuffer
  }

  // The tables of t are those of s but for what another context than c may change: no buffer of c is touched or comes
  // to be, and a surface that waits for a frame of c did so before, and is as pending as before.
  predicate Apart(s: State, t: State, c: nat) {
    && |t.buffers| == |s.buffers| && |t.surfaces| == |s.surfaces|
    && (forall i :: 0 <= i < |s.buffers| && (Own(s.buffers[i], c) || Own(t.buffers[i], c)) ==>
          t.buffers[i] == s.buffers[i])
    && (forall i :: 0 <= i < |s.buffers| && Own(s.buffers[i], c) && Linked(t, i) ==>
          Linked(s, i) && SameLink(t.surfaces[t.buffers[i].source.value], s.surfaces[s.buffers[i].source.value]))
  }

  // No frame of another context stands in a slot that the queue names.
  predicate Unclaimed(s: State, c: nat) {
    forall k :: 0 <= k < |s.queue| && s.queue[k] < |s.buffers| && !Own(s.buffers[s.queue[k]], c) ==>
      s.buffers[s.queue[k]].tag == 0
  }

  lemma ApartKeepsFrames(s: State, t: State, c: nat, fps: nat, log: seq<Logged>)
    requires fps > 0 && Inv(s, c, fps, log) && t == s.(buffers := t.buffers, surfaces := t.surfaces) && Apart(s, t, c)
    requires Unclaimed(t, c)
    ensures QueueOk(t, c) && TagsOk(t, c, fps) && SequencesDiffer(t, c) && OrderOk(t, c) && WaitingOk(t, c)
    ensures ContentsOk(t, c, log)
  {
    hide FrameTag, Joined, LinksOk, LogOk, Linked;
    forall i | 0 <= i < |t.buffers|
      ensures TagOk(t.buffers[i], c, t.sequence, fps) && HoldsFrame(t.buffers[i], c, log)
    {
      assert TagOk(s.buffers[i], c, s.sequence, fps) && HoldsFrame(s.buffers[i], c, log);
    }
  }

  // Nothing another context does breaks the invariant, short of submitting a buffer in a slot that is queued here.
  lemma ApartKeeps(s: State, t: State, c: nat, fps: nat, log: seq<Logged>)
    requires fps > 0 && Inv(s, c, fps, log) && t == s.(buffers := t.buffers, surfaces := t.surfaces) && Apart(s, t, c)
    requires Unclaimed(t, c)
    ensures Inv(t, c, fps, log)
  {
    hide FrameTag, QueueOk, TagsOk, SequencesDiffer, OrderOk, WaitingOk, ContentsOk, LogOk;
    ApartKeepsFrames(s, t, c, fps, log);
    forall i | 0 <= i < |t.buffers| && Tagged(t.buffers[i], c) && Linked(t, i)
      ensures t.surfaces[t.buffers[i].source.value].pending == !(t.buffers[i].ready && t.buffers[i].inputDone)
    {
      assert Own(t.buffers[i], c) && Linked(s, i);
    }
  }

  predicate NamesOwn(f: Surface, buffers: seq<Buffer>, c: nat) {
    f.codedBuffer.Some? && f.codedBuffer.value < |buffers| && Own(buffers[f.codedBuffer.value], c)
  }

  lemma ApartBy(s: State, t: State, c: nat)
    requires |t.buffers| == |s.buffers| && |t.surfaces| == |s.surfaces|
    requires forall i :: 0 <= i < |s.buffers| && (Own(s.buffers[i], c) || Own(t.buffers[i], c)) ==>
      t.buffers[i] == s.buffers[i]
    requires forall f :: 0 <= f < |s.surfaces| && NamesOwn(t.surfaces[f], s.buffers, c) ==>
      SameLink(t.surfaces[f], s.surfaces[f])
    ensures Apart(s, t, c)
  {
    forall i | 0 <= i < |s.buffers| && Own(s.buffers[i], c) && Linked(t, i)
      ensures Linked(s, i) && SameLink(t.surfaces[t.buffers[i].source.value], s.surfaces[s.buffers[i].source.value])
    {
      assert NamesOwn(t.surfaces[t.buffers[i].source.value], s.buffers, c);
    }
  }

  lemma ApartTwice(r: State, s: State, t: State, c: nat)
    requires Apart(r, s, c) && Apart(s, t, c)
    ensures Apart(r, t, c)
  {
  }

  lemma SettleApart(s: State, t: State, x: nat, b: Buffer, c: nat)
    requires x < |s.buffers| && !Own(s.buffers[x], c) && !Own(b, c)
    requires t.buffers == s.buffers[x := b]
    requires t.surfaces == s.surfaces || t.surfaces == Settle(s.surfaces, x, b)
    ensures Apart(s, t, c)
  {
    ApartBy(s, t, c);
  }

  lemma EventApart(s: State, d: nat, e: Event, c: nat)
    requires QueueOk(s, d) && c != d
    ensures Apart(s, Hardware(s, d, e).0, c)
  {
    hide Settle, FirstTagged, FirstAwaiting, Remove, Apart;
    var t := Hardware(s, d, e).0;
    match e
    case Packet(tag, data, final, damaged) =>
      var k := FirstTagged(s.queue, s.buffers, tag);
      if tag != 0 && s.queue != [] && k.Some? {
        SettleApart(s, t, s.queue[k.value], t.buffers[s.queue[k.value]], c);
      } else {
        ApartBy(s, t, c);
      }
    case InputDone(tag) =>
      var i := FirstAwaiting(s.buffers, d, tag);
      if i.Some? {
        SettleApart(s, t, i.value, t.buffers[i.value], c);
      } else {
        ApartBy(s, t, c);
      }
  }

  lemma {:induction false} PumpApart(s: State, d: nat, fps: nat, log: seq<Logged>, events: seq<Event>, c: nat)
    requires Bounded(s, fps) && Inv(s, d, fps, log) && c != d
    ensures Apart(s, Pump(s, d, events), c)
    decreases |events|
  {
    hide Inv, Hardware, LogAfter, QueueOk, Apart;
    if events == [] {
      ApartBy(s, s, c);
    } else {
      InvQueue(s, d, fps, log);
      EventApart(s, d, events[0], c);
      HardwareKeeps(s, d, fps, log, events[0]);
      PumpApart(Hardware(s, d, events[0]).0, d, fps, LogAfter(s, d, log, events[0]), events[1..], c);
      ApartTwice(s, Hardware(s, d, events[0]).0, Pump(s, d, events), c);
    }
  }

  lemma AcceptApart(s: State, d: nat, fps: nat, id: nat, surface: nat, c: nat)
    requires fps > 0 && Submittable(s.buffers, s.surfaces, d, id, surface) && c != d
    ensures Apart(s, Accept(s, d, fps, id, surface).0, c)
  {
    hide Accept, FrameTag;
    AcceptIs(s, d, fps, id, surface);
    ApartBy(s, Accept(s, d, fps, id, surface).0, c);
  }

  lemma SubmitApart(
    s: State, d: nat, fps: nat, log: seq<Logged>, id: nat, surface: nat, events: seq<Event>, taken: bool, c: nat)
    requires 0 < fps <= MICROSECONDS && s.sequence < MAX_FRAMES && Inv(s, d, fps, log) && Timely(s, fps, events)
    requires c != d
    ensures Apart(s, Submit(s, d, fps, id, surface, events, taken).0, c)
  {
    hide Inv, Accept, Pump, PumpLog, Withdraw, FrameTag, Submittable, Apart, Mine;
    var t := Submit(s, d, fps, id, surface, events, taken).0;
    if !Submittable(s.buffers, s.surfaces, d, id, surface) {
      ApartBy(s, t, c);
    } else {
      var (accepted, o) := Accept(s, d, fps, id, surface);
      AcceptApart(s, d, fps, id, surface, c);
      if o.Pass? {
        AcceptKeeps(s, d, fps, log, id, surface);
        PumpApart(accepted, d, fps, log, events, c);
        var pumped := Pump(accepted, d, events);
        ApartTwice(s, accepted, pumped, c);
        if !taken {
          AcceptedIsNewest(s, d, fps, id, surface);
          PumpReports(accepted, d, fps, log, events);
          PumpAvoids(accepted, d, events, id, accepted.buffers[id]);
          WithdrawIs(pumped, d, id, surface);
          WithdrawnApart(pumped, t, d, id, surface, c);
          ApartTwice(s, pumped, t, c);
        }
      }
    }
  }

  lemma WithdrawnApart(s: State, t: State, d: nat, id: nat, surface: nat, c: nat)
    requires Withdrawn(s, t, d, id, surface) && c != d
    ensures Apart(s, t, c)
  {
    ApartBy(s, t, c);
  }

  lemma DeliverApart(s: State, d: nat, id: nat, c: nat)
    requires c != d
    ensures Apart(s, Deliver(s, d, id).0, c)
  {
    ApartBy(s, Deliver(s, d, id).0, c);
  }

  lemma EnterApart(s: State, d: nat, fps: nat, log: seq<Logged>, id: nat, events: seq<Event>, c: nat)
    requires Bounded(s, fps) && Inv(s, d, fps, log) && c != d
    ensures Apart(s, Enter(s, d, id, events).0, c)
  {
    hide Inv, Pump, Deliver, Apart;
    PumpApart(s, d, fps, log, events, c);
    DeliverApart(s, d, id, c);
    DeliverApart(Pump(s, d, events), d, id, c);
    ApartBy(s, s, c);
    if Live(s.buffers, id) && !s.buffers[id].ready {
      ApartTwice(s, Pump(s, d, events), Deliver(Pump(s, d, events), d, id).0, c);
    }
  }

  lemma CreateApart(s: State, d: nat, id: nat, coded: bool, capacity: nat, c: nat)
    requires c != d
    ensures Apart(s, Create(s, d, id, coded, capacity).0, c)
  {
    ApartBy(s, Create(s, d, id, coded, capacity).0, c);
  }

  lemma BeginApart(s: State, d: nat, fps: nat, log: seq<Logged>, f: nat, events: seq<Event>, c: nat)
    requires Bounded(s, fps) && Inv(s, d, fps, log) && c != d
    ensures Apart(s, Begin(s, d, f, events).0, c)
  {
    hide Inv, Pump, Apart;
    PumpApart(s, d, fps, log, events, c);
    ApartBy(s, s, c);
  }

  lemma DestroyApart(s: State, d: nat, fps: nat, log: seq<Logged>, id: nat, events: seq<Event>, c: nat)
    requires Bounded(s, fps) && Inv(s, d, fps, log) && c != d
    ensures Apart(s, Destroy(s, d, id, events).0, c)
  {
    hide Inv, Pump, PumpLog, Apart, Destroy, DestroyLog, Linked, Freed, Unlinked;
    var (t, o) := Destroy(s, d, id, events);
    ApartBy(s, s, c);
    DestroyIs(s, d, fps, log, id, events);
    if Live(s.buffers, id) && s.buffers[id].context == d {
      var waited := Waited(s, d, id, events);
      PumpApart(s, d, fps, log, events, c);
      if o.Pass? {
        DestroyedApart(s, waited, t, d, id, c);
        ApartTwice(s, waited, t, c);
      }
    }
  }

  lemma DestroyedApart(s: State, waited: State, t: State, d: nat, id: nat, c: nat)
    requires c != d && id < |s.buffers| && Own(s.buffers[id], d) && Reported(s, waited)
    requires
      if s.buffers[id].coded && Linked(s, id) then t == Freed(Unlinked(waited, s.buffers[id].source.value), id)
      else t == Freed(waited, id)
    ensures Apart(waited, t, c)
  {
    assert SameFrameLater(s.buffers[id], waited.buffers[id]);
    ApartBy(waited, t, c);
  }

  // begin_picture of a decode context takes the picture out of its target.
  lemma DecodingApart(s: State, f: nat, c: nat)
    requires f < |s.surfaces|
    ensures Apart(s, s.(surfaces := s.surfaces[f := s.surfaces[f].(ready := false)]), c)
  {
    ApartBy(s, s.(surfaces := s.surfaces[f := s.surfaces[f].(ready := false)]), c);
  }

  // destroy_context_locked: the context's buffers are freed, and the surfaces attached to it wait for nothing.
  function Closed(s: State, d: nat, attached: set<nat>): State {
    s.(queue := [],
       buffers := seq(|s.buffers|, i requires 0 <= i < |s.buffers| =>
         if Own(s.buffers[i], d) then FREE else s.buffers[i]),
       surfaces := seq(|s.surfaces|, f requires 0 <= f < |s.surfaces| =>
         if f in attached then s.surfaces[f].(pending := false, codedBuffer := None) else s.surfaces[f]))
  }

  lemma CloseApart(s: State, d: nat, attached: set<nat>, c: nat)
    requires c != d
    ensures Apart(s, Closed(s, d, attached), c)
  {
    ApartBy(s, Closed(s, d, attached), c);
  }
}
