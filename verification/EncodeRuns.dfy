/**
  Runs of one encode context: pictures begun and submitted, hardware reports, any number of clients waiting to map
  coded buffers, buffers created and destroyed, and other contexts, interleaved at the points where the lock is
  released. From src/encode.c, src/decode.c and src/objects.c.
 */
module EncodeRuns {
  import opened Bitstring
  import opened EncodeInvariant
  import opened EncodeState
  import opened EncodeTables
  import opened Wrappers

  // ---------- Routing ----------

  // Buffer id holds frame n.
  predicate Holds(s: State, c: nat, id: nat, n: nat) {
    id < |s.buffers| && Tagged(s.buffers[id], c) && s.buffers[id].sequence == n
  }

  // The buffer waits for packets of frame n.
  predicate WaitsFor(s: State, c: nat, id: nat, n: nat) {
    id in s.queue && Holds(s, c, id, n)
  }

  lemma SequenceOfTag(s: State, c: nat, fps: nat, id: nat, n: nat)
    requires Bounded(s, fps) && TagsOk(s, c, fps) && 0 < n <= s.sequence
    requires id < |s.buffers| && Tagged(s.buffers[id], c) && s.buffers[id].tag == FrameTag(n, fps)
    ensures s.buffers[id].sequence == n
  {
    hide FrameTag;
    var m := s.buffers[id].sequence;
    if m < n {
      TagsIncrease(m, n, fps);
    } else if m > n {
      TagsIncrease(n, m, fps);
    }
  }

  lemma TagPositive(n: nat, fps: nat)
    requires 0 < n <= MAX_FRAMES && 0 < fps <= MICROSECONDS
    ensures FrameTag(n, fps) > 0
  {
    hide FrameTag;
    TagValue(n, fps);
  }

  // A packet is stored exactly when the buffer of its frame is queued and has room, and then in that buffer alone. It
  // is refused for room exactly when the buffer is queued without room.
  lemma PacketReachesItsFrame(
    s: State, c: nat, fps: nat, log: seq<Logged>, n: nat, data: seq<byte>, final: bool, damaged: bool)
    requires Bounded(s, fps) && Inv(s, c, fps, log) && 0 < n <= s.sequence
    ensures
      var (t, o) := StorePacket(s, FrameTag(n, fps), data, final, damaged);
      && (o.Pass? <==>
          exists id: nat :: WaitsFor(s, c, id, n) && |s.buffers[id].contents| + |data| <= s.buffers[id].capacity)
      && (o.Pass? ==> exists id: nat :: WaitsFor(s, c, id, n) && Stored(s, t, id, data, final, damaged))
      && (o == Fail(NoSpace) <==>
          exists id: nat :: WaitsFor(s, c, id, n) && |s.buffers[id].contents| + |data| > s.buffers[id].capacity)
      && (o == Fail(NoSpace) ==> exists id: nat :: WaitsFor(s, c, id, n) && Overrun(s, t, id, data))
  {
    hide FrameTag, Stored, Remove, Settle, OrderOk, WaitingOk, ContentsOk, LinksOk, LogOk;
    var tag := FrameTag(n, fps);
    TagPositive(n, fps);
    StorePacketIs(s, c, fps, tag, data, final, damaged);
    var (t, o) := StorePacket(s, tag, data, final, damaged);
    if o.Pass? {
      var id: nat :|
        id < |s.buffers| && Stored(s, t, id, data, final, damaged) && s.buffers[id].tag == tag &&
        Mine(s.buffers[id], c);
      StoredWhere(s, t, id, data, final, damaged);
      SequenceOfTag(s, c, fps, id, n);
      assert WaitsFor(s, c, id, n);
    }
    if o == Fail(NoSpace) {
      var id: nat :|
        id < |s.buffers| && Overrun(s, t, id, data) && s.buffers[id].tag == tag && Mine(s.buffers[id], c);
      SequenceOfTag(s, c, fps, id, n);
      assert WaitsFor(s, c, id, n);
    }
    if id: nat :| WaitsFor(s, c, id, n) {
      var k :| 0 <= k < |s.queue| && s.queue[k] == id;
      assert Matches(s.buffers, s.queue[k], tag);
      var first := FirstTagged(s.queue, s.buffers, tag).value;
      if s.queue[first] != id {
        TagsDiffer(s, c, fps, s.queue[first], id);
      }
    }
  }

  lemma StoredWhere(s: State, t: State, id: nat, data: seq<byte>, final: bool, damaged: bool)
    requires Stored(s, t, id, data, final, damaged)
    ensures id in s.queue && |s.buffers[id].contents| + |data| <= s.buffers[id].capacity
  {
  }

  // Consumed input is noted exactly when a buffer holds its frame, queued or not, and then in that buffer alone.
  lemma InputReachesItsFrame(s: State, c: nat, fps: nat, log: seq<Logged>, n: nat)
    requires Bounded(s, fps) && Inv(s, c, fps, log) && 0 < n <= s.sequence
    ensures
      var (t, o) := StoreInputDone(s, c, FrameTag(n, fps));
      && (o.Pass? <==> exists id: nat :: Holds(s, c, id, n))
      && (o.Pass? ==> exists id: nat :: Holds(s, c, id, n) && InputTaken(s, t, c, id, FrameTag(n, fps)))
      && (o.Fail? ==> t == s && o.error == NotFound)
  {
    hide FrameTag, Settle, OrderOk, WaitingOk, ContentsOk, LinksOk, LogOk, QueueOk;
    var tag := FrameTag(n, fps);
    TagPositive(n, fps);
    var (t, o) := StoreInputDone(s, c, tag);
    if o.Pass? {
      var id := FirstAwaiting(s.buffers, c, tag).value;
      SequenceOfTag(s, c, fps, id, n);
      assert Holds(s, c, id, n) && InputTaken(s, t, c, id, tag);
    }
    if id: nat :| Holds(s, c, id, n) {
      assert TagOk(s.buffers[id], c, s.sequence, fps);
      assert Awaits(s.buffers[id], c, tag);
    }
  }

  // Settling a buffer frees the surface that waits for it, if its frame is complete on both sides, and no other.
  lemma SettlesExactly(surfaces: seq<Surface>, id: nat, b: Buffer, f: nat)
    requires f < |surfaces|
    ensures
      var waits := b.source == Some(f) && surfaces[f].used && surfaces[f].codedBuffer == Some(id);
      Settle(surfaces, id, b)[f] ==
      if waits && b.ready && b.inputDone then surfaces[f].(pending := false) else surfaces[f]
  {
  }

  // ---------- Both events of a frame ----------

  lemma {:induction false} SameFirstTagged(queue: seq<nat>, a: seq<Buffer>, b: seq<Buffer>, tag: nat)
    requires forall id :: Matches(a, id, tag) == Matches(b, id, tag)
    ensures FirstTagged(queue, a, tag) == FirstTagged(queue, b, tag)
  {
    hide Matches;
    if queue != [] {
      SameFirstTagged(queue[1..], a, b, tag);
    }
  }

  lemma SameFirstAwaiting(a: seq<Buffer>, b: seq<Buffer>, c: nat, tag: nat)
    requires |a| == |b| && forall i :: 0 <= i < |a| ==> Awaits(a[i], c, tag) == Awaits(b[i], c, tag)
    ensures FirstAwaiting(a, c, tag) == FirstAwaiting(b, c, tag)
  {
    hide Awaits;
  }

  // Packets and consumed input of a tag concern the same buffer.
  lemma SameTarget(s: State, c: nat, fps: nat, tag: nat)
    requires Bounded(s, fps) && QueueOk(s, c) && TagsOk(s, c, fps) && SequencesDiffer(s, c) && tag != 0
    ensures
      var k := FirstTagged(s.queue, s.buffers, tag);
      k.Some? ==> FirstAwaiting(s.buffers, c, tag) == Some(s.queue[k.value])
  {
    hide FrameTag, FirstTagged, FirstAwaiting, TagOk;
    var k, i := FirstTagged(s.queue, s.buffers, tag), FirstAwaiting(s.buffers, c, tag);
    if k.Some? {
      var id := s.queue[k.value];
      assert Awaits(s.buffers[id], c, tag);
      if i.value != id {
        TagsDiffer(s, c, fps, i.value, id);
      }
    }
  }

  predicate Commute(s: State, c: nat, a: Event, b: Event) {
    Hardware(Hardware(s, c, a).0, c, b).0 == Hardware(Hardware(s, c, b).0, c, a).0
  }

  lemma AtCommute(s: State, k: nat, data: seq<byte>, final: bool, damaged: bool)
    requires k < |s.queue| && s.queue[k] < |s.buffers|
    ensures |StoreAt(s, k, data, final, damaged).0.buffers| == |s.buffers|
    ensures InputDoneAt(StoreAt(s, k, data, final, damaged).0, s.queue[k]) ==
            StoreAt(InputDoneAt(s, s.queue[k]), k, data, final, damaged).0
  {
    hide Remove, Settle, Filled, Overflowed, Consumed;
    var id := s.queue[k];
    var b := s.buffers[id];
    FieldsCommute(b, data, final, damaged);
    if |b.contents| + |data| <= b.capacity {
      var stored := Filled(b, data, final, damaged);
      SettleOnce(s.surfaces, id, Consumed(b), stored, Consumed(stored), final);
    } else {
      SameSettle(s.surfaces, id, Consumed(b), Consumed(Overflowed(b)));
    }
  }

  lemma FieldsCommute(b: Buffer, data: seq<byte>, final: bool, damaged: bool)
    ensures Consumed(Filled(b, data, final, damaged)) == Filled(Consumed(b), data, final, damaged)
    ensures Consumed(Overflowed(b)) == Overflowed(Consumed(b))
    ensures Consumed(b).contents == b.contents && Consumed(b).capacity == b.capacity
    ensures Consumed(b).source == b.source && Consumed(b).ready == b.ready && Consumed(b).inputDone
    ensures var f := Filled(b, data, final, damaged); f.source == b.source && f.ready == (b.ready || final)
    ensures var f := Consumed(Filled(b, data, final, damaged));
            f.source == b.source && f.ready == (b.ready || final) && f.inputDone
    ensures var o := Consumed(Overflowed(b)); o.source == b.source && o.ready == b.ready && o.inputDone
  {
  }

  lemma SameSettle(surfaces: seq<Surface>, id: nat, a: Buffer, b: Buffer)
    requires a.source == b.source && a.ready == b.ready && a.inputDone == b.inputDone
    ensures Settle(surfaces, id, a) == Settle(surfaces, id, b)
  {
  }

  // Settling after each of two events is settling after both: input is the buffer after its input was consumed,
  // stored after its packet came, both after both.
  lemma SettleOnce(surfaces: seq<Surface>, id: nat, input: Buffer, stored: Buffer, both: Buffer, final: bool)
    requires input.source == stored.source == both.source && input.inputDone && both.inputDone
    requires both.ready == stored.ready == (input.ready || final)
    ensures
      Settle(if final then Settle(surfaces, id, stored) else surfaces, id, both) ==
      if final then Settle(Settle(surfaces, id, input), id, both) else Settle(surfaces, id, input)
  {
  }

  lemma InputKeepsTarget(s: State, k: nat, tag: nat)
    requires k < |s.queue| && s.queue[k] < |s.buffers|
    ensures FirstTagged(s.queue, InputDoneAt(s, s.queue[k]).buffers, tag) == FirstTagged(s.queue, s.buffers, tag)
  {
    hide Settle, FirstTagged;
    SameFirstTagged(s.queue, s.buffers, InputDoneAt(s, s.queue[k]).buffers, tag);
  }

  lemma StoreKeepsTarget(s: State, c: nat, k: nat, data: seq<byte>, final: bool, damaged: bool, tag: nat)
    requires k < |s.queue| && s.queue[k] < |s.buffers|
    ensures FirstAwaiting(StoreAt(s, k, data, final, damaged).0.buffers, c, tag) == FirstAwaiting(s.buffers, c, tag)
  {
    hide Settle, Remove, FirstAwaiting;
    SameFirstAwaiting(s.buffers, StoreAt(s, k, data, final, damaged).0.buffers, c, tag);
  }

  // Both events concern the buffer queued at k.
  lemma CommuteFound(s: State, c: nat, tag: nat, data: seq<byte>, final: bool, damaged: bool, k: nat)
    requires tag != 0 && k < |s.queue| && FirstTagged(s.queue, s.buffers, tag) == Some(k)
    requires FirstAwaiting(s.buffers, c, tag) == Some(s.queue[k]) && data != []
    ensures Commute(s, c, Packet(tag, data, final, damaged), InputDone(tag))
  {
    hide FirstTagged, FirstAwaiting, StoreAt, Settle;
    AtCommute(s, k, data, final, damaged);
    InputKeepsTarget(s, k, tag);
    StoreKeepsTarget(s, c, k, data, final, damaged, tag);
  }

  // No queued buffer takes the packet.
  lemma CommuteMissing(s: State, c: nat, tag: nat, data: seq<byte>, final: bool, damaged: bool)
    requires tag == 0 || FirstTagged(s.queue, s.buffers, tag).None? || data == []
    ensures Commute(s, c, Packet(tag, data, final, damaged), InputDone(tag))
  {
    hide Remove, Settle, FirstTagged, FirstAwaiting;
    SameFirstTagged(s.queue, s.buffers, StoreInputDone(s, c, tag).0.buffers, tag);
  }

  lemma InvTags(s: State, c: nat, fps: nat, log: seq<Logged>)
    requires fps > 0 && Inv(s, c, fps, log)
    ensures QueueOk(s, c) && TagsOk(s, c, fps) && SequencesDiffer(s, c)
  {
  }

  // The final packet and the consumed input of a frame may come in either order.
  lemma EventsCommute(
    s: State, c: nat, fps: nat, log: seq<Logged>, tag: nat, data: seq<byte>, final: bool, damaged: bool)
    requires Bounded(s, fps) && Inv(s, c, fps, log)
    ensures Commute(s, c, Packet(tag, data, final, damaged), InputDone(tag))
  {
    hide Inv, FirstTagged, FirstAwaiting, QueueOk, TagsOk, SequencesDiffer, Commute;
    InvTags(s, c, fps, log);
    var k := FirstTagged(s.queue, s.buffers, tag);
    if tag != 0 && k.Some? && data != [] {
      SameTarget(s, c, fps, tag);
      CommuteFound(s, c, tag, data, final, damaged, k.value);
    } else {
      CommuteMissing(s, c, tag, data, final, damaged);
    }
  }

  // ---------- The system ----------

  /** A client that gave up the lock to wait for its turn. */
  datatype Waiter = Waiter(buffer: nat, attempts: nat)

  /** What a client was handed: the buffer, the frame in it, and the status of its coded segment. */
  datatype Delivery = Delivery(
    buffer: nat, sequence: nat, contents: seq<byte>, packets: nat, ready: bool, damaged: bool, overflowed: bool)

  /**
    The context, the surface of the picture that was begun, the waiting clients of all contexts by thread, and what
    happened: packets, deliveries, and which buffer each submission was given.
   */
  datatype System = System(
    s: State, target: Option<nat>, waiting: map<nat, Waiter>, log: seq<Logged>, deliveries: seq<Delivery>,
    owners: seq<nat>)

  datatype Action =
    | BeginPicture(surface: nat, events: seq<Event>)
    | Submission(id: nat, events: seq<Event>, taken: bool)
    | Report(event: Event)
    | Map(thread: nat, id: nat, events: seq<Event>)
    | Wake(thread: nat)
    | CreateBuffer(id: nat, coded: bool, capacity: nat)
    | DestroyBuffer(id: nat, events: seq<Event>)
    // A region of another context, which leaves these tables and these waiting clients behind.
    | Elsewhere(buffers: seq<Buffer>, surfaces: seq<Surface>, waiting: map<nat, Waiter>)

  const MAX_ATTEMPTS := 5000

  // The buffer is handed out when the counter moves.
  function Append(deliveries: seq<Delivery>, s: State, t: State, id: nat): seq<Delivery> {
    if t.delivery != s.delivery && id < |t.buffers| then
      var b := t.buffers[id];
      deliveries + [Delivery(id, b.sequence, b.contents, b.packets, b.ready, b.damaged, b.overflowed)]
    else deliveries
  }

  // A client's turn: it is done, refused, or waits again unless it has tried long enough.
  function AfterTurn(waiting: map<nat, Waiter>, thread: nat, id: nat, attempts: nat, turn: Turn): map<nat, Waiter> {
    if turn == Again && attempts < MAX_ATTEMPTS then waiting[thread := Waiter(id, attempts + 1)] else waiting - {thread}
  }

  // A region of another context makes no new client wait for a buffer of c.
  predicate WaitingApart(before: map<nat, Waiter>, after: map<nat, Waiter>, t: State, c: nat) {
    forall th :: th in after ==>
      (th in before && before[th].buffer == after[th].buffer) ||
      !(after[th].buffer < |t.buffers| && Own(t.buffers[after[th].buffer], c))
  }

  function Submitted(x: System, c: nat, fps: nat, id: nat, surface: nat, events: seq<Event>, taken: bool): System {
    var t := Submit(x.s, c, fps, id, surface, events, taken).0;
    x.(s := t, target := None, log := SubmitLog(x.s, c, fps, x.log, id, surface, events),
       owners := if t.sequence == x.s.sequence then x.owners else x.owners + [id])
  }

  function Next(x: System, c: nat, fps: nat, a: Action): System {
    match a
    case BeginPicture(surface, events) =>
      if x.target.Some? then x
      else
        var (t, o) := Begin(x.s, c, surface, events);
        x.(s := t, target := if o.Pass? then Some(surface) else None, log := BeginLog(x.s, c, x.log, surface, events))
    case Submission(id, events, taken) =>
      if x.target.None? then x else Submitted(x, c, fps, id, x.target.value, events, taken)
    case Report(e) => x.(s := Hardware(x.s, c, e).0, log := LogAfter(x.s, c, x.log, e))
    case Map(thread, id, events) =>
      if thread in x.waiting then x
      else
        var (t, turn) := Enter(x.s, c, id, events);
        x.(s := t, log := EnterLog(x.s, c, x.log, id, events),
           waiting := AfterTurn(x.waiting, thread, id, 0, turn), deliveries := Append(x.deliveries, x.s, t, id))
    case Wake(thread) =>
      if thread !in x.waiting then x
      else
        var w := x.waiting[thread];
        // The turn is taken in the context that the buffer belongs to now.
        if Live(x.s.buffers, w.buffer) && x.s.buffers[w.buffer].context != c then x
        else
          var (t, turn) := Deliver(x.s, c, w.buffer);
          x.(s := t, waiting := AfterTurn(x.waiting, thread, w.buffer, w.attempts, turn),
             deliveries := Append(x.deliveries, x.s, t, w.buffer))
    case CreateBuffer(id, coded, capacity) => x.(s := Create(x.s, c, id, coded, capacity).0)
    case DestroyBuffer(id, events) =>
      x.(s := Destroy(x.s, c, id, events).0, log := DestroyLog(x.s, c, x.log, id, events))
    case Elsewhere(buffers, surfaces, waiting) =>
      var t := x.s.(buffers := buffers, surfaces := surfaces);
      if Apart(x.s, t, c) && WaitingApart(x.waiting, waiting, t, c) then x.(s := t, waiting := waiting) else x
  }

  function Run(x: System, c: nat, fps: nat, actions: seq<Action>): System {
    if actions == [] then x else Next(Run(x, c, fps, actions[..|actions| - 1]), c, fps, actions[|actions| - 1])
  }

  // A context that has not encoded yet.
  predicate Initial(x: System, c: nat) {
    && x.s.queue == [] && x.s.sequence == 0 && x.s.delivery == 1
    && (forall i :: 0 <= i < |x.s.buffers| && Own(x.s.buffers[i], c) ==>
          x.s.buffers[i].tag == 0 && x.s.buffers[i].sequence == 0 && x.s.buffers[i].contents == [])
    && x.target == None && x.waiting == map[] && x.log == [] && x.deliveries == [] && x.owners == []
  }

  // The hardware reports no frame it was not given, and other contexts submit no buffer in a slot that is queued here.
  predicate Regular(x: System, c: nat, fps: nat, a: Action)
    requires fps > 0
  {
    && (a.Submission? ==> Timely(x.s, fps, a.events))
    && (a.Elsewhere? ==> Unclaimed(Next(x, c, fps, a).s, c))
  }

  predicate RegularRun(x: System, c: nat, fps: nat, actions: seq<Action>)
    requires fps > 0
  {
    actions == [] ||
    (RegularRun(x, c, fps, actions[..|actions| - 1]) &&
     Regular(Run(x, c, fps, actions[..|actions| - 1]), c, fps, actions[|actions| - 1]))
  }

  lemma NextKeeps(x: System, c: nat, fps: nat, a: Action)
    requires 0 < fps <= MICROSECONDS && x.s.sequence < MAX_FRAMES
    requires Inv(x.s, c, fps, x.log) && Regular(x, c, fps, a)
    ensures Inv(Next(x, c, fps, a).s, c, fps, Next(x, c, fps, a).log)
    ensures Next(x, c, fps, a).s.sequence <= x.s.sequence + 1
  {
    hide Inv, Submit, SubmitLog, Hardware, LogAfter, Enter, EnterLog, Deliver, Timely, Begin, BeginLog, Create, Destroy,
      DestroyLog, Apart, Unclaimed, WaitingApart, Reported;
    match a
    case BeginPicture(surface, events) =>
      BeginKeeps(x.s, c, fps, x.log, surface, events);
      ReportedSizes(x.s, Begin(x.s, c, surface, events).0);
    case Submission(id, events, taken) =>
      if x.target.Some? {
        SubmitKeeps(x.s, c, fps, x.log, id, x.target.value, events, taken);
      }
    case Report(e) => HardwareKeeps(x.s, c, fps, x.log, e);
    case Map(thread, id, events) => EnterKeeps(x.s, c, fps, x.log, id, events);
    case Wake(thread) =>
      if thread in x.waiting {
        DeliverKeeps(x.s, c, fps, x.log, x.waiting[thread].buffer);
      }
    case CreateBuffer(id, coded, capacity) =>
      CreateKeeps(x.s, c, fps, x.log, id, coded, capacity);
      CreateSequence(x.s, c, id, coded, capacity);
    case DestroyBuffer(id, events) => DestroyKeeps(x.s, c, fps, x.log, id, events);
    case Elsewhere(buffers, surfaces, _) =>
      if Next(x, c, fps, a) != x {
        ApartKeeps(x.s, x.s.(buffers := buffers, surfaces := surfaces), c, fps, x.log);
      }
  }

  lemma CreateSequence(s: State, c: nat, id: nat, coded: bool, capacity: nat)
    ensures Create(s, c, id, coded, capacity).0.sequence == s.sequence
    ensures Create(s, c, id, coded, capacity).0.delivery == s.delivery
  {
  }

  lemma InitialOk(x: System, c: nat, fps: nat)
    requires fps > 0 && Initial(x, c)
    ensures Inv(x.s, c, fps, x.log)
  {
    hide FrameTag, Joined;
  }

  // After every regular run that stays below the wrap, tags, routing, contents, order and pending flags are as they
  // should be.
  lemma {:induction false} RunKeeps(x: System, c: nat, fps: nat, actions: seq<Action>)
    requires 0 < fps <= MICROSECONDS && |actions| <= MAX_FRAMES
    requires Initial(x, c) && RegularRun(x, c, fps, actions)
    ensures
      var y := Run(x, c, fps, actions);
      Inv(y.s, c, fps, y.log) && y.s.sequence <= |actions|
  {
    hide Inv, Next, Regular;
    if actions == [] {
      InitialOk(x, c, fps);
    } else {
      var n := |actions| - 1;
      RunKeeps(x, c, fps, actions[..n]);
      NextKeeps(Run(x, c, fps, actions[..n]), c, fps, actions[n]);
    }
  }

  // A buffer that holds frame n contains exactly the packets stored under the tag of frame n, within its capacity, and
  // counts them. It is damaged exactly when one of them had the error flag, and overflowed exactly when a packet of the
  // frame found no room.
  lemma BufferHoldsItsFrame(x: System, c: nat, fps: nat, actions: seq<Action>, id: nat)
    requires 0 < fps <= MICROSECONDS && |actions| <= MAX_FRAMES
    requires Initial(x, c) && RegularRun(x, c, fps, actions)
    requires var s := Run(x, c, fps, actions).s; id < |s.buffers| && Tagged(s.buffers[id], c)
    ensures
      var y := Run(x, c, fps, actions);
      var b := y.s.buffers[id];
      && 0 < b.sequence <= y.s.sequence
      && b.contents == Joined(y.log, FrameTag(b.sequence, fps)) && |b.contents| <= b.capacity
      && b.packets == Count(y.log, FrameTag(b.sequence, fps))
      && (b.damaged <==> Flagged(y.log, FrameTag(b.sequence, fps)))
      && (b.overflowed <==> NoRoom(FrameTag(b.sequence, fps)) in y.log)
  {
    hide Run, RegularRun, Joined, Count, Flagged, FrameTag, QueueOk, OrderOk, SequencesDiffer, WaitingOk, LinksOk,
      LogOk;
    RunKeeps(x, c, fps, actions);
    var s := Run(x, c, fps, actions).s;
    assert TagOk(s.buffers[id], c, s.sequence, fps) && HoldsFrame(s.buffers[id], c, Run(x, c, fps, actions).log);
  }

  // The surface a frame was taken from is pending exactly until the final packet of the frame was stored and the
  // consumption of its input reported.
  lemma PendingUntilBoth(x: System, c: nat, fps: nat, actions: seq<Action>, id: nat)
    requires 0 < fps <= MICROSECONDS && |actions| <= MAX_FRAMES
    requires Initial(x, c) && RegularRun(x, c, fps, actions)
    requires
      var s := Run(x, c, fps, actions).s;
      id < |s.buffers| && Tagged(s.buffers[id], c) && EncodeInvariant.Linked(s, id)
    ensures
      var y := Run(x, c, fps, actions);
      var b := y.s.buffers[id];
      && b.sequence > 0
      && (b.ready <==> Ended(y.log, FrameTag(b.sequence, fps)))
      && (b.inputDone <==> Read(FrameTag(b.sequence, fps)) in y.log)
      && (y.s.surfaces[b.source.value].pending <==>
          !(Ended(y.log, FrameTag(b.sequence, fps)) && Read(FrameTag(b.sequence, fps)) in y.log))
  {
    hide Run, RegularRun, Records, Ended, FrameTag, QueueOk, OrderOk, SequencesDiffer, WaitingOk, LogOk;
    RunKeeps(x, c, fps, actions);
    var s := Run(x, c, fps, actions).s;
    assert TagOk(s.buffers[id], c, s.sequence, fps) && HoldsFrame(s.buffers[id], c, Run(x, c, fps, actions).log);
  }

  // ---------- Entries that outlive their frames ----------

  // The queue names the slot, but there is no frame of c in it: its buffer was freed, or emptied by a submission that
  // the queue refused.
  predicate DeadEntry(s: State, c: nat, id: nat) {
    id in s.queue && !(id < |s.buffers| && Tagged(s.buffers[id], c))
  }

  lemma EventKeepsDead(s: State, c: nat, fps: nat, e: Event, id: nat)
    requires Bounded(s, fps) && QueueOk(s, c) && DeadEntry(s, c, id)
    ensures DeadEntry(Hardware(s, c, e).0, c, id)
  {
    hide StorePacket, Stored, Settle, FirstAwaiting;
    var t := Hardware(s, c, e).0;
    if e.Packet? {
      StorePacketIs(s, c, fps, e.tag, e.data, e.final, e.damaged);
      if e.data != [] && Hardware(s, c, e).1.Pass? {
        var x: nat :| x < |s.buffers| && Stored(s, t, x, e.data, e.final, e.damaged) && s.buffers[x].tag == e.tag &&
          Mine(s.buffers[x], c);
        StoredKeepsQueue(s, t, c, x, e.data, e.final, e.damaged);
        StoredOthers(s, t, x, e.data, e.final, e.damaged, id);
      }
    }
  }

  lemma StoredOthers(s: State, t: State, x: nat, data: seq<byte>, final: bool, damaged: bool, id: nat)
    requires Stored(s, t, x, data, final, damaged) && id != x
    ensures |t.buffers| == |s.buffers| && (id < |s.buffers| ==> t.buffers[id] == s.buffers[id])
  {
  }

  lemma {:induction false} PumpKeepsDead(s: State, c: nat, fps: nat, log: seq<Logged>, events: seq<Event>, id: nat)
    requires Bounded(s, fps) && Inv(s, c, fps, log) && DeadEntry(s, c, id)
    ensures DeadEntry(Pump(s, c, events), c, id)
    decreases |events|
  {
    hide Inv, Hardware, LogAfter, DeadEntry, QueueOk;
    if events != [] {
      InvQueue(s, c, fps, log);
      EventKeepsDead(s, c, fps, events[0], id);
      HardwareKeeps(s, c, fps, log, events[0]);
      PumpKeepsDead(Hardware(s, c, events[0]).0, c, fps, LogAfter(s, c, log, events[0]), events[1..], id);
    }
  }

  lemma AcceptKeepsDead(s: State, c: nat, fps: nat, id: nat, surface: nat, x: nat)
    requires fps > 0 && Submittable(s.buffers, s.surfaces, c, id, surface) && DeadEntry(s, c, x)
    ensures DeadEntry(Accept(s, c, fps, id, surface).0, c, x)
    ensures Accept(s, c, fps, id, surface).1.Pass? ==> x != id
  {
    hide Accept, FrameTag;
    AcceptIs(s, c, fps, id, surface);
  }

  lemma WithdrawnKeepsDead(s: State, t: State, c: nat, id: nat, surface: nat, x: nat)
    requires Withdrawn(s, t, c, id, surface) && QueueOk(s, c) && OrderOk(s, c) && DeadEntry(s, c, x) && x != id
    ensures DeadEntry(t, c, x)
  {
    hide QueueOk, OrderOk;
    WithdrawnKeepsQueue(s, t, c, id, surface);
  }

  lemma SubmitKeepsDead(
    s: State, c: nat, fps: nat, log: seq<Logged>, id: nat, surface: nat, events: seq<Event>, taken: bool, x: nat)
    requires 0 < fps <= MICROSECONDS && s.sequence < MAX_FRAMES && Inv(s, c, fps, log) && Timely(s, fps, events)
    requires DeadEntry(s, c, x)
    ensures DeadEntry(Submit(s, c, fps, id, surface, events, taken).0, c, x)
  {
    hide Inv, Accept, Pump, PumpLog, Withdraw, FrameTag, Submittable, DeadEntry, Withdrawn;
    if Submittable(s.buffers, s.surfaces, c, id, surface) {
      var (accepted, o) := Accept(s, c, fps, id, surface);
      AcceptKeepsDead(s, c, fps, id, surface, x);
      if o.Pass? {
        var pumped := Pump(accepted, c, events);
        AcceptKeeps(s, c, fps, log, id, surface);
        PumpKeepsDead(accepted, c, fps, log, events, x);
        if !taken {
          AcceptedIsNewest(s, c, fps, id, surface);
          PumpAvoids(accepted, c, events, id, accepted.buffers[id]);
          WithdrawIs(pumped, c, id, surface);
          PumpKeeps(accepted, c, fps, log, events);
          InvOrder(pumped, c, fps, PumpLog(accepted, c, log, events));
          WithdrawnKeepsDead(pumped, Withdraw(pumped, id, surface), c, id, surface, x);
        }
      }
    }
  }

  lemma InvOrder(s: State, c: nat, fps: nat, log: seq<Logged>)
    requires fps > 0 && Inv(s, c, fps, log)
    ensures QueueOk(s, c) && OrderOk(s, c)
  {
  }

  lemma DeliverKeepsDead(s: State, c: nat, id: nat, x: nat)
    requires DeadEntry(s, c, x)
    ensures DeadEntry(Deliver(s, c, id).0, c, x)
  {
  }

  lemma EnterKeepsDead(s: State, c: nat, fps: nat, log: seq<Logged>, id: nat, events: seq<Event>, x: nat)
    requires Bounded(s, fps) && Inv(s, c, fps, log) && DeadEntry(s, c, x)
    ensures DeadEntry(Enter(s, c, id, events).0, c, x)
  {
    hide Inv, Pump, Deliver, DeadEntry;
    PumpKeepsDead(s, c, fps, log, events, x);
    DeliverKeepsDead(s, c, id, x);
    DeliverKeepsDead(Pump(s, c, events), c, id, x);
  }

  lemma CreateKeepsDead(s: State, c: nat, id: nat, coded: bool, capacity: nat, x: nat)
    requires DeadEntry(s, c, x)
    ensures DeadEntry(Create(s, c, id, coded, capacity).0, c, x)
  {
  }

  lemma DestroyKeepsDead(s: State, c: nat, fps: nat, log: seq<Logged>, id: nat, events: seq<Event>, x: nat)
    requires Bounded(s, fps) && Inv(s, c, fps, log) && DeadEntry(s, c, x)
    ensures DeadEntry(Destroy(s, c, id, events).0, c, x)
  {
    hide Inv, Destroy, Pump, DestroyLog, Reported, Linked;
    DestroyIs(s, c, fps, log, id, events);
    PumpKeepsDead(s, c, fps, log, events, x);
  }

  lemma ApartKeepsDead(s: State, t: State, c: nat, x: nat)
    requires Apart(s, t, c) && t == s.(buffers := t.buffers, surfaces := t.surfaces) && DeadEntry(s, c, x)
    ensures DeadEntry(t, c, x)
  {
    hide Linked, SameLink;
  }

  // Nothing takes such an entry out of the queue.
  lemma NextKeepsDead(x: System, c: nat, fps: nat, a: Action, id: nat)
    requires 0 < fps <= MICROSECONDS && x.s.sequence < MAX_FRAMES
    requires Inv(x.s, c, fps, x.log) && Regular(x, c, fps, a) && DeadEntry(x.s, c, id)
    ensures DeadEntry(Next(x, c, fps, a).s, c, id)
  {
    hide Inv, DeadEntry, Timely, Submit, SubmitLog, Hardware, LogAfter, Enter, EnterLog, Deliver, Begin, BeginLog,
      Create, Destroy, DestroyLog, Apart, WaitingApart, Unclaimed, AfterTurn, Append, Reported;
    match a
    case BeginPicture(surface, events) =>
      BeginKeeps(x.s, c, fps, x.log, surface, events);
      PumpKeepsDead(x.s, c, fps, x.log, events, id);
    case Submission(b, events, taken) =>
      if x.target.Some? {
        SubmitKeepsDead(x.s, c, fps, x.log, b, x.target.value, events, taken, id);
      }
    case Report(e) =>
      InvQueue(x.s, c, fps, x.log);
      EventKeepsDead(x.s, c, fps, e, id);
    case Map(thread, b, events) => EnterKeepsDead(x.s, c, fps, x.log, b, events, id);
    case Wake(thread) =>
      if thread in x.waiting {
        DeliverKeepsDead(x.s, c, x.waiting[thread].buffer, id);
      }
    case CreateBuffer(b, coded, capacity) => CreateKeepsDead(x.s, c, b, coded, capacity, id);
    case DestroyBuffer(b, events) => DestroyKeepsDead(x.s, c, fps, x.log, b, events, id);
    case Elsewhere(buffers, surfaces, _) =>
      var t := x.s.(buffers := buffers, surfaces := surfaces);
      if Apart(x.s, t, c) {
        ApartKeepsDead(x.s, t, c, id);
      }
  }

  // An entry without a frame takes its place in the queue for the rest of the run.
  lemma {:induction false} DeadEntriesStay(
    x: System, c: nat, fps: nat, actions: seq<Action>, id: nat)
    requires 0 < fps <= MICROSECONDS && x.s.sequence + |actions| <= MAX_FRAMES
    requires Inv(x.s, c, fps, x.log) && RegularRun(x, c, fps, actions) && DeadEntry(x.s, c, id)
    ensures
      var y := Run(x, c, fps, actions);
      DeadEntry(y.s, c, id) && Inv(y.s, c, fps, y.log) && y.s.sequence <= x.s.sequence + |actions|
  {
    hide Inv, Next, Regular, DeadEntry;
    if actions != [] {
      var n := |actions| - 1;
      var y := Run(x, c, fps, actions[..n]);
      DeadEntriesStay(x, c, fps, actions[..n], id);
      NextKeeps(y, c, fps, actions[n]);
      NextKeepsDead(y, c, fps, actions[n], id);
    }
  }

  // ---------- Deliveries are in order ----------

  // A buffer with sequence number n is the one that submission n was given.
  predicate Known(s: State, c: nat, owners: seq<nat>) {
    && |owners| == s.sequence
    && forall i :: 0 <= i < |s.buffers| && Own(s.buffers[i], c) && s.buffers[i].sequence != 0 ==>
         s.buffers[i].sequence <= |owners| && owners[s.buffers[i].sequence - 1] == i
  }

  // The k-th delivery handed out the buffer of the k-th submission, with the frame of that number in it.
  predicate InOrder(x: System) {
    && x.s.delivery == |x.deliveries| + 1 && |x.deliveries| <= |x.owners|
    && forall k :: 0 <= k < |x.deliveries| ==>
         x.deliveries[k].buffer == x.owners[k] && x.deliveries[k].sequence == k + 1
  }

  // t has no sequence number that s did not have at the same place.
  predicate NoNewNumbers(s: State, t: State, c: nat) {
    && t.sequence == s.sequence && t.delivery == s.delivery
    && forall i :: 0 <= i < |t.buffers| && Own(t.buffers[i], c) && t.buffers[i].sequence != 0 ==>
         i < |s.buffers| && Own(s.buffers[i], c) && s.buffers[i].sequence == t.buffers[i].sequence
  }

  lemma NoNewNumbersKnown(s: State, t: State, c: nat, owners: seq<nat>)
    requires Known(s, c, owners) && NoNewNumbers(s, t, c)
    ensures Known(t, c, owners)
  {
  }

  lemma EventNumbers(s: State, c: nat, d: nat, e: Event)
    ensures NoNewNumbers(s, Hardware(s, d, e).0, c)
  {
    hide Settle, Remove;
  }

  lemma {:induction false} PumpNumbers(s: State, c: nat, d: nat, events: seq<Event>)
    ensures NoNewNumbers(s, Pump(s, d, events), c)
    decreases |events|
  {
    hide Hardware;
    if events != [] {
      EventNumbers(s, c, d, events[0]);
      PumpNumbers(Hardware(s, d, events[0]).0, c, d, events[1..]);
    }
  }

  lemma BeginNumbers(s: State, c: nat, f: nat, events: seq<Event>)
    ensures NoNewNumbers(s, Begin(s, c, f, events).0, c)
  {
    hide Pump;
    PumpNumbers(s, c, c, events);
  }

  lemma DestroyNumbers(s: State, c: nat, id: nat, events: seq<Event>)
    ensures NoNewNumbers(s, Destroy(s, c, id, events).0, c)
  {
    hide Pump;
    PumpNumbers(s, c, c, events);
  }

  lemma WithdrawNumbers(s: State, c: nat, id: nat, surface: nat)
    ensures NoNewNumbers(s, Withdraw(s, id, surface), c)
  {
  }

  // A submission gives the next number to its buffer, or to none.
  lemma SubmitNumbers(
    s: State, c: nat, fps: nat, id: nat, surface: nat, events: seq<Event>, taken: bool, owners: seq<nat>)
    requires Known(s, c, owners) && s.sequence < TWO_64 - 1
    ensures
      var t := Submit(s, c, fps, id, surface, events, taken).0;
      && t.delivery == s.delivery
      && Known(t, c, if t.sequence == s.sequence then owners else owners + [id])
  {
    hide Accept, Pump, Withdraw, FrameTag, Submittable;
    if fps > 0 && Submittable(s.buffers, s.surfaces, c, id, surface) {
      var (accepted, o) := Accept(s, c, fps, id, surface);
      AcceptIs(s, c, fps, id, surface);
      assert Known(accepted, c, owners + [id]);
      var pumped := Pump(accepted, c, events);
      PumpNumbers(accepted, c, c, events);
      NoNewNumbersKnown(accepted, pumped, c, owners + [id]);
      WithdrawNumbers(pumped, c, id, surface);
      NoNewNumbersKnown(pumped, Withdraw(pumped, id, surface), c, owners + [id]);
    }
  }

  // What a delivery adds.
  lemma DeliverNumbers(x: System, c: nat, id: nat)
    requires Known(x.s, c, x.owners) && InOrder(x)
    ensures
      var t := Deliver(x.s, c, id).0;
      && Known(t, c, x.owners)
      && InOrder(x.(s := t, deliveries := Append(x.deliveries, x.s, t, id)))
  {
  }

  lemma EnterNumbers(x: System, c: nat, id: nat, events: seq<Event>)
    requires Known(x.s, c, x.owners) && InOrder(x)
    ensures
      var t := Enter(x.s, c, id, events).0;
      && Known(t, c, x.owners)
      && InOrder(x.(s := t, deliveries := Append(x.deliveries, x.s, t, id)))
  {
    hide Pump, Deliver, Known;
    PumpNumbers(x.s, c, c, events);
    var pumped := Pump(x.s, c, events);
    NoNewNumbersKnown(x.s, pumped, c, x.owners);
    DeliverNumbers(x, c, id);
    DeliverNumbers(x.(s := pumped), c, id);
  }

  // A step that neither delivers nor gives out numbers.
  lemma QuietInOrder(x: System, y: System, c: nat)
    requires Known(x.s, c, x.owners) && InOrder(x) && NoNewNumbers(x.s, y.s, c)
    requires y.deliveries == x.deliveries && y.owners == x.owners
    ensures Known(y.s, c, y.owners) && InOrder(y)
  {
  }

  lemma GrownInOrder(x: System, y: System, id: nat)
    requires InOrder(x) && y.s.delivery == x.s.delivery && y.deliveries == x.deliveries
    requires y.owners == x.owners || y.owners == x.owners + [id]
    ensures InOrder(y)
  {
  }

  lemma CreateNumbers(s: State, c: nat, id: nat, coded: bool, capacity: nat)
    ensures NoNewNumbers(s, Create(s, c, id, coded, capacity).0, c)
  {
  }

  lemma ApartNumbers(s: State, t: State, c: nat)
    requires Apart(s, t, c) && t.sequence == s.sequence && t.delivery == s.delivery
    ensures NoNewNumbers(s, t, c)
  {
    hide Linked;
  }

  lemma SameInOrder(x: System, y: System)
    requires InOrder(x) && y.s.delivery == x.s.delivery && y.deliveries == x.deliveries && y.owners == x.owners
    ensures InOrder(y)
  {
  }

  lemma NextInOrder(x: System, c: nat, fps: nat, a: Action)
    requires Known(x.s, c, x.owners) && InOrder(x) && x.s.sequence < TWO_64 - 1
    ensures Known(Next(x, c, fps, a).s, c, Next(x, c, fps, a).owners) && InOrder(Next(x, c, fps, a))
  {
    hide Hardware, LogAfter, Submit, SubmitLog, Enter, EnterLog, Deliver, AfterTurn, Begin, BeginLog, Create, Destroy,
      DestroyLog, Append, Apart, WaitingApart, Known, InOrder, NoNewNumbers;
    var y := Next(x, c, fps, a);
    match a
    case BeginPicture(surface, events) =>
      if x.target.None? {
        BeginNumbers(x.s, c, surface, events);
        QuietInOrder(x, y, c);
      }
    case Submission(id, events, taken) =>
      if x.target.Some? {
        SubmitNumbers(x.s, c, fps, id, x.target.value, events, taken, x.owners);
        GrownInOrder(x, y, id);
      }
    case Report(e) =>
      EventNumbers(x.s, c, c, e);
      QuietInOrder(x, y, c);
    case Map(thread, id, events) =>
      if thread !in x.waiting {
        EnterNumbers(x, c, id, events);
        SameInOrder(x.(s := y.s, deliveries := y.deliveries), y);
      }
    case Wake(thread) =>
      if thread in x.waiting {
        DeliverNumbers(x, c, x.waiting[thread].buffer);
        if y != x {
          SameInOrder(x.(s := y.s, deliveries := y.deliveries), y);
        }
      }
    case CreateBuffer(id, coded, capacity) =>
      CreateNumbers(x.s, c, id, coded, capacity);
      QuietInOrder(x, y, c);
    case DestroyBuffer(id, events) =>
      DestroyNumbers(x.s, c, id, events);
      QuietInOrder(x, y, c);
    case Elsewhere(buffers, surfaces, _) =>
      if Apart(x.s, x.s.(buffers := buffers, surfaces := surfaces), c) {
        ApartNumbers(x.s, x.s.(buffers := buffers, surfaces := surfaces), c);
        if y != x {
          QuietInOrder(x, y, c);
        }
      }
  }

  // A step takes at most one sequence number.
  lemma NextSequenceSteps(x: System, c: nat, fps: nat, a: Action)
    requires x.s.sequence < TWO_64 - 1
    ensures x.s.sequence <= Next(x, c, fps, a).s.sequence <= x.s.sequence + 1
  {
    hide Hardware, LogAfter, Pump, PumpLog, Submit, SubmitLog, Enter, EnterLog, Deliver, AfterTurn, Begin, BeginLog,
      Destroy, DestroyLog, Append, Apart, WaitingApart;
    match a
    case BeginPicture(surface, events) => BeginNumbers(x.s, c, surface, events);
    case Submission(id, events, taken) =>
      if x.target.Some? {
        SubmitSequence(x.s, c, fps, id, x.target.value, events, taken);
      }
    case Report(e) => EventNumbers(x.s, c, c, e);
    case Map(thread, id, events) => EnterSequence(x.s, c, id, events);
    case Wake(thread) =>
      if thread in x.waiting {
        DeliverSequence(x.s, c, x.waiting[thread].buffer);
      }
    case CreateBuffer(id, coded, capacity) =>
    case DestroyBuffer(id, events) => DestroyNumbers(x.s, c, id, events);
    case Elsewhere(_, _, _) =>
  }

  lemma SubmitSequence(s: State, c: nat, fps: nat, id: nat, surface: nat, events: seq<Event>, taken: bool)
    requires s.sequence < TWO_64 - 1
    ensures s.sequence <= Submit(s, c, fps, id, surface, events, taken).0.sequence <= s.sequence + 1
  {
    hide Accept, Pump, Submittable, FrameTag, Withdraw;
    if fps > 0 && Submittable(s.buffers, s.surfaces, c, id, surface) {
      AcceptIs(s, c, fps, id, surface);
      var accepted := Accept(s, c, fps, id, surface).0;
      PumpNumbers(accepted, c, c, events);
      WithdrawNumbers(Pump(accepted, c, events), c, id, surface);
    }
  }

  lemma DeliverSequence(s: State, c: nat, id: nat)
    ensures Deliver(s, c, id).0.sequence == s.sequence
  {
  }

  lemma EnterSequence(s: State, c: nat, id: nat, events: seq<Event>)
    ensures Enter(s, c, id, events).0.sequence == s.sequence
  {
    hide Pump, Deliver;
    PumpNumbers(s, c, c, events);
    DeliverSequence(s, c, id);
    DeliverSequence(Pump(s, c, events), c, id);
  }

  lemma {:induction false} RunInOrder(x: System, c: nat, fps: nat, actions: seq<Action>)
    requires Initial(x, c) && |actions| < TWO_64
    ensures var y := Run(x, c, fps, actions); Known(y.s, c, y.owners) && InOrder(y) && y.s.sequence <= |actions|
  {
    hide Next;
    if actions != [] {
      var n := |actions| - 1;
      RunInOrder(x, c, fps, actions[..n]);
      NextInOrder(Run(x, c, fps, actions[..n]), c, fps, actions[n]);
      NextSequenceSteps(Run(x, c, fps, actions[..n]), c, fps, actions[n]);
    }
  }

  // Whatever clients, the hardware and other contexts do: the k-th delivery hands out the buffer of the k-th
  // submission with that frame in it, and no frame is delivered twice.
  lemma DeliveredInOrder(x: System, c: nat, fps: nat, actions: seq<Action>)
    requires Initial(x, c) && |actions| < TWO_64
    ensures
      var y := Run(x, c, fps, actions);
      && |y.deliveries| <= |y.owners|
      && (forall k :: 0 <= k < |y.deliveries| ==>
            y.deliveries[k].buffer == y.owners[k] && y.deliveries[k].sequence == k + 1)
      && forall j, k :: 0 <= j < k < |y.deliveries| ==> y.deliveries[j].sequence != y.deliveries[k].sequence
  {
    hide Run;
    RunInOrder(x, c, fps, actions);
  }
}
