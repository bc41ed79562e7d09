/**
  Whether a delivered frame is whole. A client that waits for its turn does not look at the frame again when the turn
  comes, so a buffer that is submitted again under a waiting client is handed out before its new frame is complete;
  here is exactly when that happens.
 */
module EncodeWhole {
  import opened Bitstring
  import opened EncodeBlocked
  import opened EncodeDeliverable
  import opened EncodeDelivery
  import opened EncodeInvariant
  import opened EncodeRuns
  import opened EncodeState
  import opened EncodeTables
  import opened Wrappers

  // Frames that the delivery counter has passed are complete.
  predicate ReadyFirst(s: State, c: nat) {
    forall i :: 0 <= i < |s.buffers| && Tagged(s.buffers[i], c) && s.buffers[i].sequence < s.delivery ==>
      s.buffers[i].ready
  }

  // The delivery carried all the packets of the frame with this tag, the final one among them, and told its status.
  predicate Carried(log: seq<Logged>, tag: nat, d: Delivery) {
    d.ready && Ended(log, tag) && Records(log, tag, d.contents, d.packets, d.damaged, d.overflowed)
  }

  // The k-th delivery carried all the packets of frame k, now and for good.
  predicate Whole(fps: nat, log: seq<Logged>, deliveries: seq<Delivery>)
    requires fps > 0
  {
    forall k :: 0 <= k < |deliveries| ==> Carried(log, FrameTag(k + 1, fps), deliveries[k])
  }

  // The turn of a client for frame n never comes.
  ghost predicate Hopeless(x: System, c: nat, n: nat) {
    exists m: nat :: 0 < m < n && Dead(x, c, m)
  }

  // When a client's turn for this buffer comes, the frame in it is complete.
  ghost predicate Safe(x: System, c: nat, id: nat) {
    id < |x.s.buffers| && Own(x.s.buffers[id], c) && x.s.buffers[id].sequence >= x.s.delivery ==>
      x.s.buffers[id].ready || Hopeless(x, c, x.s.buffers[id].sequence)
  }

  ghost predicate WaitersSafe(x: System, c: nat, waiting: map<nat, Waiter>) {
    forall th :: th in waiting ==> Safe(x, c, waiting[th].buffer)
  }

  // Delivering the buffer now hands out a complete frame.
  predicate Ripe(s: State, c: nat, id: nat) {
    id < |s.buffers| && Own(s.buffers[id], c) && s.buffers[id].sequence == s.delivery ==> s.buffers[id].ready
  }

  lemma SafeIsRipe(x: System, c: nat, id: nat)
    requires Safe(x, c, id)
    ensures Ripe(x.s, c, id)
  {
    hide Dead;
    forall m: nat | Dead(x, c, m) ensures m >= x.s.delivery {
      DeadIsUndelivered(x, c, m);
    }
  }

  // ---------- Packets ----------

  // A queued frame is still to be delivered.
  lemma QueuedIsUndelivered(s: State, c: nat, fps: nat, id: nat, k: nat)
    requires Bounded(s, fps) && TagsOk(s, c, fps) && WaitingOk(s, c) && ReadyFirst(s, c)
    requires id in s.queue && id < |s.buffers| && Tagged(s.buffers[id], c)
    requires k + 1 < s.delivery
    ensures s.buffers[id].tag != FrameTag(k + 1, fps)
  {
    hide FrameTag;
    assert TagOk(s.buffers[id], c, s.sequence, fps);
    TagsIncrease(k + 1, s.buffers[id].sequence, fps);
  }

  lemma CarriedOther(log: seq<Logged>, x: Logged, tag: nat, d: Delivery)
    requires x.tag != tag || x.Cut? || x.Read?
    ensures Carried(log + [x], tag, d) <==> Carried(log, tag, d)
  {
    hide Records, Ended;
    RecordsOther(log, x, tag);
    ReportsMore(log, x, tag);
  }

  // A packet that a queued frame was offered, stored or not, changes no frame that was delivered.
  lemma OfferedKeepsWhole(
    s: State, c: nat, fps: nat, log: seq<Logged>, deliveries: seq<Delivery>, id: nat, x: Logged)
    requires Bounded(s, fps) && TagsOk(s, c, fps) && WaitingOk(s, c) && ReadyFirst(s, c)
    requires s.delivery == |deliveries| + 1 && Whole(fps, log, deliveries)
    requires id in s.queue && id < |s.buffers| && Tagged(s.buffers[id], c) && x.tag == s.buffers[id].tag
    ensures Whole(fps, log + [x], deliveries)
  {
    hide FrameTag, Carried, TagsOk, WaitingOk, ReadyFirst, Tagged;
    forall k | 0 <= k < |deliveries| ensures Carried(log + [x], FrameTag(k + 1, fps), deliveries[k]) {
      QueuedIsUndelivered(s, c, fps, id, k);
      CarriedOther(log, x, FrameTag(k + 1, fps), deliveries[k]);
    }
  }

  lemma NotedKeepsWhole(fps: nat, log: seq<Logged>, deliveries: seq<Delivery>, x: Logged)
    requires fps > 0 && Whole(fps, log, deliveries) && (x.Cut? || x.Read?)
    ensures Whole(fps, log + [x], deliveries)
  {
    hide FrameTag, Carried;
    forall k | 0 <= k < |deliveries| ensures Carried(log + [x], FrameTag(k + 1, fps), deliveries[k]) {
      CarriedOther(log, x, FrameTag(k + 1, fps), deliveries[k]);
    }
  }

  lemma ReportedReady(s: State, t: State, c: nat)
    requires Reported(s, t) && ReadyFirst(s, c)
    ensures ReadyFirst(t, c)
  {
    assert forall i :: 0 <= i < |s.buffers| ==> SameFrameLater(s.buffers[i], t.buffers[i]);
  }

  lemma EventKeepsWhole(s: State, c: nat, fps: nat, log: seq<Logged>, deliveries: seq<Delivery>, e: Event)
    requires Bounded(s, fps) && Inv(s, c, fps, log) && ReadyFirst(s, c)
    requires s.delivery == |deliveries| + 1 && Whole(fps, log, deliveries)
    ensures Whole(fps, LogAfter(s, c, log, e), deliveries)
  {
    hide Stored, Overrun, StorePacket, ReadyFirst, Whole, FirstTagged;
    if e.Packet? {
      var (t, o) := Hardware(s, c, e);
      StorePacketIs(s, c, fps, e.tag, e.data, e.final, e.damaged);
      if e.data != [] && o.Pass? {
        var id: nat :|
          id < |s.buffers| && Stored(s, t, id, e.data, e.final, e.damaged) && s.buffers[id].tag == e.tag &&
          Mine(s.buffers[id], c);
        StoredWhere(s, t, id, e.data, e.final, e.damaged);
        OfferedKeepsWhole(s, c, fps, log, deliveries, id, Logged(e.tag, e.data, e.final, e.damaged));
      } else {
        if o == Fail(NoSpace) {
          var id: nat :|
            id < |s.buffers| && Overrun(s, t, id, e.data) && s.buffers[id].tag == e.tag && Mine(s.buffers[id], c);
          OverrunWhere(s, t, id, e.data);
          OfferedKeepsWhole(s, c, fps, log, deliveries, id, NoRoom(e.tag));
        }
        NotedKeepsWhole(fps, if o == Fail(NoSpace) then log + [NoRoom(e.tag)] else log, deliveries, Cut(e.tag));
      }
    } else {
      NotedKeepsWhole(fps, log, deliveries, Read(e.tag));
    }
  }

  lemma OverrunWhere(s: State, t: State, id: nat, data: seq<byte>)
    requires Overrun(s, t, id, data)
    ensures id in s.queue
  {
  }

  lemma {:induction false} PumpKeepsWhole(
    s: State, c: nat, fps: nat, log: seq<Logged>, deliveries: seq<Delivery>, events: seq<Event>)
    requires Bounded(s, fps) && Inv(s, c, fps, log) && ReadyFirst(s, c)
    requires s.delivery == |deliveries| + 1 && Whole(fps, log, deliveries)
    ensures Whole(fps, PumpLog(s, c, log, events), deliveries)
    decreases |events|
  {
    hide Inv, Hardware, LogAfter, ReadyFirst, Whole, Reported, QueueOk;
    if events != [] {
      var t, later := Hardware(s, c, events[0]).0, LogAfter(s, c, log, events[0]);
      InvQueue(s, c, fps, log);
      HardwareKeeps(s, c, fps, log, events[0]);
      EventReports(s, c, fps, events[0]);
      ReportedSizes(s, t);
      ReportedReady(s, t, c);
      EventKeepsWhole(s, c, fps, log, deliveries, events[0]);
      PumpKeepsWhole(t, c, fps, later, deliveries, events[1..]);
    }
  }

  // ---------- Submissions ----------

  lemma ResubmittedReady(s: State, t: State, c: nat, id: nat, passed: bool)
    requires Resubmitted(s, t, c, id, passed) && Told(s, c) && ReadyFirst(s, c)
    ensures ReadyFirst(t, c)
  {
    assert forall i :: 0 <= i < |s.buffers| && i != id ==> SameFrameLater(s.buffers[i], t.buffers[i]);
  }

  lemma SubmitKeepsWhole(
    s: State, c: nat, fps: nat, log: seq<Logged>, deliveries: seq<Delivery>, id: nat, surface: nat,
    events: seq<Event>, taken: bool)
    requires 0 < fps <= MICROSECONDS && s.sequence < MAX_FRAMES && Inv(s, c, fps, log) && Timely(s, fps, events)
    requires Told(s, c) && ReadyFirst(s, c) && s.delivery == |deliveries| + 1 && Whole(fps, log, deliveries)
    ensures ReadyFirst(Submit(s, c, fps, id, surface, events, taken).0, c)
    ensures Whole(fps, SubmitLog(s, c, fps, log, id, surface, events), deliveries)
    ensures Submit(s, c, fps, id, surface, events, taken).0.delivery == s.delivery
  {
    hide Inv, Told, ReadyFirst, Whole, Timely, Accept, Pump, PumpLog, Withdraw, Submittable, Resubmitted;
    if Submittable(s.buffers, s.surfaces, c, id, surface) {
      var (t, o) := Submit(s, c, fps, id, surface, events, taken);
      SubmitResubmits(s, c, fps, log, id, surface, events, taken);
      ResubmittedReady(s, t, c, id, o.Pass?);
      ResubmittedDelivery(s, t, c, id, o.Pass?);
      var accepted := Accept(s, c, fps, id, surface);
      AcceptResubmits(s, c, fps, id, surface);
      if accepted.1.Pass? {
        AcceptKeeps(s, c, fps, log, id, surface);
        ResubmittedReady(s, accepted.0, c, id, true);
        ResubmittedDelivery(s, accepted.0, c, id, true);
        PumpKeepsWhole(accepted.0, c, fps, log, deliveries, events);
      }
    }
  }

  lemma ResubmittedDelivery(s: State, t: State, c: nat, id: nat, passed: bool)
    requires Resubmitted(s, t, c, id, passed)
    ensures t.delivery == s.delivery
  {
  }

  // ---------- Deliveries ----------

  lemma DeliverKeepsWhole(s: State, c: nat, fps: nat, log: seq<Logged>, deliveries: seq<Delivery>, id: nat)
    requires Bounded(s, fps) && Inv(s, c, fps, log) && ReadyFirst(s, c)
    requires s.delivery == |deliveries| + 1 && s.delivery >= 1 && Whole(fps, log, deliveries)
    requires Ripe(s, c, id)
    ensures
      var t := Deliver(s, c, id).0;
      var later := Append(deliveries, s, t, id);
      ReadyFirst(t, c) && t.delivery == |later| + 1 && Whole(fps, log, later)
  {
    hide FrameTag, Joined, QueueOk, OrderOk, LinksOk, LogOk, WaitingOk;
    var t := Deliver(s, c, id).0;
    if t != s {
      assert s.buffers[id].sequence == s.delivery;
      OwnHolds(s, c, fps, id);
      assert HoldsFrame(s.buffers[id], c, log);
      assert s.buffers[id].ready;
      assert TagOk(s.buffers[id], c, s.sequence, fps);
    }
  }

  lemma EnterKeepsWhole(
    s: State, c: nat, fps: nat, log: seq<Logged>, deliveries: seq<Delivery>, id: nat, events: seq<Event>)
    requires Bounded(s, fps) && Inv(s, c, fps, log) && ReadyFirst(s, c)
    requires s.delivery == |deliveries| + 1 && s.delivery >= 1 && Whole(fps, log, deliveries)
    ensures
      var t := Enter(s, c, id, events).0;
      var later := Append(deliveries, s, t, id);
      ReadyFirst(t, c) && t.delivery == |later| + 1 && Whole(fps, EnterLog(s, c, log, id, events), later)
    ensures Enter(s, c, id, events).1 == Again ==>
              id < |Enter(s, c, id, events).0.buffers| && Enter(s, c, id, events).0.buffers[id].ready
  {
    hide Inv, ReadyFirst, Whole, Pump, PumpLog, Reported, Append;
    var pumped, later := Pump(s, c, events), PumpLog(s, c, log, events);
    PumpKeeps(s, c, fps, log, events);
    PumpReports(s, c, fps, log, events);
    ReportedSizes(s, pumped);
    ReportedReady(s, pumped, c);
    PumpKeepsWhole(s, c, fps, log, deliveries, events);
    NothingAppended(deliveries, s, s, id);
    NothingAppended(deliveries, s, pumped, id);
    if Live(s.buffers, id) && s.buffers[id].ready {
      DeliverKeepsWhole(s, c, fps, log, deliveries, id);
    } else if Live(pumped.buffers, id) && pumped.buffers[id].ready {
      DeliverKeepsWhole(pumped, c, fps, later, deliveries, id);
      SameAppended(deliveries, s, pumped, Deliver(pumped, c, id).0, id);
    }
  }

  lemma NothingAppended(deliveries: seq<Delivery>, s: State, t: State, id: nat)
    requires t.delivery == s.delivery
    ensures Append(deliveries, s, t, id) == deliveries
  {
  }

  lemma SameAppended(deliveries: seq<Delivery>, r: State, s: State, t: State, id: nat)
    requires r.delivery == s.delivery
    ensures Append(deliveries, r, t, id) == Append(deliveries, s, t, id)
  {
  }

  // ---------- Waiting clients ----------

  // The buffer has in t the number it had in s, if it is c's at all.
  predicate SameNumber(s: State, t: State, c: nat, id: nat) {
    id < |t.buffers| && Own(t.buffers[id], c) && t.buffers[id].sequence != 0 ==>
      && id < |s.buffers| && Own(s.buffers[id], c) && t.buffers[id].sequence == s.buffers[id].sequence
      && (s.buffers[id].ready ==> t.buffers[id].ready)
  }

  lemma SafeSame(x: System, y: System, c: nat, id: nat)
    requires Safe(x, c, id) && SameNumber(x.s, y.s, c, id) && 1 <= x.s.delivery <= y.s.delivery
    requires forall m: nat :: m > 0 && Dead(x, c, m) ==> Dead(y, c, m)
    ensures Safe(y, c, id)
  {
    hide Dead;
  }

  predicate SameAll(s: State, t: State, c: nat) {
    s.delivery <= t.delivery && forall id :: 0 <= id < |t.buffers| ==> SameNumber(s, t, c, id)
  }

  lemma SameKeepsSafe(x: System, y: System, c: nat, waiting: map<nat, Waiter>)
    requires WaitersSafe(x, c, waiting) && SameAll(x.s, y.s, c) && x.s.delivery >= 1
    requires forall m: nat :: m > 0 && Dead(x, c, m) ==> Dead(y, c, m)
    ensures WaitersSafe(y, c, waiting)
  {
    hide Dead, Safe, SameNumber;
    forall th | th in waiting ensures Safe(y, c, waiting[th].buffer) {
      if waiting[th].buffer < |y.s.buffers| {
        SafeSame(x, y, c, waiting[th].buffer);
      } else {
        SafeBeyond(y, c, waiting[th].buffer);
      }
    }
  }

  lemma SafeBeyond(y: System, c: nat, id: nat)
    requires id < |y.s.buffers| ==> !Own(y.s.buffers[id], c)
    ensures Safe(y, c, id)
  {
  }

  lemma ReportedSame(s: State, t: State, c: nat)
    requires Reported(s, t)
    ensures SameAll(s, t, c)
  {
    assert forall i :: 0 <= i < |s.buffers| ==> SameFrameLater(s.buffers[i], t.buffers[i]);
  }

  lemma DeliverSame(s: State, c: nat, id: nat)
    ensures SameAll(s, Deliver(s, c, id).0, c)
  {
  }

  lemma SameTwice(r: State, s: State, t: State, c: nat)
    requires SameAll(r, s, c) && SameAll(s, t, c)
    ensures SameAll(r, t, c)
  {
    forall id | 0 <= id < |t.buffers| ensures SameNumber(r, t, c, id) {
      assert SameNumber(s, t, c, id);
      if id < |s.buffers| {
        assert SameNumber(r, s, c, id);
      }
    }
  }

  lemma EnterSame(s: State, c: nat, fps: nat, log: seq<Logged>, id: nat, events: seq<Event>)
    requires Bounded(s, fps) && Inv(s, c, fps, log)
    ensures SameAll(s, Enter(s, c, id, events).0, c)
  {
    hide Inv, Pump, Deliver, SameAll, Reported;
    var pumped := Pump(s, c, events);
    PumpReports(s, c, fps, log, events);
    ReportedSame(s, pumped, c);
    SameReported(s);
    ReportedSame(s, s, c);
    DeliverSame(s, c, id);
    DeliverSame(pumped, c, id);
    SameTwice(s, pumped, Deliver(pumped, c, id).0, c);
  }

  lemma GoneSame(s: State, t: State, c: nat, id: nat)
    requires Gone(s, t, id)
    ensures SameAll(s, t, c)
  {
  }

  lemma DestroySame(s: State, c: nat, fps: nat, log: seq<Logged>, id: nat, events: seq<Event>)
    requires Bounded(s, fps) && Inv(s, c, fps, log)
    ensures SameAll(s, Destroy(s, c, id, events).0, c)
  {
    hide Inv, Reported, Destroy, DestroyLog, Pump, PumpLog, Waited, Linked, SameAll;
    var (t, o) := Destroy(s, c, id, events);
    DestroyIs(s, c, fps, log, id, events);
    SameReported(s);
    ReportedSame(s, s, c);
    if Live(s.buffers, id) && s.buffers[id].context == c {
      var waited := Waited(s, c, id, events);
      ReportedSizes(s, waited);
      ReportedSame(s, waited, c);
      if o.Pass? {
        GoneSame(waited, t, c, id);
        SameTwice(s, waited, t, c);
      }
    }
  }

  lemma ApartSame(s: State, t: State, c: nat)
    requires Apart(s, t, c) && t.delivery == s.delivery
    ensures SameAll(s, t, c)
  {
    hide Linked;
  }

  lemma CreateSame(s: State, c: nat, id: nat, coded: bool, capacity: nat)
    ensures SameAll(s, Create(s, c, id, coded, capacity).0, c)
  {
  }

  // ---------- Steps ----------

  // Every frame can still be delivered.
  predicate NothingDead(x: System, c: nat) {
    forall n :: x.s.delivery <= n <= x.s.sequence ==> !Dead(x, c, n)
  }

  // A buffer is submitted, and accepted, under a waiting client, and every frame can then still be delivered.
  predicate Rude(x: System, c: nat, fps: nat, a: Action) {
    && a.Submission? && x.target.Some?
    && Submit(x.s, c, fps, a.id, x.target.value, a.events, a.taken).1.Pass?
    && WaitedFor(x.waiting, a.id) && NothingDead(Next(x, c, fps, a), c)
  }

  ghost predicate WholeSystem(x: System, c: nat, fps: nat) {
    && Sane(x, c, fps) && x.s.delivery == |x.deliveries| + 1
    && ReadyFirst(x.s, c) && Whole(fps, x.log, x.deliveries) && WaitersSafe(x, c, x.waiting)
  }

  // A step of a hardware that sends nothing behind a final packet, and of clients that are not rude.
  predicate Fair(x: System, c: nat, fps: nat, a: Action)
    requires fps > 0
  {
    Regular(x, c, fps, a) && Proper(x.log, Events(a)) && !Rude(x, c, fps, a)
  }

  lemma PassedIsSubmittable(s: State, c: nat, fps: nat, id: nat, surface: nat, events: seq<Event>, taken: bool)
    requires Submit(s, c, fps, id, surface, events, taken).1.Pass?
    ensures fps > 0 && Submittable(s.buffers, s.surfaces, c, id, surface)
  {
  }

  // The frame in a buffer that a client waits for is not dead.
  lemma WaitedIsAlive(y: System, c: nat, fps: nat, id: nat, n: nat)
    requires Sane(y, c, fps) && Holds(y.s, c, id, n) && WaitedFor(y.waiting, id)
    ensures !Dead(y, c, n)
  {
    hide Inv, Told, Shut;
    HeldIsNotLost(y.s, c, id, n);
    InvParts(y.s, c, fps, y.log);
    forall other: nat | other < |y.s.buffers| && Open(y.s, c, other, n) ensures other == id {
      HoldsOnce(y.s, c, id, other, n);
    }
  }

  lemma PassedHolds(x: System, c: nat, fps: nat, a: Action)
    requires Sane(x, c, fps) && x.s.sequence < MAX_FRAMES && Regular(x, c, fps, a) && a.Submission? && x.target.Some?
    requires Submit(x.s, c, fps, a.id, x.target.value, a.events, a.taken).1.Pass?
    ensures
      var y := Next(x, c, fps, a);
      && Sane(y, c, fps) && y.waiting == x.waiting && y.s.sequence == x.s.sequence + 1
      && y.s.delivery == x.s.delivery && Holds(y.s, c, a.id, y.s.sequence)
  {
    hide Inv, Told, Submit, SubmitLog, Submittable, Timely;
    PassedIsSubmittable(x.s, c, fps, a.id, x.target.value, a.events, a.taken);
    SubmitResubmits(x.s, c, fps, x.log, a.id, x.target.value, a.events, a.taken);
    NextLosesExactly(x, c, fps, a, 1);
  }

  // A polite submission leaves a waiting client a complete frame, or one whose turn never comes.
  lemma SubmittedSafe(x: System, c: nat, fps: nat, a: Action)
    requires Sane(x, c, fps) && x.s.sequence < MAX_FRAMES && Fair(x, c, fps, a)
    requires a.Submission? && x.target.Some? && WaitedFor(x.waiting, a.id)
    requires Submittable(x.s.buffers, x.s.surfaces, c, a.id, x.target.value)
    ensures Safe(Next(x, c, fps, a), c, a.id)
  {
    hide Inv, Told, Dead, Submit, SubmitLog, Submittable, Timely, Proper;
    var o := Submit(x.s, c, fps, a.id, x.target.value, a.events, a.taken).1;
    SubmitResubmits(x.s, c, fps, x.log, a.id, x.target.value, a.events, a.taken);
    ToldBounds(x.s, c);
    if o.Pass? {
      var y := Next(x, c, fps, a);
      PassedHolds(x, c, fps, a);
      WaitedIsAlive(y, c, fps, a.id, y.s.sequence);
      var n :| y.s.delivery <= n <= y.s.sequence && Dead(y, c, n);
      assert 0 < n < y.s.sequence;
    }
  }

  lemma ResubmittedSafe(x: System, y: System, c: nat, id: nat, passed: bool, other: nat)
    requires Resubmitted(x.s, y.s, c, id, passed) && x.s.delivery >= 1 && Safe(x, c, other) && other != id
    requires forall m: nat :: m > 0 && Dead(x, c, m) ==> Dead(y, c, m)
    ensures Safe(y, c, other)
  {
    hide Dead, Safe;
    if other < |y.s.buffers| {
      assert SameFrameLater(x.s.buffers[other], y.s.buffers[other]);
      SafeSame(x, y, c, other);
    } else {
      SafeBeyond(y, c, other);
    }
  }

  lemma SubmissionKeepsWhole(x: System, c: nat, fps: nat, a: Action)
    requires WholeSystem(x, c, fps) && x.s.sequence < MAX_FRAMES && Fair(x, c, fps, a) && a.Submission?
    ensures WholeSystem(Next(x, c, fps, a), c, fps)
  {
    hide Inv, Told, Dead, Safe, ReadyFirst, Whole, Submit, SubmitLog, Submittable, Timely, Proper, Rude, Resubmitted;
    NextLosesExactly(x, c, fps, a, 1);
    if x.target.Some? {
      var surface, y := x.target.value, Next(x, c, fps, a);
      SubmitKeepsWhole(x.s, c, fps, x.log, x.deliveries, a.id, surface, a.events, a.taken);
      DeadStays(x, c, fps, a);
      ToldBounds(x.s, c);
      if Submittable(x.s.buffers, x.s.surfaces, c, a.id, surface) {
        var (t, o) := Submit(x.s, c, fps, a.id, surface, a.events, a.taken);
        SubmitResubmits(x.s, c, fps, x.log, a.id, surface, a.events, a.taken);
        forall th | th in x.waiting ensures Safe(y, c, x.waiting[th].buffer) {
          if x.waiting[th].buffer == a.id {
            SubmittedSafe(x, c, fps, a);
          } else {
            ResubmittedSafe(x, y, c, a.id, o.Pass?, x.waiting[th].buffer);
          }
        }
      } else {
        SubmitRefused(x.s, c, fps, a.id, surface, a.events, a.taken);
        SameStateSame(x.s, c);
        SameKeepsSafe(x, y, c, x.waiting);
      }
    }
  }

  lemma SameStateSame(s: State, c: nat)
    ensures SameAll(s, s, c)
  {
  }

  lemma TurnKeepsSafe(y: System, c: nat, waiting: map<nat, Waiter>, thread: nat, id: nat, attempts: nat, turn: Turn)
    requires WaitersSafe(y, c, waiting) && (turn == Again ==> Safe(y, c, id))
    ensures WaitersSafe(y, c, AfterTurn(waiting, thread, id, attempts, turn))
  {
    hide Safe;
  }

  lemma ReadyIsSafe(y: System, c: nat, id: nat)
    requires id < |y.s.buffers| && y.s.buffers[id].ready
    ensures Safe(y, c, id)
  {
    hide Dead;
  }

  lemma MapKeepsWhole(x: System, c: nat, fps: nat, a: Action)
    requires WholeSystem(x, c, fps) && x.s.sequence < MAX_FRAMES && Fair(x, c, fps, a)
    requires a.Map? && a.thread !in x.waiting
    ensures WholeSystem(Next(x, c, fps, a), c, fps)
  {
    hide Inv, Told, Dead, Safe, ReadyFirst, Whole, Enter, EnterLog, AfterTurn, Append, WaitersSafe, SameAll, Proper;
    NextLosesExactly(x, c, fps, a, 1);
    DeadStays(x, c, fps, a);
    ToldBounds(x.s, c);
    var y, turn := Next(x, c, fps, a), Enter(x.s, c, a.id, a.events).1;
    EnterKeepsWhole(x.s, c, fps, x.log, x.deliveries, a.id, a.events);
    EnterSame(x.s, c, fps, x.log, a.id, a.events);
    SameKeepsSafe(x, y, c, x.waiting);
    if turn == Again {
      ReadyIsSafe(y, c, a.id);
    }
    TurnKeepsSafe(y, c, x.waiting, a.thread, a.id, 0, turn);
  }

  lemma WakeKeepsWhole(x: System, c: nat, fps: nat, a: Action)
    requires WholeSystem(x, c, fps) && x.s.sequence < MAX_FRAMES && Fair(x, c, fps, a)
    requires a.Wake? && a.thread in x.waiting
    ensures WholeSystem(Next(x, c, fps, a), c, fps)
  {
    hide Inv, Told, Dead, Safe, ReadyFirst, Whole, Deliver, AfterTurn, Append, SameAll, WaitersSafe, Ripe, Proper;
    var w, y := x.waiting[a.thread], Next(x, c, fps, a);
    NextLosesExactly(x, c, fps, a, 1);
    DeadStays(x, c, fps, a);
    ToldBounds(x.s, c);
    if !(Live(x.s.buffers, w.buffer) && x.s.buffers[w.buffer].context != c) {
      WaiterIsSafe(x, c, x.waiting, a.thread);
      SafeIsRipe(x, c, w.buffer);
      DeliverKeepsWhole(x.s, c, fps, x.log, x.deliveries, w.buffer);
      DeliverSame(x.s, c, w.buffer);
      SameKeepsSafe(x, y, c, x.waiting);
      WaiterIsSafe(y, c, x.waiting, a.thread);
      TurnKeepsSafe(y, c, x.waiting, a.thread, w.buffer, w.attempts, Deliver(x.s, c, w.buffer).1);
    }
  }

  lemma WaiterIsSafe(x: System, c: nat, waiting: map<nat, Waiter>, thread: nat)
    requires WaitersSafe(x, c, waiting) && thread in waiting
    ensures Safe(x, c, waiting[thread].buffer)
  {
  }

  lemma CreateReady(s: State, c: nat, id: nat, coded: bool, capacity: nat)
    requires ReadyFirst(s, c)
    ensures ReadyFirst(Create(s, c, id, coded, capacity).0, c)
  {
  }

  lemma GoneReady(s: State, t: State, c: nat, id: nat)
    requires Gone(s, t, id) && ReadyFirst(s, c)
    ensures ReadyFirst(t, c)
  {
  }

  lemma ApartReady(s: State, t: State, c: nat)
    requires Apart(s, t, c) && t.delivery == s.delivery && ReadyFirst(s, c)
    ensures ReadyFirst(t, c)
  {
    hide Linked;
  }

  lemma DestroyKeepsWhole(
    s: State, c: nat, fps: nat, log: seq<Logged>, deliveries: seq<Delivery>, id: nat, events: seq<Event>)
    requires Bounded(s, fps) && Inv(s, c, fps, log) && ReadyFirst(s, c)
    requires s.delivery == |deliveries| + 1 && Whole(fps, log, deliveries)
    ensures ReadyFirst(Destroy(s, c, id, events).0, c)
    ensures Whole(fps, DestroyLog(s, c, log, id, events), deliveries)
    ensures Destroy(s, c, id, events).0.delivery == s.delivery
  {
    hide Inv, Reported, Destroy, Pump, PumpLog, Linked, ReadyFirst, Whole;
    DestroyIs(s, c, fps, log, id, events);
    PumpKeepsWhole(s, c, fps, log, deliveries, events);
    if Live(s.buffers, id) && s.buffers[id].context == c {
      var waited := Waited(s, c, id, events);
      ReportedSizes(s, waited);
      ReportedReady(s, waited, c);
      if Destroy(s, c, id, events).1.Pass? {
        GoneReady(waited, Destroy(s, c, id, events).0, c, id);
      }
    }
  }

  lemma BeginKeepsWhole(
    s: State, c: nat, fps: nat, log: seq<Logged>, deliveries: seq<Delivery>, f: nat, events: seq<Event>)
    requires Bounded(s, fps) && Inv(s, c, fps, log) && ReadyFirst(s, c)
    requires s.delivery == |deliveries| + 1 && Whole(fps, log, deliveries)
    ensures ReadyFirst(Begin(s, c, f, events).0, c)
    ensures Whole(fps, BeginLog(s, c, log, f, events), deliveries)
    ensures Begin(s, c, f, events).0.delivery == s.delivery && SameAll(s, Begin(s, c, f, events).0, c)
  {
    hide Inv, Reported, Begin, Pump, PumpLog, ReadyFirst, Whole, SameAll;
    var t := Begin(s, c, f, events).0;
    BeginKeeps(s, c, fps, log, f, events);
    PumpKeepsWhole(s, c, fps, log, deliveries, events);
    ReportedSizes(s, t);
    ReportedReady(s, t, c);
    ReportedSame(s, t, c);
  }

  // Clients that another context leaves waiting for a buffer of this one waited for it before.
  lemma ElsewhereKeepsSafe(x: System, y: System, c: nat)
    requires WaitersSafe(x, c, x.waiting) && SameAll(x.s, y.s, c) && x.s.delivery >= 1
    requires WaitingApart(x.waiting, y.waiting, y.s, c)
    requires forall m: nat :: m > 0 && Dead(x, c, m) ==> Dead(y, c, m)
    ensures WaitersSafe(y, c, y.waiting)
  {
    hide Dead, Safe, SameAll;
    SameKeepsSafe(x, y, c, x.waiting);
    forall th | th in y.waiting ensures Safe(y, c, y.waiting[th].buffer) {
      if !(th in x.waiting && x.waiting[th].buffer == y.waiting[th].buffer) {
        SafeBeyond(y, c, y.waiting[th].buffer);
      }
    }
  }

  lemma ElsewhereKeepsWhole(x: System, c: nat, fps: nat, a: Action)
    requires WholeSystem(x, c, fps) && x.s.sequence < MAX_FRAMES && Fair(x, c, fps, a) && a.Elsewhere?
    ensures WholeSystem(Next(x, c, fps, a), c, fps)
  {
    hide Inv, Told, Dead, Safe, ReadyFirst, Whole, Apart, SameAll, WaitersSafe, WaitingApart, Proper;
    var y := Next(x, c, fps, a);
    NextLosesExactly(x, c, fps, a, 1);
    DeadStays(x, c, fps, a);
    ToldBounds(x.s, c);
    if y != x {
      ApartReady(x.s, y.s, c);
      ApartSame(x.s, y.s, c);
      SameWaitingApart(x.waiting, y.waiting, x.s.(buffers := a.buffers, surfaces := a.surfaces), y.s, c);
      ElsewhereKeepsSafe(x, y, c);
    }
  }

  lemma SameWaitingApart(before: map<nat, Waiter>, after: map<nat, Waiter>, s: State, t: State, c: nat)
    requires WaitingApart(before, after, s, c) && t.buffers == s.buffers
    ensures WaitingApart(before, after, t, c)
  {
  }

  lemma NextKeepsWhole(x: System, c: nat, fps: nat, a: Action)
    requires WholeSystem(x, c, fps) && x.s.sequence < MAX_FRAMES && Fair(x, c, fps, a)
    ensures WholeSystem(Next(x, c, fps, a), c, fps)
  {
    hide Inv, Told, Dead, Safe, ReadyFirst, Whole, Hardware, LogAfter, Begin, BeginLog, Enter, EnterLog, Deliver,
      Create, Destroy, DestroyLog, Apart, AfterTurn, Append, SameAll, WaitersSafe, Submitted, Regular, Reported, Rude,
      Proper;
    NextLosesExactly(x, c, fps, a, 1);
    DeadStays(x, c, fps, a);
    ToldBounds(x.s, c);
    var y := Next(x, c, fps, a);
    SameStateSame(x.s, c);
    match a
    case BeginPicture(surface, events) =>
      BeginKeepsWhole(x.s, c, fps, x.log, x.deliveries, surface, events);
      SameKeepsSafe(x, y, c, x.waiting);
    case Submission(_, _, _) => SubmissionKeepsWhole(x, c, fps, a);
    case Report(e) =>
      InvParts(x.s, c, fps, x.log);
      EventReports(x.s, c, fps, e);
      EventKeepsWhole(x.s, c, fps, x.log, x.deliveries, e);
      ReportedSizes(x.s, y.s);
      ReportedReady(x.s, y.s, c);
      ReportedSame(x.s, y.s, c);
      SameKeepsSafe(x, y, c, x.waiting);
    case Map(thread, _, _) =>
      if thread !in x.waiting {
        MapKeepsWhole(x, c, fps, a);
      }
    case Wake(thread) =>
      if thread in x.waiting {
        WakeKeepsWhole(x, c, fps, a);
      }
    case CreateBuffer(id, coded, capacity) =>
      CreateReady(x.s, c, id, coded, capacity);
      CreateSequence(x.s, c, id, coded, capacity);
      CreateSame(x.s, c, id, coded, capacity);
      SameKeepsSafe(x, y, c, x.waiting);
    case DestroyBuffer(id, events) =>
      DestroyKeepsWhole(x.s, c, fps, x.log, x.deliveries, id, events);
      DestroySame(x.s, c, fps, x.log, id, events);
      SameKeepsSafe(x, y, c, x.waiting);
    case Elsewhere(_, _, _) => ElsewhereKeepsWhole(x, c, fps, a);
  }

  predicate FairRun(x: System, c: nat, fps: nat, actions: seq<Action>)
    requires fps > 0
  {
    actions == [] ||
    (FairRun(x, c, fps, actions[..|actions| - 1]) &&
     Fair(Run(x, c, fps, actions[..|actions| - 1]), c, fps, actions[|actions| - 1]))
  }

  lemma InitialWhole(x: System, c: nat, fps: nat)
    requires 0 < fps <= MICROSECONDS && Initial(x, c)
    ensures WholeSystem(x, c, fps)
  {
    hide FrameTag, Joined, Inv;
    InitialOk(x, c, fps);
  }

  lemma {:induction false} FairRunKeepsWhole(x: System, c: nat, fps: nat, actions: seq<Action>)
    requires 0 < fps <= MICROSECONDS && |actions| <= MAX_FRAMES && Initial(x, c) && FairRun(x, c, fps, actions)
    ensures RegularRun(x, c, fps, actions) && WholeSystem(Run(x, c, fps, actions), c, fps)
    ensures Run(x, c, fps, actions).s.sequence <= |actions|
  {
    hide Next, Regular, Proper, Rude, WholeSystem, Sane;
    if actions == [] {
      InitialWhole(x, c, fps);
    } else {
      var m := |actions| - 1;
      FairRunKeepsWhole(x, c, fps, actions[..m]);
      NextKeepsWhole(Run(x, c, fps, actions[..m]), c, fps, actions[m]);
      RunSane(x, c, fps, actions);
    }
  }

  // In a run without rude submissions the n-th delivery carries all the packets of the n-th frame up to the final one,
  // and tells whether one of them had the error flag or found no room; no packet of the frame comes later.
  lemma DeliveredWhole(x: System, c: nat, fps: nat, actions: seq<Action>, n: nat)
    requires 0 < fps <= MICROSECONDS && |actions| <= MAX_FRAMES && Initial(x, c) && FairRun(x, c, fps, actions)
    requires 0 < n <= |Run(x, c, fps, actions).deliveries|
    ensures
      var y := Run(x, c, fps, actions);
      var d, tag := y.deliveries[n - 1], FrameTag(n, fps);
      && d.ready && Ended(y.log, tag) && d.contents == Joined(y.log, tag) && d.packets == Count(y.log, tag)
      && (d.damaged <==> Flagged(y.log, tag)) && (d.overflowed <==> NoRoom(tag) in y.log)
  {
    hide Run, FrameTag, Joined, Count, Flagged, Ended, Sane, FairRun;
    FairRunKeepsWhole(x, c, fps, actions);
  }

  // ---------- A rude submission ----------

  lemma PassedIsEmpty(
    s: State, c: nat, fps: nat, log: seq<Logged>, id: nat, surface: nat, events: seq<Event>, taken: bool)
    requires 0 < fps <= MICROSECONDS && s.sequence < MAX_FRAMES && Inv(s, c, fps, log) && Timely(s, fps, events)
    requires Submit(s, c, fps, id, surface, events, taken).1.Pass?
    ensures
      var t := Submit(s, c, fps, id, surface, events, taken).0;
      Holds(t, c, id, s.sequence + 1) && !t.buffers[id].ready
  {
    hide Inv, Accept, Pump, FrameTag, Submittable;
    PassedIsSubmittable(s, c, fps, id, surface, events, taken);
    var accepted := Accept(s, c, fps, id, surface).0;
    AcceptIs(s, c, fps, id, surface);
    TagPositive(s.sequence + 1, fps);
    AcceptedIsNewest(s, c, fps, id, surface);
    PumpAvoids(accepted, c, events, id, accepted.buffers[id]);
  }

  // After a rude submission, the frames before it can be delivered, and then the waiting client is handed the new frame
  // before it is complete.
  lemma RudeDeliversEarly(x: System, c: nat, fps: nat, a: Action) returns (more: seq<Action>)
    requires Sane(x, c, fps) && x.s.sequence + 1 < MAX_FRAMES && Regular(x, c, fps, a) && Rude(x, c, fps, a)
    ensures RegularRun(Next(x, c, fps, a), c, fps, more) && ProperRun(Next(x, c, fps, a), c, fps, more)
    ensures
      var d := Run(Next(x, c, fps, a), c, fps, more).deliveries;
      d != [] && !d[|d| - 1].ready && d[|d| - 1].sequence == x.s.sequence + 1
  {
    hide Sane, Dead, Submit, SubmitLog, Next, Regular, Proper, Timely;
    var y := Next(x, c, fps, a);
    RudeIsEmpty(x, c, fps, a);
    SaneTold(x, c, fps);
    var before := ServeAll(y, c, fps, x.s.sequence);
    var z := Run(y, c, fps, before);
    ServedBounds(y, z, c, fps, x.s.sequence);
    ServedUntouched(y, z, c, fps, x.s.sequence, a.id);
    var thread :| thread in z.waiting && z.waiting[thread].buffer == a.id;
    ServeWaiting(z, c, fps, thread);
    more := before + [Wake(thread)];
    assert more[..|before|] == before;
  }

  lemma RudeIsEmpty(x: System, c: nat, fps: nat, a: Action)
    requires Sane(x, c, fps) && x.s.sequence < MAX_FRAMES && Regular(x, c, fps, a) && Rude(x, c, fps, a)
    ensures
      var y := Next(x, c, fps, a);
      && Sane(y, c, fps) && y.waiting == x.waiting && y.s.sequence == x.s.sequence + 1
      && y.s.delivery == x.s.delivery && Holds(y.s, c, a.id, y.s.sequence) && !y.s.buffers[a.id].ready
  {
    hide Inv, Told, Dead, Submit, SubmitLog, Timely;
    PassedHolds(x, c, fps, a);
    PassedIsEmpty(x.s, c, fps, x.log, a.id, x.target.value, a.events, a.taken);
  }

  lemma ServedUntouched(y: System, z: System, c: nat, fps: nat, n: nat, id: nat)
    requires ServedTo(y, z, c, fps, n) && Holds(y.s, c, id, n + 1)
    ensures Untouched(y, z, id) && Holds(z.s, c, id, n + 1)
  {
    hide Sane, Lost, Untouched;
    UntouchedHolds(y, z, c, id, n + 1);
  }
}
