/**
  Which frames of an encode context can be delivered. Besides the frames that are lost, one whose final packet was
  refused or empty, or whose buffer is full before it, never becomes complete, and nothing behind it is delivered
  either; nothing else blocks.
 */
module EncodeBlocked {
  import opened Bitstring
  import opened EncodeDelivery
  import opened EncodeInvariant
  import opened EncodeRuns
  import opened EncodeState
  import opened EncodeTables

  // ---------- Frames that cannot become complete ----------

  // No packet is stored in the buffer any more: its frame ended without being complete, or there is no room.
  predicate Shut(b: Buffer, log: seq<Logged>) {
    Cut(b.tag) in log || |b.contents| == b.capacity
  }

  // Buffer id holds frame n, which is not complete.
  predicate Open(s: State, c: nat, id: nat, n: nat) {
    Holds(s, c, id, n) && !s.buffers[id].ready
  }

  // Frame n will never be complete.
  predicate Blocked(s: State, c: nat, log: seq<Logged>, n: nat) {
    exists id: nat :: id < |s.buffers| && Open(s, c, id, n) && Shut(s.buffers[id], log)
  }

  // The hardware sends no packet of a frame behind its final one.
  predicate Proper(log: seq<Logged>, events: seq<Event>) {
    forall k :: 0 <= k < |events| && events[k].Packet? ==> Cut(events[k].tag) !in log
  }

  // Buffer id still holds the same incomplete frame, and takes no packet.
  predicate StaysShut(s: State, t: State, later: seq<Logged>, id: nat)
    requires id < |s.buffers|
  {
    && id < |t.buffers| && SameFrameLater(s.buffers[id], t.buffers[id]) && !t.buffers[id].ready
    && t.buffers[id].capacity == s.buffers[id].capacity && Shut(t.buffers[id], later)
  }

  predicate Grows(log: seq<Logged>, later: seq<Logged>) {
    forall x :: x in log ==> x in later
  }

  lemma StoredElsewhere(
    s: State, t: State, id: nat, data: seq<byte>, final: bool, damaged: bool, other: nat, log: seq<Logged>)
    requires Stored(s, t, id, data, final, damaged) && other < |s.buffers| && data != []
    requires Shut(s.buffers[other], log) && !s.buffers[other].ready
    requires Cut(s.buffers[id].tag) !in log
    ensures StaysShut(s, t, log, other)
  {
    hide Settle, Remove;
  }

  lemma EventStaysShut(s: State, c: nat, fps: nat, log: seq<Logged>, e: Event, id: nat)
    requires Bounded(s, fps) && QueueOk(s, c) && id < |s.buffers| && !s.buffers[id].ready
    requires Shut(s.buffers[id], log) && (e.Packet? ==> Cut(e.tag) !in log)
    ensures StaysShut(s, Hardware(s, c, e).0, log, id)
  {
    hide StorePacket, Stored, Settle, FirstAwaiting, QueueOk, Shut;
    var t := Hardware(s, c, e).0;
    if e.Packet? {
      StorePacketIs(s, c, fps, e.tag, e.data, e.final, e.damaged);
      if e.data != [] && Hardware(s, c, e).1.Pass? {
        var x: nat :| x < |s.buffers| && Stored(s, t, x, e.data, e.final, e.damaged) && s.buffers[x].tag == e.tag;
        StoredElsewhere(s, t, x, e.data, e.final, e.damaged, id, log);
      } else {
        SameIsShut(s.buffers[id], t.buffers[id], log);
      }
    } else {
      SameIsShut(s.buffers[id], t.buffers[id], log);
    }
  }

  lemma SameIsShut(a: Buffer, b: Buffer, log: seq<Logged>)
    requires Shut(a, log) && b.tag == a.tag && b.contents == a.contents && b.capacity == a.capacity
    ensures Shut(b, log)
  {
  }

  lemma LaterStaysShut(s: State, t: State, u: State, log: seq<Logged>, id: nat)
    requires id < |s.buffers| && StaysShut(s, t, log, id) && StaysShut(t, u, log, id)
    ensures StaysShut(s, u, log, id)
  {
  }

  lemma {:induction false} PumpStaysShut(
    s: State, c: nat, fps: nat, log: seq<Logged>, events: seq<Event>, id: nat, cuts: seq<Logged>)
    requires Bounded(s, fps) && Inv(s, c, fps, log) && id < |s.buffers| && !s.buffers[id].ready
    requires Shut(s.buffers[id], cuts) && Proper(cuts, events)
    ensures StaysShut(s, Pump(s, c, events), cuts, id)
    decreases |events|
  {
    hide Inv, Hardware, LogAfter, QueueOk, Shut;
    if events != [] {
      var t := Hardware(s, c, events[0]).0;
      InvQueue(s, c, fps, log);
      EventStaysShut(s, c, fps, cuts, events[0], id);
      HardwareKeeps(s, c, fps, log, events[0]);
      PumpStaysShut(t, c, fps, LogAfter(s, c, log, events[0]), events[1..], id, cuts);
      LaterStaysShut(s, t, Pump(s, c, events), cuts, id);
    }
  }

  lemma {:induction false} PumpLogGrows(s: State, c: nat, log: seq<Logged>, events: seq<Event>)
    ensures Grows(log, PumpLog(s, c, log, events))
    decreases |events|
  {
    hide Hardware;
    if events != [] {
      PumpLogGrows(Hardware(s, c, events[0]).0, c, LogAfter(s, c, log, events[0]), events[1..]);
    }
  }

  lemma GrownStaysShut(s: State, t: State, log: seq<Logged>, later: seq<Logged>, id: nat)
    requires id < |s.buffers| && StaysShut(s, t, log, id) && Grows(log, later)
    ensures StaysShut(s, t, later, id)
  {
  }

  // ---------- How frames get blocked ----------

  // The report ends frame n short of its final packet: that packet is empty or has no room, or an earlier one takes all
  // the room there is.
  predicate Blocks(s: State, c: nat, e: Event, n: nat) {
    && e.Packet?
    && exists id: nat ::
         && id < |s.buffers| && Open(s, c, id, n) && s.buffers[id].tag == e.tag
         && var left := s.buffers[id].capacity - |s.buffers[id].contents|;
            if e.final then e.data == [] || |e.data| > left else e.data != [] && |e.data| == left
  }

  // Exactly when a report makes a frame impossible to complete.
  lemma ReportBlocksExactly(s: State, c: nat, fps: nat, log: seq<Logged>, e: Event, n: nat)
    requires Bounded(s, fps) && Inv(s, c, fps, log) && Proper(log, [e])
    ensures Blocked(Hardware(s, c, e).0, c, LogAfter(s, c, log, e), n) <==>
            Blocked(s, c, log, n) || Blocks(s, c, e, n)
  {
    hide Inv, Hardware, LogAfter, Blocked, Blocks, Shut, Open;
    var t, later := Hardware(s, c, e).0, LogAfter(s, c, log, e);
    InvQueue(s, c, fps, log);
    EventReports(s, c, fps, e);
    if Blocked(s, c, log, n) {
      BlockedStays(s, c, fps, log, e, n);
    }
    if Blocks(s, c, e, n) {
      BlocksBlocks(s, c, fps, log, e, n);
    }
    if Blocked(t, c, later, n) {
      BlockedBecause(s, c, fps, log, e, n);
    }
  }

  lemma OpenLater(s: State, t: State, c: nat, id: nat, n: nat)
    requires Reported(s, t) && id < |s.buffers|
    ensures Open(t, c, id, n) ==> Open(s, c, id, n)
    ensures Open(s, c, id, n) && !t.buffers[id].ready ==> Open(t, c, id, n)
  {
    assert SameFrameLater(s.buffers[id], t.buffers[id]);
  }

  lemma BlockedStays(s: State, c: nat, fps: nat, log: seq<Logged>, e: Event, n: nat)
    requires Bounded(s, fps) && QueueOk(s, c) && Proper(log, [e]) && Blocked(s, c, log, n)
    ensures Blocked(Hardware(s, c, e).0, c, LogAfter(s, c, log, e), n)
  {
    hide Hardware, Shut, QueueOk, LogAfter, Reported;
    var t := Hardware(s, c, e).0;
    var id: nat :| id < |s.buffers| && Open(s, c, id, n) && Shut(s.buffers[id], log);
    assert e.Packet? ==> Cut([e][0].tag) !in log;
    EventStaysShut(s, c, fps, log, e, id);
    EventReports(s, c, fps, e);
    OpenLater(s, t, c, id, n);
    EventLogGrows(s, c, log, e);
    GrownStaysShut(s, t, log, LogAfter(s, c, log, e), id);
  }

  lemma EventLogGrows(s: State, c: nat, log: seq<Logged>, e: Event)
    ensures Grows(log, LogAfter(s, c, log, e))
  {
  }

  // The tag of a frame that is not complete finds its buffer in the queue.
  lemma OpenIsFound(s: State, c: nat, fps: nat, log: seq<Logged>, id: nat, n: nat)
    requires Bounded(s, fps) && Inv(s, c, fps, log) && Open(s, c, id, n)
    ensures s.buffers[id].tag != 0 && s.queue != []
    ensures
      var k := FirstTagged(s.queue, s.buffers, s.buffers[id].tag);
      k.Some? && k.value < |s.queue| && s.queue[k.value] == id
  {
    hide FirstTagged, FrameTag, OrderOk, LinksOk, LogOk, Joined;
    var tag := s.buffers[id].tag;
    assert id in s.queue;
    var q :| 0 <= q < |s.queue| && s.queue[q] == id;
    assert Matches(s.buffers, s.queue[q], tag);
    FoundIsTagged(s, c, tag);
    var k := FirstTagged(s.queue, s.buffers, tag).value;
    if s.queue[k] != id {
      TagsDiffer(s, c, fps, s.queue[k], id);
    }
  }

  lemma BlocksBlocks(s: State, c: nat, fps: nat, log: seq<Logged>, e: Event, n: nat)
    requires Bounded(s, fps) && Inv(s, c, fps, log) && Blocks(s, c, e, n)
    ensures Blocked(Hardware(s, c, e).0, c, LogAfter(s, c, log, e), n)
  {
    hide FirstTagged, Settle, Remove, Inv;
    var left: int, id: nat :|
      && id < |s.buffers| && Open(s, c, id, n) && s.buffers[id].tag == e.tag
      && left == s.buffers[id].capacity - |s.buffers[id].contents|
      && if e.final then e.data == [] || |e.data| > left else e.data != [] && |e.data| == left;
    OpenIsFound(s, c, fps, log, id, n);
    var t := Hardware(s, c, e).0;
    assert Open(t, c, id, n) && Shut(t.buffers[id], LogAfter(s, c, log, e));
  }

  lemma BlockedBecause(s: State, c: nat, fps: nat, log: seq<Logged>, e: Event, n: nat)
    requires Bounded(s, fps) && Inv(s, c, fps, log)
    requires Blocked(Hardware(s, c, e).0, c, LogAfter(s, c, log, e), n)
    ensures Blocked(s, c, log, n) || Blocks(s, c, e, n)
  {
    hide FirstTagged, Settle, Remove, Inv, QueueOk, Reported, FirstAwaiting;
    var t, later := Hardware(s, c, e).0, LogAfter(s, c, log, e);
    InvQueue(s, c, fps, log);
    EventReports(s, c, fps, e);
    ReportedSizes(s, t);
    var id: nat :| id < |t.buffers| && Open(t, c, id, n) && Shut(t.buffers[id], later);
    OpenLater(s, t, c, id, n);
    OpenIsFound(s, c, fps, log, id, n);
    if !Shut(s.buffers[id], log) {
      assert e.Packet?;
      assert e.tag == s.buffers[id].tag;
    }
  }

  // ---------- The next frame ----------

  // What the hardware still owes a frame.
  function Missing(s: State, id: nat): seq<Event>
    requires id < |s.buffers|
  {
    if s.buffers[id].ready then [] else [Packet(s.buffers[id].tag, [0], true, false)]
  }

  // The final packet of a frame reaches its buffer, if there is room, and no other.
  lemma FinalPacket(s: State, c: nat, fps: nat, log: seq<Logged>, id: nat, n: nat)
    requires Bounded(s, fps) && Inv(s, c, fps, log) && Open(s, c, id, n)
    requires |s.buffers[id].contents| < s.buffers[id].capacity
    ensures
      var t := Pump(s, c, Missing(s, id));
      && |t.buffers| == |s.buffers| && t.delivery == s.delivery && t.buffers[id].ready
      && forall i :: 0 <= i < |s.buffers| && i != id ==> t.buffers[i] == s.buffers[i]
    ensures PumpLog(s, c, log, Missing(s, id)) == log + [Logged(s.buffers[id].tag, [0], true, false)]
  {
    hide Settle, Remove, FirstTagged, Inv;
    var e := Packet(s.buffers[id].tag, [0], true, false);
    assert [e][1..] == [];
    assert Pump(Hardware(s, c, e).0, c, [e][1..]) == Hardware(s, c, e).0;
    assert PumpLog(Hardware(s, c, e).0, c, LogAfter(s, c, log, e), [e][1..]) == LogAfter(s, c, log, e);
    OpenIsFound(s, c, fps, log, id, n);
  }

  lemma MissingIsProper(s: State, id: nat, log: seq<Logged>)
    requires id < |s.buffers| && (!s.buffers[id].ready ==> Cut(s.buffers[id].tag) !in log)
    ensures Proper(log, Missing(s, id))
  {
  }

  // A client that maps the buffer of the next frame is served: at once when it is complete, and otherwise once the
  // hardware has done its part, for which it needs room.
  lemma NextServed(s: State, c: nat, fps: nat, log: seq<Logged>, id: nat)
    requires Bounded(s, fps) && Inv(s, c, fps, log) && Told(s, c) && Holds(s, c, id, s.delivery)
    ensures !s.buffers[id].ready ==> id in s.queue
    ensures s.buffers[id].ready || |s.buffers[id].contents| < s.buffers[id].capacity ==>
      var (t, turn) := Enter(s, c, id, Missing(s, id));
      && turn == Delivered && t.delivery == s.delivery + 1
      && |t.buffers| == |s.buffers| && forall i :: 0 <= i < |s.buffers| && i != id ==> t.buffers[i] == s.buffers[i]
    ensures s.buffers[id].ready ==>
              forall events ::
                Enter(s, c, id, events).1 == Delivered && Enter(s, c, id, events).0 == Deliver(s, c, id).0
  {
    hide Inv, Pump, PumpLog, Reported;
    InvParts(s, c, fps, log);
    assert FrameTold(s.buffers[id], c, s.delivery);
    if !s.buffers[id].ready && |s.buffers[id].contents| < s.buffers[id].capacity {
      FinalPacket(s, c, fps, log, id, s.delivery);
      PumpReports(s, c, fps, log, Missing(s, id));
      HoldsLater(s, Pump(s, c, Missing(s, id)), c, id, s.delivery);
      LaterUndelivered(s, Pump(s, c, Missing(s, id)), id);
    }
  }

  lemma LaterUndelivered(s: State, t: State, id: nat)
    requires Reported(s, t) && id < |s.buffers|
    ensures t.buffers[id].delivered == s.buffers[id].delivered
  {
    assert SameFrameLater(s.buffers[id], t.buffers[id]);
  }

  // Mapping delivers only the buffer that holds the next frame, and only when it is complete.
  lemma EnterDelivers(s: State, c: nat, fps: nat, log: seq<Logged>, id: nat, events: seq<Event>)
    requires Bounded(s, fps) && Inv(s, c, fps, log) && Told(s, c)
    requires Enter(s, c, id, events).0.delivery != s.delivery
    ensures Holds(s, c, id, s.delivery)
    ensures s.buffers[id].ready || (id < |Pump(s, c, events).buffers| && Pump(s, c, events).buffers[id].ready)
  {
    hide Pump, Inv;
    PumpNumbers(s, c, c, events);
    InvParts(s, c, fps, log);
    OwnHolds(s, c, fps, id);
  }

  lemma HoldsOnce(s: State, c: nat, i: nat, j: nat, n: nat)
    requires SequencesDiffer(s, c) && Holds(s, c, i, n) && Holds(s, c, j, n)
    ensures i == j
  {
  }

  // No client that maps the buffer of a blocked frame is served.
  lemma BlockedIsRefused(s: State, c: nat, fps: nat, log: seq<Logged>, id: nat, events: seq<Event>)
    requires Bounded(s, fps) && Inv(s, c, fps, log) && Told(s, c) && Proper(log, events)
    requires Blocked(s, c, log, s.delivery)
    ensures Enter(s, c, id, events).0.delivery != s.delivery + 1
  {
    hide Inv, Enter, Pump, Holds, Shut, Told, Proper, SequencesDiffer, TagsOk, QueueOk, WaitingOk, ContentsOk;
    var held: nat :| held < |s.buffers| && Open(s, c, held, s.delivery) && Shut(s.buffers[held], log);
    InvParts(s, c, fps, log);
    if Enter(s, c, id, events).0.delivery == s.delivery + 1 {
      EnterDelivers(s, c, fps, log, id, events);
      HoldsOnce(s, c, held, id, s.delivery);
      PumpStaysShut(s, c, fps, log, events, id, log);
    }
  }

  // A frame that is neither lost nor blocked is in a buffer that is complete or can be completed.
  lemma HeldSomewhere(s: State, c: nat, fps: nat, log: seq<Logged>, n: nat) returns (id: nat)
    requires Bounded(s, fps) && Inv(s, c, fps, log) && Told(s, c) && s.delivery <= n <= s.sequence && !Lost(s, c, n)
    ensures Holds(s, c, id, n) && |s.buffers[id].contents| <= s.buffers[id].capacity
    ensures !Blocked(s, c, log, n) ==> s.buffers[id].ready || !Shut(s.buffers[id], log)
  {
    hide Inv, Told, Shut, QueueOk, SequencesDiffer, WaitingOk;
    id :| 0 <= id < |s.buffers| && Own(s.buffers[id], c) && s.buffers[id].sequence == n;
    ToldBounds(s, c);
    InvParts(s, c, fps, log);
    OwnHolds(s, c, fps, id);
    assert HoldsFrame(s.buffers[id], c, log);
  }

  lemma ToldBounds(s: State, c: nat)
    requires Told(s, c)
    ensures 1 <= s.delivery <= s.sequence + 1
  {
  }

  // A client can be handed the next frame by mapping its buffer if and only if the frame is neither lost nor blocked.
  lemma NextFrameExactly(x: System, c: nat, fps: nat, actions: seq<Action>)
    requires 0 < fps <= MICROSECONDS && |actions| <= MAX_FRAMES
    requires Initial(x, c) && RegularRun(x, c, fps, actions)
    ensures
      var y := Run(x, c, fps, actions);
      var s := y.s;
      s.delivery <= s.sequence ==>
        (!Lost(s, c, s.delivery) && !Blocked(s, c, y.log, s.delivery) <==>
         exists id: nat, events: seq<Event> ::
           Proper(y.log, events) && Enter(s, c, id, events).0.delivery == s.delivery + 1)
  {
    hide Run, RegularRun, Inv, Enter, Told, Blocked, Proper, Lost, Missing;
    RunSane(x, c, fps, actions);
    var y := Run(x, c, fps, actions);
    var s := y.s;
    if s.delivery <= s.sequence {
      if !Lost(s, c, s.delivery) && !Blocked(s, c, y.log, s.delivery) {
        var id := HeldSomewhere(s, c, fps, y.log, s.delivery);
        NextServed(s, c, fps, y.log, id);
        MissingIsProper(s, id, y.log);
      }
      if id: nat, events: seq<Event> :|
        Proper(y.log, events) && Enter(s, c, id, events).0.delivery == s.delivery + 1
      {
        EnterDelivers(s, c, fps, y.log, id, events);
        HeldIsNotLost(s, c, id, s.delivery);
        if Blocked(s, c, y.log, s.delivery) {
          BlockedIsRefused(s, c, fps, y.log, id, events);
        }
      }
    }
  }

  lemma HeldIsNotLost(s: State, c: nat, id: nat, n: nat)
    requires Holds(s, c, id, n)
    ensures !Lost(s, c, n)
  {
  }
}
