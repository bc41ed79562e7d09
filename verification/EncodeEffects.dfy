/**
  What each locked region of the encode side does, told by the fields of the tables and by what the hardware reported:
  when it passes, what it changes, and what it leaves alone. From src/encode.c, src/decode.c and src/objects.c.
 */
module EncodeEffects {
  import opened Bitstring
  import opened EncodeDelivery
  import opened EncodeInvariant
  import opened EncodeRuns
  import opened EncodeState
  import opened EncodeTables
  import opened Wrappers

  // Numbers go up by one, and past the last 64-bit number to one.
  lemma NextSequenceIs(n: nat)
    ensures n < 0xffff_ffff_ffff_ffff ==> NextSequence(n) == n + 1
    ensures NextSequence(0xffff_ffff_ffff_ffff) == 1
  {
  }

  // ---------- Reports ----------

  // Reports are taken one by one, in the order they come.
  lemma {:induction false} TakenInOrder(s: State, c: nat, log: seq<Logged>, first: seq<Event>, e: Event)
    ensures Pump(s, c, []) == s && PumpLog(s, c, log, []) == log
    ensures Pump(s, c, first + [e]) == Hardware(Pump(s, c, first), c, e).0
    ensures PumpLog(s, c, log, first + [e]) == LogAfter(Pump(s, c, first), c, PumpLog(s, c, log, first), e)
    decreases |first|
  {
    hide Hardware, LogAfter;
    if first == [] {
      assert [] + [e] == [e] && [e][1..] == [];
    } else {
      assert (first + [e])[1..] == first[1..] + [e];
      TakenInOrder(Hardware(s, c, first[0]).0, c, LogAfter(s, c, log, first[0]), first[1..], e);
    }
  }

  // No packet is handed on without bytes, none is stored under tag zero, and one without a queued buffer is refused.
  lemma RefusedExactly(s: State, c: nat, tag: nat, data: seq<byte>, final: bool, damaged: bool)
    ensures Hardware(s, c, Packet(tag, [], final, damaged)) == (s, Pass)
    ensures
      var (t, o) := StorePacket(s, tag, data, final, damaged);
      var queued := exists id: nat :: id in s.queue && Matches(s.buffers, id, tag);
      && (o == Fail(Invalid) <==> tag == 0 || s.queue == [])
      && (o == Fail(NotFound) <==> tag != 0 && s.queue != [] && !queued)
      && (o == Fail(Invalid) || o == Fail(NotFound) ==> t == s)
  {
    hide Settle, Remove;
  }

  // ---------- What reports change of the surfaces ----------

  predicate OnlyPending(s: State, t: State) {
    && |t.surfaces| == |s.surfaces|
    && forall f :: 0 <= f < |s.surfaces| ==> t.surfaces[f] == s.surfaces[f].(pending := t.surfaces[f].pending)
  }

  lemma EventOnlyPending(s: State, c: nat, e: Event)
    ensures OnlyPending(s, Hardware(s, c, e).0)
  {
    hide Remove, FirstTagged, FirstAwaiting;
  }

  lemma {:induction false} PumpOnlyPending(s: State, c: nat, events: seq<Event>)
    ensures OnlyPending(s, Pump(s, c, events))
    decreases |events|
  {
    hide Hardware;
    if events != [] {
      EventOnlyPending(s, c, events[0]);
      PumpOnlyPending(Hardware(s, c, events[0]).0, c, events[1..]);
    }
  }

  // The frame with this tag is complete on both sides.
  predicate Both(log: seq<Logged>, tag: nat) {
    Ended(log, tag) && Read(tag) in log
  }

  // The surface waits for the frame in buffer id.
  predicate WaitsOn(s: State, c: nat, f: nat, id: nat) {
    && LiveSurface(s.surfaces, f) && s.surfaces[f].codedBuffer == Some(id)
    && id < |s.buffers| && Tagged(s.buffers[id], c) && s.buffers[id].source == Some(f)
  }

  // A surface that waits for a frame is pending until both of its events came.
  lemma PendingIs(s: State, c: nat, fps: nat, log: seq<Logged>, f: nat, id: nat)
    requires fps > 0 && Inv(s, c, fps, log) && WaitsOn(s, c, f, id)
    ensures s.surfaces[f].pending <==> !Both(log, s.buffers[id].tag)
  {
    hide FrameTag, Records, Ended, QueueOk, TagsOk, SequencesDiffer, OrderOk, WaitingOk, LogOk;
    assert HoldsFrame(s.buffers[id], c, log) && Linked(s, id);
  }

  // After the reports it is pending unless both have come by then.
  lemma PumpedPendingIs(s: State, c: nat, fps: nat, log: seq<Logged>, f: nat, id: nat, events: seq<Event>)
    requires Bounded(s, fps) && Inv(s, c, fps, log) && WaitsOn(s, c, f, id)
    ensures
      var t := Pump(s, c, events);
      && WaitsOn(t, c, f, id)
      && (t.surfaces[f].pending <==> !Both(PumpLog(s, c, log, events), s.buffers[id].tag))
  {
    hide Pump, PumpLog, Inv, Both;
    var t := Pump(s, c, events);
    PumpKeeps(s, c, fps, log, events);
    PumpReports(s, c, fps, log, events);
    PumpOnlyPending(s, c, events);
    assert SameFrameLater(s.buffers[id], t.buffers[id]);
    PendingIs(t, c, fps, PumpLog(s, c, log, events), f, id);
  }

  // ---------- Waiting for a surface ----------

  // Waiting for a surface passes if and only if both events of its frame have come by the end; a surface that waits
  // for no buffer of this context is not waited for.
  lemma SyncedExactly(s: State, c: nat, fps: nat, log: seq<Logged>, f: nat, id: nat, events: seq<Event>)
    requires Bounded(s, fps) && Inv(s, c, fps, log) && f < |s.surfaces|
    ensures
      var (t, o) := Sync(s, c, f, events);
      && (WaitsOn(s, c, f, id) ==>
            && t == Pump(s, c, events)
            && o == (if Both(PumpLog(s, c, log, events), s.buffers[id].tag) then Pass else Fail(Busy)))
      && (s.surfaces[f].codedBuffer == None ==> t == s && o == Fail(NotFound))
      && (s.surfaces[f].codedBuffer == Some(id) && !(id < |s.buffers| && Own(s.buffers[id], c)) ==>
            t == s && o == Fail(NotFound))
  {
    hide Pump, PumpLog, Inv, Both;
    if WaitsOn(s, c, f, id) {
      PumpedPendingIs(s, c, fps, log, f, id, events);
    }
  }

  // A picture is begun on a surface that holds one, once the surface's last frame is complete on both sides.
  lemma BegunExactly(s: State, c: nat, fps: nat, log: seq<Logged>, f: nat, id: nat, events: seq<Event>)
    requires Bounded(s, fps) && Inv(s, c, fps, log)
    ensures
      var (t, o) := Begin(s, c, f, events);
      && (!(f < |s.surfaces| && s.surfaces[f].used) ==> t == s && o == Fail(Invalid))
      && (LiveSurface(s.surfaces, f) && !s.surfaces[f].pending ==>
            t == s && o == if s.surfaces[f].ready then Pass else Fail(Invalid))
      && (WaitsOn(s, c, f, id) && s.surfaces[f].pending ==>
            && t == Pump(s, c, events)
            && o == (if !Both(PumpLog(s, c, log, events), s.buffers[id].tag) then Fail(Busy)
                     else if s.surfaces[f].ready then Pass else Fail(Invalid)))
      && ((LiveSurface(s.surfaces, f) && s.surfaces[f].pending && s.surfaces[f].codedBuffer == Some(id) &&
           !(id < |s.buffers| && Own(s.buffers[id], c))) ==> t == s && o == Fail(NotFound))
  {
    hide Pump, PumpLog, Inv, Both;
    if WaitsOn(s, c, f, id) && s.surfaces[f].pending {
      PumpedPendingIs(s, c, fps, log, f, id, events);
      PumpOnlyPending(s, c, events);
    }
  }

  // ---------- Buffers come and go ----------

  // A free slot becomes a buffer without a frame; nothing else changes.
  lemma CreatedExactly(s: State, c: nat, id: nat, coded: bool, capacity: nat)
    ensures
      var (t, o) := Create(s, c, id, coded, capacity);
      && (o.Pass? <==> id < |s.buffers| && !s.buffers[id].used)
      && (o.Fail? ==> t == s && o.error == NoSpace)
      && (o.Pass? ==>
            && t == s.(buffers := t.buffers) && |t.buffers| == |s.buffers|
            && t.buffers[id] ==
               Buffer(true, coded, c, capacity, false, false, false, [], 0, 0, 0, None, false, false)
            && forall i :: 0 <= i < |s.buffers| && i != id ==> t.buffers[i] == s.buffers[i])
  {
  }

  // t is s without buffer id, and without any surface that waits for it.
  predicate Without(s: State, t: State, id: nat) {
    && t.queue == s.queue && t.sequence == s.sequence && t.delivery == s.delivery
    && |t.buffers| == |s.buffers| && id < |t.buffers| && !t.buffers[id].used
    && t.buffers[id].tag == 0 && t.buffers[id].sequence == 0 && t.buffers[id].contents == []
    && (forall i :: 0 <= i < |s.buffers| && i != id ==> t.buffers[i] == s.buffers[i])
    && |t.surfaces| == |s.surfaces|
    && forall f :: 0 <= f < |s.surfaces| ==>
         t.surfaces[f] ==
         if s.buffers[id].coded && s.buffers[id].source == Some(f) && s.surfaces[f].used &&
            s.surfaces[f].codedBuffer == Some(id) then s.surfaces[f].(codedBuffer := None)
         else s.surfaces[f]
  }

  // A buffer that no surface waits for is destroyed at once. One that a surface waits for is destroyed if and only if
  // both events of its frame have come by the end of the waiting, and the surface waits for nothing then.
  lemma DestroyedExactly(s: State, c: nat, fps: nat, log: seq<Logged>, id: nat, f: nat, events: seq<Event>)
    requires Bounded(s, fps) && Inv(s, c, fps, log)
    ensures
      var (t, o) := Destroy(s, c, id, events);
      && (!(id < |s.buffers| && Own(s.buffers[id], c)) ==> t == s && o == Fail(Invalid))
      && (id < |s.buffers| && Own(s.buffers[id], c) && !(s.buffers[id].coded && Linked(s, id)) ==>
            o == Pass && Without(s, t, id))
      && (WaitsOn(s, c, f, id) && Both(log, s.buffers[id].tag) ==> o == Pass && Without(s, t, id))
      && (WaitsOn(s, c, f, id) && !Both(log, s.buffers[id].tag) ==>
            var waited := Pump(s, c, events);
            if Both(PumpLog(s, c, log, events), s.buffers[id].tag) then o == Pass && Without(waited, t, id)
            else t == waited && o == Fail(Busy))
  {
    hide Pump, PumpLog, Inv, Both;
    if WaitsOn(s, c, f, id) {
      PendingIs(s, c, fps, log, f, id);
      PumpedPendingIs(s, c, fps, log, f, id, events);
      PumpReports(s, c, fps, log, events);
      assert SameFrameLater(s.buffers[id], Pump(s, c, events).buffers[id]);
    }
  }

  // Destroying a context frees its buffers and empties its queue; the surfaces attached to it wait for nothing.
  lemma ClosedExactly(s: State, d: nat, attached: set<nat>)
    ensures
      var t := Closed(s, d, attached);
      && t.queue == [] && |t.buffers| == |s.buffers| && |t.surfaces| == |s.surfaces|
      && (forall i :: 0 <= i < |t.buffers| ==>
            if s.buffers[i].used && s.buffers[i].context == d then !t.buffers[i].used && t.buffers[i].tag == 0
            else t.buffers[i] == s.buffers[i])
      && forall f :: 0 <= f < |t.surfaces| ==>
           if f in attached then !t.surfaces[f].pending && t.surfaces[f].codedBuffer == None
           else t.surfaces[f] == s.surfaces[f]
  {
  }

  // A withdrawn frame leaves the queue, and its buffer loses number and tag, if it is still the last one queued.
  lemma RolledBackExactly(s: State, id: nat)
    ensures
      var t := Rollback(s, id);
      && t.surfaces == s.surfaces && t.sequence == s.sequence && t.delivery == s.delivery
      && (s.queue == [] || s.queue[|s.queue| - 1] != id ==> t == s)
      && (s.queue != [] && s.queue[|s.queue| - 1] == id ==>
            && s.queue == t.queue + [id] && |t.buffers| == |s.buffers|
            && (forall i :: 0 <= i < |s.buffers| && i != id ==> t.buffers[i] == s.buffers[i])
            && (id < |s.buffers| && s.buffers[id].used ==> t.buffers[id] == s.buffers[id].(sequence := 0, tag := 0))
            && (id < |s.buffers| && !s.buffers[id].used ==> t.buffers[id] == s.buffers[id]))
  {
  }

  // ---------- Submission ----------

  // What a submission asks of the buffer and the surface.
  predicate Fit(s: State, c: nat, id: nat, surface: nat) {
    && id < |s.buffers| && s.buffers[id].used && s.buffers[id].coded && s.buffers[id].context == c
    && 0 < s.buffers[id].capacity <= 0xffff_ffff
    && surface < |s.surfaces| && s.surfaces[surface].used && s.surfaces[surface].ready
  }

  // Buffer id is empty, with this number and tag.
  predicate Emptied(s: State, t: State, id: nat, n: nat, tag: nat, surface: nat) {
    && id < |s.buffers| && id < |t.buffers|
    && t.buffers[id] ==
       Buffer(true, true, s.buffers[id].context, s.buffers[id].capacity, false, false, false, [], 0, n, tag,
              Some(surface), false, false)
  }

  lemma AcceptError(s: State, c: nat, fps: nat, id: nat, surface: nat)
    requires fps > 0 && Submittable(s.buffers, s.surfaces, c, id, surface)
    requires FrameTag(NextSequence(s.sequence), fps) > 0
    ensures
      var o := Accept(s, c, fps, id, surface).1;
      o == if |s.queue| >= 64 then Fail(NoSpace) else if id in s.queue then Fail(Already) else Pass
  {
    hide FrameTag;
  }

  lemma IncompleteIsPending(s: State, c: nat, fps: nat, log: seq<Logged>, f: nat, id: nat)
    requires fps > 0 && Inv(s, c, fps, log) && WaitsOn(s, c, f, id) && !s.buffers[id].ready
    ensures s.surfaces[f].pending
  {
    hide FrameTag, Records, Ended, QueueOk, TagsOk, SequencesDiffer, OrderOk, WaitingOk, LogOk;
    assert Linked(s, id);
  }

  // A submission without a fitting buffer and surface changes nothing. Any other empties the buffer and takes a number.
  // It passes if and only if there is room in the queue, the buffer is not in it, and the hardware takes the frame;
  // then the buffer stands last in the queue and the surface is pending and waits for it.
  lemma SubmittedExactly(
    s: State, c: nat, fps: nat, log: seq<Logged>, id: nat, surface: nat, events: seq<Event>, taken: bool)
    requires 0 < fps <= MICROSECONDS && s.sequence < MAX_FRAMES && Inv(s, c, fps, log) && Timely(s, fps, events)
    ensures
      var (t, o) := Submit(s, c, fps, id, surface, events, taken);
      && (!Fit(s, c, id, surface) ==> t == s && o == Fail(Invalid))
      && (Fit(s, c, id, surface) ==>
            && t.sequence == s.sequence + 1 && t.delivery == s.delivery && |t.surfaces| == |s.surfaces|
            && o == (if |s.queue| >= 64 then Fail(NoSpace) else if id in s.queue then Fail(Already)
                     else if taken then Pass else Fail(Busy))
            && (o.Pass? ==>
                  && Emptied(s, t, id, s.sequence + 1, FrameTag(s.sequence + 1, fps), surface)
                  && t.queue != [] && t.queue[|t.queue| - 1] == id
                  && t.surfaces[surface].pending && t.surfaces[surface].codedBuffer == Some(id))
            && (o.Fail? ==> Emptied(s, t, id, 0, 0, surface))
            && (o == Fail(Busy) ==>
                  !t.surfaces[surface].pending && t.surfaces[surface].codedBuffer == Some(id)))
  {
    hide Inv, FrameTag, Accept, Pump, Withdraw, PumpLog, SameLinks;
    if Fit(s, c, id, surface) {
      var (accepted, o) := Accept(s, c, fps, id, surface);
      AcceptIs(s, c, fps, id, surface);
      TagPositive(s.sequence + 1, fps);
      NextSequenceIs(s.sequence);
      assert MAX_FRAMES < 0xffff_ffff_ffff_ffff;
      AcceptError(s, c, fps, id, surface);
      if o.Pass? {
        AcceptKeeps(s, c, fps, log, id, surface);
        AcceptedIsNewest(s, c, fps, id, surface);
        PumpReports(accepted, c, fps, log, events);
        PumpAvoids(accepted, c, events, id, accepted.buffers[id]);
        PumpOnlyPending(accepted, c, events);
        if taken {
          PumpKeeps(accepted, c, fps, log, events);
          IncompleteIsPending(Pump(accepted, c, events), c, fps, PumpLog(accepted, c, log, events), surface, id);
        } else {
          WithdrawIs(Pump(accepted, c, events), c, id, surface);
        }
      }
    }
  }

  // ---------- Turns ----------

  // What the turn of a client for this buffer comes to, if the buffer is the context's.
  predicate TurnIs(b: Buffer, delivery: nat, turn: Turn) {
    && (turn == Delivered <==> b.delivered || b.sequence == delivery)
    && (turn == Again <==> !b.delivered && b.sequence > delivery)
    && (turn == Refused(Invalid) <==> !b.delivered && b.sequence < delivery)
  }

  // t is s with frame n handed out, if the counter stands at it.
  predicate HandedOut(s: State, t: State, id: nat) {
    && t.queue == s.queue && t.surfaces == s.surfaces && t.sequence == s.sequence && |t.buffers| == |s.buffers|
    && (forall i :: 0 <= i < |s.buffers| && i != id ==> t.buffers[i] == s.buffers[i])
    && id < |s.buffers|
    && if !s.buffers[id].delivered && s.buffers[id].sequence == s.delivery then
         t.delivery == s.delivery + 1 && t.buffers[id] == s.buffers[id].(delivered := true)
       else t.delivery == s.delivery && t.buffers[id] == s.buffers[id]
  }

  // A client whose turn has not come waits again, 5000 times at most; after any other turn it is gone.
  lemma GivesUpExactly(waiting: map<nat, Waiter>, thread: nat, id: nat, attempts: nat, turn: Turn)
    ensures
      var after := AfterTurn(waiting, thread, id, attempts, turn);
      && (thread in after <==> turn == Again && attempts < 5000)
      && (thread in after ==> after[thread] == Waiter(id, attempts + 1))
      && forall other :: other != thread ==>
           (other in after <==> other in waiting) && (other in after ==> after[other] == waiting[other])
  {
  }

  lemma TurnExactly(s: State, c: nat, id: nat)
    ensures
      var (t, turn) := Deliver(s, c, id);
      if id < |s.buffers| && Own(s.buffers[id], c) then TurnIs(s.buffers[id], s.delivery, turn) && HandedOut(s, t, id)
      else t == s && turn == Refused(NotFound)
  {
  }

  // The turn of a client that waits for a frame: it is handed the frame once all frames before it were handed out,
  // and waits as long as they were not. Without a frame in the buffer it is refused.
  lemma WokenExactly(s: State, c: nat, fps: nat, log: seq<Logged>, id: nat)
    requires Bounded(s, fps) && Inv(s, c, fps, log) && Told(s, c)
    ensures
      var (t, turn) := Deliver(s, c, id);
      && (!(id < |s.buffers| && Own(s.buffers[id], c)) ==> t == s && turn == Refused(NotFound))
      && (id < |s.buffers| && Tagged(s.buffers[id], c) ==>
            && turn == (if s.buffers[id].sequence <= s.delivery then Delivered else Again)
            && HandedOut(s, t, id))
      && (id < |s.buffers| && Own(s.buffers[id], c) && !Tagged(s.buffers[id], c) && !s.buffers[id].delivered ==>
            t == s && turn == Refused(Invalid))
  {
    hide FrameTag, Deliver, QueueOk, SequencesDiffer, OrderOk, WaitingOk, ContentsOk, LinksOk, LogOk;
    TurnExactly(s, c, id);
    if id < |s.buffers| {
      assert TagOk(s.buffers[id], c, s.sequence, fps) && FrameTold(s.buffers[id], c, s.delivery);
    }
  }

  // A client that maps a coded buffer waits for the final packet of its frame first. It is refused when the buffer is
  // not a coded one of the context, when the packet has not come by then, and when there is no frame in it.
  lemma MappedExactly(s: State, c: nat, fps: nat, log: seq<Logged>, id: nat, events: seq<Event>)
    requires Bounded(s, fps) && Inv(s, c, fps, log) && Told(s, c)
    ensures
      var (t, turn) := Enter(s, c, id, events);
      && (!(id < |s.buffers| && Mine(s.buffers[id], c)) ==> t == s && turn == Refused(NotFound))
      && (id < |s.buffers| && Mine(s.buffers[id], c) ==>
            var p := if s.buffers[id].ready then s else Pump(s, c, events);
            && |p.buffers| == |s.buffers|
            && (if !p.buffers[id].ready then t == p && turn == Refused(Busy)
                else if p.buffers[id].tag == 0 then t == p && turn == Refused(NotFound)
                else
                  turn == (if p.buffers[id].sequence <= p.delivery then Delivered else Again) && HandedOut(p, t, id)))
      && (id < |s.buffers| && Tagged(s.buffers[id], c) && !s.buffers[id].ready ==>
            (turn == Refused(Busy) <==> !Ended(PumpLog(s, c, log, events), s.buffers[id].tag)))
  {
    hide Inv, Pump, PumpLog, Deliver, Told, HandedOut, Ended, Records;
    if id < |s.buffers| && Mine(s.buffers[id], c) {
      var later := EnterLog(s, c, log, id, events);
      var p := if s.buffers[id].ready then s else Pump(s, c, events);
      PumpKeeps(s, c, fps, log, events);
      PumpReports(s, c, fps, log, events);
      ReportedTold(s, Pump(s, c, events), c);
      assert SameFrameLater(s.buffers[id], Pump(s, c, events).buffers[id]);
      WokenExactly(p, c, fps, later, id);
      if Tagged(s.buffers[id], c) {
        ReadyIs(p, c, fps, later, id);
      }
    }
  }

  lemma ReadyIs(s: State, c: nat, fps: nat, log: seq<Logged>, id: nat)
    requires fps > 0 && Inv(s, c, fps, log) && id < |s.buffers| && Tagged(s.buffers[id], c)
    ensures s.buffers[id].ready <==> Ended(log, s.buffers[id].tag)
  {
    hide FrameTag, Records, Ended, QueueOk, TagsOk, SequencesDiffer, OrderOk, WaitingOk, LogOk, LinksOk;
    assert HoldsFrame(s.buffers[id], c, log);
  }
}
