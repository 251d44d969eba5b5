/**
  Nobody is lost and nobody is readied twice: whatever the interrupts do, every action keeps each
  co-routine's generic item in one place and its event item in at most one.
 */
module CoRoutinePlaces {
  import opened Wrappers
  import opened ListViews
  import opened CoRoutines

  function On(v: ListView): set<nat> {
    Owners(v.entries)
  }

  // ---------- one move at a time: what each list holds afterwards ----------

  lemma InsertShape(v: ListView, k: nat, e: Entry, n: nat, walked: bool)
    requires ListShape(v, n, walked) && k <= |v.entries| && !Holds(v, e.owner) && e.owner < n
    ensures ListShape(InsertAt(v, k, e), n, walked)
    ensures On(InsertAt(v, k, e)) == On(v) + {e.owner}
  {
    InsertAtMembers(v, k, e);
  }

  lemma RemoveShape(v: ListView, owner: nat, n: nat, walked: bool)
    requires ListShape(v, n, walked) && Holds(v, owner)
    ensures ListShape(Remove(v, owner), n, walked)
    ensures On(Remove(v, owner)) == On(v) - {owner}
  {
    RemoveMembers(v, owner);
  }

  lemma RemoveHeadShape(v: ListView, n: nat, walked: bool)
    requires ListShape(v, n, walked) && v.entries != []
    ensures Holds(v, v.entries[0].owner) && RemoveAt(v, 0) == Remove(v, v.entries[0].owner)
    ensures ListShape(RemoveAt(v, 0), n, walked)
    ensures On(RemoveAt(v, 0)) == On(v) - {v.entries[0].owner}
  {
    PlaceIsUnique(v.entries, 0);
    RemoveShape(v, v.entries[0].owner, n, walked);
  }

  lemma ToReadyShape(l: Lists, c: Config, id: nat)
    requires ListsShape(l, c) && id < |l.priority| && !InReady(l, id)
    ensures var t, p := ToReady(l, id), l.priority[id];
            && ListsShape(t, c) && t == l.(ready := t.ready) && t.ready == l.ready[p := t.ready[p]]
            && On(t.ready[p]) == On(l.ready[p]) + {id}
  {
    var v := l.ready[l.priority[id]];
    InsertShape(v, EndPlace(v), Entry(id, l.wake[id]), |l.priority|, true);
  }

  lemma TakeGenericShape(l: Lists, c: Config, id: nat)
    requires ListsShape(l, c) && (InReady(l, id) || IsDelayed(l, id))
    requires !(Holds(l.delayed, id) && Holds(l.overflow, id)) && !(InReady(l, id) && IsDelayed(l, id))
    ensures var t := TakeGeneric(l, id);
            && ListsShape(t, c) && t == l.(ready := t.ready, delayed := t.delayed, overflow := t.overflow)
            && (forall p :: 0 <= p < |l.ready| ==>
                  t.ready[p] == l.ready[p] ||
                    (InReady(l, id) && p == l.priority[id] && On(t.ready[p]) == On(l.ready[p]) - {id}))
            && !InReady(t, id)
            && On(t.delayed) == On(l.delayed) - {id} && On(t.overflow) == On(l.overflow) - {id}
  {
    var n := |l.priority|;
    if InReady(l, id) { RemoveShape(l.ready[l.priority[id]], id, n, true); }
    else if Holds(l.delayed, id) { RemoveShape(l.delayed, id, n, false); }
    else { RemoveShape(l.overflow, id, n, false); }
  }

  lemma TakeEventShape(l: Lists, c: Config, id: nat)
    requires ListsShape(l, c) && OneEventPlace(l, id)
    ensures var t := TakeEvent(l, id);
            && ListsShape(t, c) && t == l.(pending := t.pending, events := t.events)
            && On(t.pending) == On(l.pending) - {id}
            && (forall e: nat, o: nat :: WaitsIn(t, o, e) <==> WaitsIn(l, o, e) && o != id)
  {
    var t := TakeEvent(l, id);
    if Holds(l.pending, id) {
      RemoveShape(l.pending, id, |l.priority|, false);
      forall e: nat, o: nat
        ensures WaitsIn(t, o, e) <==> WaitsIn(l, o, e) && o != id
      {
        if o == id { assert !WaitsIn(l, id, e); }
      }
    } else if WaitsSomewhere(l, id) {
      var e: nat :| WaitsIn(l, id, e);
      RemoveShape(l.events[e], id, |l.priority|, false);
      assert t == l.(events := l.events[e := Remove(l.events[e], id)]);
    }
  }

  lemma ToDelayShape(l: Lists, c: Config, id: nat, time: nat, overflown: bool)
    requires ListsShape(l, c) && id < |l.priority| && !IsDelayed(l, id) && time < c.modulus
    ensures var t := ToDelay(l, id, time, overflown);
            && ListsShape(t, c) && t == l.(wake := t.wake, delayed := t.delayed, overflow := t.overflow)
            && On(t.delayed) == (if overflown then On(l.delayed) else On(l.delayed) + {id})
            && On(t.overflow) == (if overflown then On(l.overflow) + {id} else On(l.overflow))
  {
    var e, n := Entry(id, time), |l.priority|;
    if overflown { InsertShape(l.overflow, SortedPlace(l.overflow.entries, time), e, n, false); }
    else { InsertShape(l.delayed, SortedPlace(l.delayed.entries, time), e, n, false); }
  }

  lemma ToEventShape(l: Lists, c: Config, id: nat, e: nat, value: nat)
    requires ListsShape(l, c) && id < |l.priority| && e < |l.events| && !WaitsSomewhere(l, id)
    ensures var t := ToEvent(l, id, e, value);
            && ListsShape(t, c) && t == l.(events := t.events)
            && (forall f: nat, o: nat :: WaitsIn(t, o, f) <==> WaitsIn(l, o, f) || (o == id && f == e))
  {
    assert !WaitsIn(l, id, e);
    InsertShape(l.events[e], SortedPlace(l.events[e].entries, value), Entry(id, value), |l.priority|, false);
  }

  lemma EventToPendingShape(l: Lists, c: Config, e: nat)
    requires ListsShape(l, c) && e < |l.events| && l.events[e].entries != []
    requires OneEventPlace(l, l.events[e].entries[0].owner)
    ensures var t, id := EventToPending(l, e), l.events[e].entries[0].owner;
            && WaitsIn(l, id, e) && id < |l.priority|
            && ListsShape(t, c) && t == l.(pending := t.pending, events := t.events)
            && On(t.pending) == On(l.pending) + {id}
            && (forall f: nat, o: nat :: WaitsIn(t, o, f) <==> WaitsIn(l, o, f) && o != id)
  {
    var head, n := l.events[e].entries[0], |l.priority|;
    RemoveHeadShape(l.events[e], n, false);
    assert WaitsIn(l, head.owner, e) && WaitsSomewhere(l, head.owner) && !Holds(l.pending, head.owner);
    InsertShape(l.pending, EndPlace(l.pending), head, n, false);
    var t := EventToPending(l, e);
    assert t.events == l.events[e := RemoveAt(l.events[e], 0)] &&
      t.pending == InsertAt(l.pending, EndPlace(l.pending), head);
    forall f: nat, o: nat
      ensures WaitsIn(t, o, f) <==> WaitsIn(l, o, f) && o != head.owner
    {
      assert WaitsIn(l, head.owner, f) ==> f == e;
    }
  }

  lemma AllocateShape(l: Lists, c: Config, p: nat, junk: nat)
    requires ListsShape(l, c) && p < c.priorities && junk < c.modulus
    ensures var t := Allocate(l, p, junk); ListsShape(t, c) && !InReady(t, |l.priority|) && !IsDelayed(t, |l.priority|)
  {
    var t, n := Allocate(l, p, junk), |l.priority|;
    assert forall q :: 0 <= q < |l.ready| ==> ListShape(l.ready[q], n, true) && ListShape(l.ready[q], n + 1, true);
    assert forall e :: 0 <= e < |l.events| ==> ListShape(l.events[e], n, false) && ListShape(l.events[e], n + 1, false);
  }

  // ---------- every action keeps everybody in their place ----------

  lemma CreateKeeps(s: State, priority: nat, junk: nat)
    requires Sound(s) && Enabled(s, Create(priority, junk))
    ensures Sound(DoCreate(s, priority, junk))
  {
    var n, p := |s.l.priority|, Clamp(priority, s.cfg);
    var m, t := Allocate(s.l, p, junk), DoCreate(s, priority, junk);
    AllocateShape(s.l, s.cfg, p, junk);
    ToReadyShape(m, s.cfg, n);
    forall id | 0 <= id <= n
      ensures OnePlace(t.l, t.pc, id) && EventPlace(t.l, t.pc, id)
    {
      assert forall e: nat :: WaitsIn(t.l, id, e) <==> WaitsIn(s.l, id, e);
      if id < n { assert OnePlace(s.l, s.pc, id) && EventPlace(s.l, s.pc, id); }
    }
  }

  lemma DelayMoves(s: State, d: nat, event: Option<nat>)
    requires Sound(s) && s.pc == Running && d < s.cfg.modulus && InReady(s.l, s.current)
    requires event.Some? ==> event.value < |s.l.events|
    ensures var t, id := DoDelay(s, d, event).l, s.current;
            && ListsShape(t, s.cfg) && t.priority == s.l.priority && t.pending == s.l.pending && !InReady(t, id)
            && (forall p :: 0 <= p < |s.l.ready| ==>
                  t.ready[p] == s.l.ready[p] || (p == s.l.priority[id] && On(t.ready[p]) == On(s.l.ready[p]) - {id}))
            && !IsDelayed(s.l, id) && IsDelayed(t, id)
            && (|| (On(t.delayed) == On(s.l.delayed) + {id} && On(t.overflow) == On(s.l.overflow))
                || (On(t.delayed) == On(s.l.delayed) && On(t.overflow) == On(s.l.overflow) + {id}))
            && (forall e: nat, o: nat :: WaitsIn(t, o, e) <==> WaitsIn(s.l, o, e) || (o == id && event == Some(e)))
  {
    var id, time := s.current, WrapAdd(s.c.tick, d, s.cfg.modulus);
    assert OnePlace(s.l, s.pc, id) && EventPlace(s.l, s.pc, id);
    TakeGenericShape(s.l, s.cfg, id);
    var m := TakeGeneric(s.l, id);
    ToDelayShape(m, s.cfg, id, time, time < s.c.tick);
    var m' := ToDelay(m, id, time, time < s.c.tick);
    assert forall o: nat, e: nat :: WaitsIn(m', o, e) <==> WaitsIn(s.l, o, e);
    if event.Some? { ToEventShape(m', s.cfg, id, event.value, EventValue(s.l.priority[id], s.cfg)); }
  }

  lemma DelayKeeps(s: State, d: nat, event: Option<nat>)
    requires Sound(s) && s.pc == Running && d < s.cfg.modulus && InReady(s.l, s.current)
    requires event.Some? ==> event.value < |s.l.events|
    ensures Sound(DoDelay(s, d, event))
  {
    hide Owners, Remove, Insert, InsertEnd, IndexOf, WrapAdd, EventValue;
    var id, t := s.current, DoDelay(s, d, event);
    DelayMoves(s, d, event);
    forall o | 0 <= o < |s.l.priority|
      ensures OnePlace(t.l, t.pc, o) && EventPlace(t.l, t.pc, o)
    {
      assert OnePlace(s.l, s.pc, id) && EventPlace(s.l, s.pc, id);
      assert OnePlace(s.l, s.pc, o) && EventPlace(s.l, s.pc, o);
      assert forall e: nat :: WaitsIn(t.l, o, e) <==> WaitsIn(s.l, o, e) || (o == id && event == Some(e));
    }
  }

  lemma PopKeeps(s: State)
    requires Sound(s) && s.pc == Popping
    ensures Sound(Step(s, PopPending))
  {
    var t := Step(s, PopPending);
    RemoveHeadShape(s.l.pending, |s.l.priority|, false);
    forall o | 0 <= o < |s.l.priority|
      ensures OnePlace(t.l, t.pc, o) && EventPlace(t.l, t.pc, o)
    {
      assert OnePlace(s.l, s.pc, o) && EventPlace(s.l, s.pc, o);
      assert forall e: nat :: WaitsIn(t.l, o, e) <==> WaitsIn(s.l, o, e);
    }
    assert EventPlace(s.l, s.pc, t.pc.id);
  }

  /** The generic item goes from its delay list to its ready list, and nothing else moves. */
  lemma MovePendingLists(s: State)
    requires Sound(s) && s.pc.Unblocked?
    ensures IsDelayed(s.l, s.pc.id) && !InReady(s.l, s.pc.id)
    ensures var id, l := s.pc.id, s.l;
            var t := ToReady(TakeGeneric(l, id), id);
            && ListsShape(t, s.cfg) && t == l.(ready := t.ready, delayed := t.delayed, overflow := t.overflow)
            && (forall p :: 0 <= p < |l.ready| && p != l.priority[id] ==> t.ready[p] == l.ready[p])
            && On(t.ready[l.priority[id]]) == On(l.ready[l.priority[id]]) + {id}
            && On(t.delayed) == On(l.delayed) - {id} && On(t.overflow) == On(l.overflow) - {id}
  {
    var id := s.pc.id;
    assert OnePlace(s.l, s.pc, id);
    TakeGenericShape(s.l, s.cfg, id);
    ToReadyShape(TakeGeneric(s.l, id), s.cfg, id);
  }

  lemma MovePendingKeeps(s: State)
    requires Sound(s) && s.pc.Unblocked?
    ensures Sound(DoMovePending(s))
  {
    hide TakeGeneric, ToReady, ListShape;
    var id, t := s.pc.id, DoMovePending(s);
    MovePendingLists(s);
    forall o | 0 <= o < |s.l.priority|
      ensures OnePlace(t.l, t.pc, o) && EventPlace(t.l, t.pc, o)
    {
      assert OnePlace(s.l, s.pc, o) && EventPlace(s.l, s.pc, o);
      assert forall e: nat :: WaitsIn(t.l, o, e) <==> WaitsIn(s.l, o, e);
    }
  }

  /** A time-out takes both items of its co-routine off, and nothing else. */
  lemma TimeOutLists(s: State)
    requires Sound(s) && s.pc.Expired?
    ensures IsDelayed(s.l, s.pc.id) && OnePlace(s.l, s.pc, s.pc.id)
    ensures var id, l, t := s.pc.id, s.l, TakeEvent(TakeGeneric(s.l, s.pc.id), s.pc.id);
            && ListsShape(t, s.cfg)
            && t == l.(delayed := t.delayed, overflow := t.overflow, pending := t.pending, events := t.events)
            && On(t.delayed) == On(l.delayed) - {id} && On(t.overflow) == On(l.overflow) - {id}
            && On(t.pending) == On(l.pending) - {id}
            && (forall e: nat, o: nat :: WaitsIn(t, o, e) <==> WaitsIn(l, o, e) && o != id)
  {
    var id, m := s.pc.id, TakeGeneric(s.l, s.pc.id);
    assert OnePlace(s.l, s.pc, id) && EventPlace(s.l, s.pc, id);
    TakeGenericShape(s.l, s.cfg, id);
    assert forall o: nat, e: nat :: WaitsIn(m, o, e) <==> WaitsIn(s.l, o, e);
    TakeEventShape(m, s.cfg, id);
  }

  lemma TimeOutKeeps(s: State)
    requires Sound(s) && s.pc.Expired?
    ensures Sound(Step(s, TimeOut))
  {
    hide TakeGeneric, TakeEvent, ListsShape;
    var id, t := s.pc.id, Step(s, TimeOut);
    TimeOutLists(s);
    forall o | 0 <= o < |s.l.priority|
      ensures OnePlace(t.l, t.pc, o) && EventPlace(t.l, t.pc, o)
    {
      assert OnePlace(s.l, s.pc, o) && EventPlace(s.l, s.pc, o);
      assert forall e: nat :: WaitsIn(t.l, o, e) <==> WaitsIn(s.l, o, e) && o != id;
    }
  }

  lemma WakeKeeps(s: State)
    requires Sound(s) && s.pc.Woken?
    ensures Sound(DoWake(s))
  {
    var id, t := s.pc.id, DoWake(s);
    assert OnePlace(s.l, s.pc, id);
    ToReadyShape(s.l, s.cfg, id);
    forall o | 0 <= o < |s.l.priority|
      ensures OnePlace(t.l, t.pc, o) && EventPlace(t.l, t.pc, o)
    {
      assert OnePlace(s.l, s.pc, o) && EventPlace(s.l, s.pc, o);
      assert forall e: nat :: WaitsIn(t.l, o, e) <==> WaitsIn(s.l, o, e);
    }
  }

  lemma UnblockKeeps(s: State, e: nat)
    requires Sound(s) && Enabled(s, Unblock(e))
    ensures Sound(DoUnblock(s, e))
  {
    var id, t := s.l.events[e].entries[0].owner, DoUnblock(s, e);
    RemoveHeadShape(s.l.events[e], |s.l.priority|, false);
    assert EventPlace(s.l, s.pc, id) && OnePlace(s.l, s.pc, id) && WaitsIn(s.l, id, e);
    EventToPendingShape(s.l, s.cfg, e);
    forall o | 0 <= o < |s.l.priority|
      ensures OnePlace(t.l, t.pc, o) && EventPlace(t.l, t.pc, o)
    {
      assert OnePlace(s.l, s.pc, o) && EventPlace(s.l, s.pc, o);
      assert forall f: nat :: WaitsIn(t.l, o, f) <==> WaitsIn(s.l, o, f) && o != id;
    }
  }

  /** Actions that move no item between lists: they may walk a ready list, or swap the delay lists. */
  lemma NoMoveKeeps(s: State, t: State)
    requires Sound(s) && t.cfg == s.cfg && ListsShape(t.l, t.cfg) && CountersInRange(t)
    requires t.l == s.l.(ready := t.l.ready, delayed := t.l.delayed, overflow := t.l.overflow)
    requires (t.l.delayed == s.l.delayed && t.l.overflow == s.l.overflow) ||
      (t.l.delayed == s.l.overflow && t.l.overflow == s.l.delayed)
    requires forall p :: 0 <= p < |s.l.ready| ==> On(t.l.ready[p]) == On(s.l.ready[p])
    requires !s.pc.Unblocked? && !t.pc.Unblocked? && !s.pc.Woken? && !t.pc.Woken? && AtPc(t)
    ensures Sound(t)
  {
    forall o | 0 <= o < |s.l.priority|
      ensures OnePlace(t.l, t.pc, o) && EventPlace(t.l, t.pc, o)
    {
      assert OnePlace(s.l, s.pc, o) && EventPlace(s.l, s.pc, o);
      assert forall f: nat :: WaitsIn(t.l, o, f) <==> WaitsIn(s.l, o, f);
    }
  }

  lemma SelectKeeps(s: State)
    requires Sound(s) && s.pc == Selecting
    ensures Sound(DoSelect(s))
  {
    var t, v := DoSelect(s), s.l.ready[s.top];
    if v.entries != [] {
      PlaceIsUnique(v.entries, Next(v).cursor - 1);
      assert ListShape(v, |s.l.priority|, true);
    }
    NoMoveKeeps(s, t);
  }

  lemma QuietActionKeeps(s: State, a: Action)
    requires Sound(s) && Enabled(s, a)
    requires a.Return? || a.Call? || a.CheckPending? || a.ReadClock? || a.Tick? || a.CheckHead?
    ensures Sound(Step(s, a))
  {
    var t := Step(s, a);
    if a.CheckHead? && s.l.delayed.entries != [] { RemoveHeadShape(s.l.delayed, |s.l.priority|, false); }
    NoMoveKeeps(s, t);
  }

  /** Every action, at every point. */
  lemma StepKeepsPlaces(s: State, a: Action)
    requires Sound(s) && Enabled(s, a)
    ensures Sound(Step(s, a))
  {
    match a
    case Create(p, junk) => CreateKeeps(s, p, junk);
    case Delay(d, event) => DelayKeeps(s, d, event);
    case PopPending => PopKeeps(s);
    case MovePending => MovePendingKeeps(s);
    case TimeOut => TimeOutKeeps(s);
    case Wake => WakeKeeps(s);
    case Select => SelectKeeps(s);
    case Unblock(e) => UnblockKeeps(s, e);
    case HardwareTick =>
    case _ => QuietActionKeeps(s, a);
  }

  lemma StartIsSound(c: Config, hardware: nat)
    requires ValidConfig(c)
    ensures Sound(Start(c, hardware))
  {
  }
}
