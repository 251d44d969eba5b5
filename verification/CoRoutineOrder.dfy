/**
  Who goes first: delay lists in wake-time order, event lists in priority order, both first come
  first served among equals; the pending list in the order of the unblocking events.
 */
module CoRoutineOrder {
  import opened Wrappers
  import opened ListViews
  import opened CoRoutines
  import opened CoRoutinePlaces
  import opened CoRoutineTiming

  // ---------- first come first served among equals ----------

  ghost predicate Ahead(a: Entry, b: Entry, stamp: seq<nat>) {
    && a.owner < |stamp| && b.owner < |stamp|
    && (a.value < b.value || (a.value == b.value && stamp[a.owner] < stamp[b.owner]))
  }

  ghost predicate Queued(s: seq<Entry>, stamp: seq<nat>, delays: nat) {
    && (forall i, j :: 0 <= i < j < |s| ==> Ahead(s[i], s[j], stamp))
    && (forall i :: 0 <= i < |s| ==> s[i].owner < |stamp| && stamp[s[i].owner] < delays)
  }

  lemma QueuedAfterRemoval(s: seq<Entry>, k: nat, stamp: seq<nat>, delays: nat)
    requires k < |s| && Queued(s, stamp, delays)
    ensures Queued(s[..k] + s[k+1..], stamp, delays)
  {
    var t := s[..k] + s[k+1..];
    assert forall i :: 0 <= i < |t| ==> t[i] == s[if i < k then i else i + 1];
  }

  lemma QueuedForOthers(s: seq<Entry>, stamp: seq<nat>, delays: nat, id: nat)
    requires Queued(s, stamp, delays) && id !in Owners(s) && id < |stamp|
    ensures Queued(s, stamp[id := delays], delays + 1)
  {
    OwnerAt(s, id);
  }

  /** A sorted insertion by a newcomer keeps the queue: it comes after all entries of its value. */
  lemma QueuedAfterInsertion(s: seq<Entry>, e: Entry, stamp: seq<nat>, delays: nat)
    requires Queued(s, stamp, delays) && e.owner !in Owners(s) && e.owner < |stamp|
    ensures var k := SortedPlace(s, e.value); Queued(s[..k] + [e] + s[k..], stamp[e.owner := delays], delays + 1)
  {
    var k := SortedPlace(s, e.value);
    QueuedForOthers(s, stamp, delays, e.owner);
    var stamp' := stamp[e.owner := delays];
    OwnerAt(s, e.owner);
    assert Sorted(s);
    SplitByValue(s, e.value);
    NewcomerBetween(s, k, e, stamp', delays);
  }

  lemma NewcomerBetween(s: seq<Entry>, k: nat, e: Entry, stamp: seq<nat>, delays: nat)
    requires k <= |s| && Queued(s, stamp, delays + 1) && e.owner < |stamp| && stamp[e.owner] == delays
    requires forall i :: 0 <= i < |s| ==> (i < k <==> s[i].value <= e.value)
    requires forall i :: 0 <= i < |s| ==> s[i].owner < |stamp| && stamp[s[i].owner] < delays
    ensures Queued(s[..k] + [e] + s[k..], stamp, delays + 1)
  {
    Spliced(s, k, e);
  }

  ghost predicate DelaysOrdered(s: State) {
    && Queued(s.l.delayed.entries, s.h.stamp, s.h.delays)
    && Queued(s.l.overflow.entries, s.h.stamp, s.h.delays)
  }

  lemma QueuedIsSorted(s: seq<Entry>, stamp: seq<nat>, delays: nat)
    requires Queued(s, stamp, delays)
    ensures Sorted(s)
  {
  }

  lemma CreateKeepsQueue(s: seq<Entry>, stamp: seq<nat>, delays: nat)
    requires Queued(s, stamp, delays)
    ensures Queued(s, stamp + [0], delays)
  {
  }

  lemma DelayKeepsOrder(s: State, d: nat, event: Option<nat>)
    requires Sound(s) && Enabled(s, Delay(d, event)) && DelaysOrdered(s)
    ensures DelaysOrdered(DoDelay(s, d, event))
  {
    var id, time := s.current, WrapAdd(s.c.tick, d, s.cfg.modulus);
    DelayLists(s, d, event);
    var e := Entry(id, time);
    if time < s.c.tick {
      QueuedAfterInsertion(s.l.overflow.entries, e, s.h.stamp, s.h.delays);
      QueuedForOthers(s.l.delayed.entries, s.h.stamp, s.h.delays, id);
    } else {
      QueuedAfterInsertion(s.l.delayed.entries, e, s.h.stamp, s.h.delays);
      QueuedForOthers(s.l.overflow.entries, s.h.stamp, s.h.delays, id);
    }
  }

  lemma TakingKeepsOrder(s: State, id: nat)
    requires Sound(s) && IsDelayed(s.l, id) && DelaysOrdered(s)
    ensures Queued(TakeGeneric(s.l, id).delayed.entries, s.h.stamp, s.h.delays)
    ensures Queued(TakeGeneric(s.l, id).overflow.entries, s.h.stamp, s.h.delays)
  {
    assert id < |s.l.priority| && OnePlace(s.l, s.pc, id);
    if Holds(s.l.delayed, id) {
      QueuedAfterRemoval(s.l.delayed.entries, IndexOf(s.l.delayed.entries, id), s.h.stamp, s.h.delays);
    } else {
      QueuedAfterRemoval(s.l.overflow.entries, IndexOf(s.l.overflow.entries, id), s.h.stamp, s.h.delays);
    }
  }

  lemma StepKeepsDelayOrder(s: State, a: Action)
    requires Sound(s) && Enabled(s, a) && DelaysOrdered(s)
    ensures DelaysOrdered(Step(s, a))
  {
    match a
    case Create(p, junk) =>
      CreateKeepsQueue(s.l.delayed.entries, s.h.stamp, s.h.delays);
      CreateKeepsQueue(s.l.overflow.entries, s.h.stamp, s.h.delays);
    case Delay(d, event) => DelayKeepsOrder(s, d, event);
    case MovePending => TakingKeepsOrder(s, s.pc.id);
    case TimeOut =>
      RemoveHeadShape(s.l.delayed, |s.l.priority|, false);
      TakingKeepsOrder(s, s.pc.id);
    case _ => OthersKeepDelayOrder(s, a);
  }

  lemma OthersKeepDelayOrder(s: State, a: Action)
    requires Sound(s) && Enabled(s, a) && DelaysOrdered(s)
    requires !a.Create? && !a.Delay? && !a.MovePending? && !a.TimeOut?
    ensures DelaysOrdered(Step(s, a))
  {
  }

  // ---------- event lists: by priority, first come first served among equals ----------

  ghost predicate ByPriority(s: seq<Entry>, priority: seq<nat>, c: Config) {
    forall i :: 0 <= i < |s| ==> s[i].owner < |priority| && s[i].value == EventValue(priority[s[i].owner], c)
  }

  ghost predicate EventsOrdered(s: State) {
    forall e :: 0 <= e < |s.l.events| ==>
      && Queued(s.l.events[e].entries, s.h.stamp, s.h.delays)
      && ByPriority(s.l.events[e].entries, s.l.priority, s.cfg)
  }

  lemma ByPriorityAfterRemoval(s: seq<Entry>, k: nat, priority: seq<nat>, c: Config)
    requires k < |s| && ByPriority(s, priority, c)
    ensures ByPriority(s[..k] + s[k+1..], priority, c)
  {
  }

  lemma CreateKeepsEventOrder(s: State, p: nat, junk: nat)
    requires Sound(s) && Enabled(s, Create(p, junk)) && EventsOrdered(s)
    ensures EventsOrdered(DoCreate(s, p, junk))
  {
    forall e | 0 <= e < |s.l.events|
      ensures Queued(s.l.events[e].entries, s.h.stamp + [0], s.h.delays)
    {
      CreateKeepsQueue(s.l.events[e].entries, s.h.stamp, s.h.delays);
    }
  }

  lemma DelayEventLists(s: State, d: nat, event: Option<nat>)
    requires Sound(s) && Enabled(s, Delay(d, event))
    ensures forall e :: 0 <= e < |s.l.events| ==> s.current !in Owners(s.l.events[e].entries)
    ensures var x := Entry(s.current, EventValue(s.l.priority[s.current], s.cfg));
            DoDelay(s, d, event).l.events
            == if event.Some? then s.l.events[event.value := Insert(s.l.events[event.value], x)] else s.l.events
    ensures DoDelay(s, d, event).l.priority == s.l.priority
  {
    assert OnePlace(s.l, s.pc, s.current) && EventPlace(s.l, s.pc, s.current);
    forall e | 0 <= e < |s.l.events|
      ensures s.current !in Owners(s.l.events[e].entries)
    {
      assert !WaitsIn(s.l, s.current, e);
    }
  }

  lemma InOrderAfterDelay(es: seq<Entry>, x: Entry, inserted: bool, stamp: seq<nat>, delays: nat, priority: seq<nat>,
      c: Config)
    requires Queued(es, stamp, delays) && ByPriority(es, priority, c)
    requires x.owner !in Owners(es) && x.owner < |stamp| && x.owner < |priority| &&
      x.value == EventValue(priority[x.owner], c)
    ensures var t := if inserted then es[..SortedPlace(es, x.value)] + [x] + es[SortedPlace(es, x.value)..] else es;
            Queued(t, stamp[x.owner := delays], delays + 1) && ByPriority(t, priority, c)
  {
    if inserted {
      QueuedAfterInsertion(es, x, stamp, delays);
      Spliced(es, SortedPlace(es, x.value), x);
    } else {
      QueuedForOthers(es, stamp, delays, x.owner);
    }
  }

  lemma DelayKeepsEventOrder(s: State, d: nat, event: Option<nat>)
    requires Sound(s) && Enabled(s, Delay(d, event)) && EventsOrdered(s)
    ensures EventsOrdered(DoDelay(s, d, event))
  {
    var id := s.current;
    DelayEventLists(s, d, event);
    AllInOrderAfterDelay(s.l.events, event, Entry(id, EventValue(s.l.priority[id], s.cfg)), s.h.stamp, s.h.delays,
      s.l.priority, s.cfg);
  }

  lemma AllInOrderAfterDelay(events: seq<ListView>, event: Option<nat>, x: Entry, stamp: seq<nat>, delays: nat,
      priority: seq<nat>, c: Config)
    requires event.Some? ==> event.value < |events|
    requires forall e :: 0 <= e < |events| ==>
      Queued(events[e].entries, stamp, delays) && ByPriority(events[e].entries, priority, c)
    requires forall e :: 0 <= e < |events| ==> x.owner !in Owners(events[e].entries)
    requires x.owner < |stamp| && x.owner < |priority| && x.value == EventValue(priority[x.owner], c)
    ensures var t := if event.Some? then events[event.value := Insert(events[event.value], x)] else events;
            forall e :: 0 <= e < |events| ==>
              Queued(t[e].entries, stamp[x.owner := delays], delays + 1) && ByPriority(t[e].entries, priority, c)
  {
    var t := if event.Some? then events[event.value := Insert(events[event.value], x)] else events;
    forall e | 0 <= e < |events|
      ensures Queued(t[e].entries, stamp[x.owner := delays], delays + 1) && ByPriority(t[e].entries, priority, c)
    {
      var es, k := events[e].entries, SortedPlace(events[e].entries, x.value);
      assert t[e].entries == if event == Some(e) then es[..k] + [x] + es[k..] else es;
      InOrderAfterDelay(es, x, event == Some(e), stamp, delays, priority, c);
    }
  }

  /** Whatever is removed from the event lists, the rest stays in order. */
  lemma TakeEventKeepsEventOrder(l: Lists, id: nat, c: Config, stamp: seq<nat>, delays: nat)
    requires forall e :: 0 <= e < |l.events| ==>
      Queued(l.events[e].entries, stamp, delays) && ByPriority(l.events[e].entries, l.priority, c)
    ensures var t := TakeEvent(l, id);
            |t.events| == |l.events| &&
            forall e :: 0 <= e < |l.events| ==>
              Queued(t.events[e].entries, stamp, delays) && ByPriority(t.events[e].entries, l.priority, c)
  {
    var t := TakeEvent(l, id);
    forall e | 0 <= e < |l.events|
      ensures Queued(t.events[e].entries, stamp, delays) && ByPriority(t.events[e].entries, l.priority, c)
    {
      if t.events[e] != l.events[e] {
        var k := IndexOf(l.events[e].entries, id);
        QueuedAfterRemoval(l.events[e].entries, k, stamp, delays);
        ByPriorityAfterRemoval(l.events[e].entries, k, l.priority, c);
      }
    }
  }

  lemma StepKeepsEventOrder(s: State, a: Action)
    requires Sound(s) && Enabled(s, a) && EventsOrdered(s)
    ensures EventsOrdered(Step(s, a))
  {
    match a
    case Create(p, junk) => CreateKeepsEventOrder(s, p, junk);
    case Delay(d, event) => DelayKeepsEventOrder(s, d, event);
    case TimeOut =>
      RemoveHeadShape(s.l.delayed, |s.l.priority|, false);
      TakeEventKeepsEventOrder(TakeGeneric(s.l, s.pc.id), s.pc.id, s.cfg, s.h.stamp, s.h.delays);
    case Unblock(e) =>
      QueuedAfterRemoval(s.l.events[e].entries, 0, s.h.stamp, s.h.delays);
      ByPriorityAfterRemoval(s.l.events[e].entries, 0, s.l.priority, s.cfg);
    case _ => OthersKeepEventOrder(s, a);
  }

  lemma OthersKeepEventOrder(s: State, a: Action)
    requires Sound(s) && Enabled(s, a) && EventsOrdered(s)
    requires !a.Create? && !a.Delay? && !a.TimeOut? && !a.Unblock?
    ensures EventsOrdered(Step(s, a))
  {
  }

  // ---------- the pending list: in the order of the events ----------

  ghost predicate InSignalOrder(s: seq<Entry>, signal: seq<nat>, signals: nat) {
    && (forall i :: 0 <= i < |s| ==> s[i].owner < |signal| && signal[s[i].owner] < signals)
    && (forall i, j :: 0 <= i < j < |s| ==> signal[s[i].owner] < signal[s[j].owner])
  }

  ghost predicate Increasing(s: seq<nat>) {
    forall i, j :: 0 <= i < j < |s| ==> s[i] < s[j]
  }

  ghost predicate AllBelow(s: seq<nat>, bound: nat) {
    forall i :: 0 <= i < |s| ==> s[i] < bound
  }

  /** The signals on their way: of the co-routine being moved, if any, and then of the pending list. */
  function OnTheWay(s: State): seq<Entry> {
    (if s.pc.Unblocked? then [Entry(s.pc.id, 0)] else []) + s.l.pending.entries
  }

  ghost predicate SignalsOrdered(s: State) {
    && InSignalOrder(OnTheWay(s), s.h.signal, s.h.signals)
    && Increasing(s.h.readied) && AllBelow(s.h.readied, s.h.signals)
    && (forall i :: 0 <= i < |OnTheWay(s)| ==> AllBelow(s.h.readied, s.h.signal[OnTheWay(s)[i].owner]))
  }

  lemma NewSignalIsLast(way: seq<Entry>, head: Entry, signal: seq<nat>, signals: nat, readied: seq<nat>)
    requires InSignalOrder(way, signal, signals) && head.owner < |signal|
    requires forall i :: 0 <= i < |way| ==> way[i].owner != head.owner
    requires AllBelow(readied, signals)
    requires forall i :: 0 <= i < |way| ==> AllBelow(readied, signal[way[i].owner])
    ensures InSignalOrder(way + [head], signal[head.owner := signals], signals + 1)
    ensures AllBelow(readied, signals + 1)
    ensures forall i :: 0 <= i <= |way| ==> AllBelow(readied, signal[head.owner := signals][(way + [head])[i].owner])
  {
  }

  lemma UnblockKeepsSignals(s: State, e: nat)
    requires Sound(s) && Enabled(s, Unblock(e)) && SignalsOrdered(s)
    ensures SignalsOrdered(DoUnblock(s, e))
  {
    var head, way := s.l.events[e].entries[0], OnTheWay(s);
    var id := head.owner;
    RemoveHeadShape(s.l.events[e], |s.l.priority|, false);
    assert WaitsIn(s.l, id, e) && EventPlace(s.l, s.pc, id);
    assert OnTheWay(DoUnblock(s, e)) == way + [head];
    NotOnTheWay(s, id);
    NewSignalIsLast(way, head, s.h.signal, s.h.signals, s.h.readied);
  }

  lemma NotOnTheWay(s: State, id: nat)
    requires !Holds(s.l.pending, id) && s.pc != Unblocked(id)
    ensures forall i :: 0 <= i < |OnTheWay(s)| ==> OnTheWay(s)[i].owner != id
  {
    OwnerAt(s.l.pending.entries, id);
  }

  lemma RemovalKeepsSignals(s: State, t: State, k: nat)
    requires SignalsOrdered(s) && k < |OnTheWay(s)|
    requires OnTheWay(t) == OnTheWay(s)[..k] + OnTheWay(s)[k+1..]
    requires t.h.signal == s.h.signal && t.h.signals == s.h.signals && t.h.readied == s.h.readied
    ensures SignalsOrdered(t)
  {
    var w, w' := OnTheWay(s), OnTheWay(t);
    assert forall i :: 0 <= i < |w'| ==> w'[i] == w[if i < k then i else i + 1];
  }

  lemma MovePendingKeepsSignals(s: State)
    requires Sound(s) && s.pc.Unblocked? && SignalsOrdered(s)
    ensures SignalsOrdered(DoMovePending(s))
  {
    var t := DoMovePending(s);
    assert OnTheWay(s)[0].owner == s.pc.id;
    assert forall i :: 0 <= i < |OnTheWay(t)| ==> OnTheWay(t)[i] == OnTheWay(s)[i+1];
  }

  lemma SameSignalsKeep(s: State, t: State)
    requires Sound(s) && SignalsOrdered(s)
    requires forall i :: 0 <= i < |OnTheWay(s)| ==> OnTheWay(s)[i].owner < |s.h.signal|
    requires |OnTheWay(t)| == |OnTheWay(s)|
    requires forall i :: 0 <= i < |OnTheWay(s)| ==> OnTheWay(t)[i].owner == OnTheWay(s)[i].owner
    requires s.h.signal <= t.h.signal && t.h.signals == s.h.signals && t.h.readied == s.h.readied
    ensures SignalsOrdered(t)
  {
  }

  lemma TimeOutPending(l: Lists, id: nat)
    requires IsDelayed(l, id)
    ensures var t := TakeEvent(TakeGeneric(l, id), id);
            t.pending == if Holds(l.pending, id) then Remove(l.pending, id) else l.pending
  {
    hide Remove;
  }

  /** A time-out takes its co-routine off the way, if an event has put it there, and records that. */
  lemma TimeOutWay(s: State)
    requires Sound(s) && s.pc.Expired?
    ensures var id, t, w := s.pc.id, Step(s, TimeOut), OnTheWay(s);
            && t.h.signal == s.h.signal && t.h.signals == s.h.signals && t.h.readied == s.h.readied
            && w == s.l.pending.entries && id < |s.h.signal|
            && (if !Holds(s.l.pending, id) then OnTheWay(t) == w && t.h.overtaken == s.h.overtaken
                else var k := IndexOf(w, id);
                     && w[k].owner == id && OnTheWay(t) == w[..k] + w[k+1..]
                     && t.h.overtaken == s.h.overtaken + [s.h.signal[id]])
  {
    hide TakeGeneric, TakeEvent, IndexOf, ListsShape, Located, OneEventPlace, OnePlace;
    TimeOutLists(s);
    TimeOutPending(s.l, s.pc.id);
  }

  lemma TimeOutKeepsSignals(s: State)
    requires Sound(s) && s.pc.Expired? && SignalsOrdered(s)
    ensures SignalsOrdered(Step(s, TimeOut))
  {
    hide Step, OnTheWay, IndexOf;
    var id, t := s.pc.id, Step(s, TimeOut);
    TimeOutWay(s);
    if Holds(s.l.pending, id) {
      RemovalKeepsSignals(s, t, IndexOf(s.l.pending.entries, id));
    } else {
      SameSignalsKeep(s, t);
    }
  }

  lemma StepKeepsSignals(s: State, a: Action)
    requires Sound(s) && Enabled(s, a) && SignalsOrdered(s)
    ensures SignalsOrdered(Step(s, a))
  {
    match a
    case Unblock(e) => UnblockKeepsSignals(s, e);
    case MovePending => MovePendingKeepsSignals(s);
    case TimeOut => TimeOutKeepsSignals(s);
    case _ => OthersKeepSignals(s, a);
  }

  lemma OthersKeepSignals(s: State, a: Action)
    requires Sound(s) && Enabled(s, a) && SignalsOrdered(s)
    requires !a.Unblock? && !a.MovePending? && !a.TimeOut?
    ensures SignalsOrdered(Step(s, a))
  {
    SameSignalsKeep(s, Step(s, a));
  }

  // ---------- no event is lost, and none counts twice ----------

  ghost predicate OnItsWay(s: State, n: nat) {
    exists i :: 0 <= i < |OnTheWay(s)| && OnTheWay(s)[i].owner < |s.h.signal| && s.h.signal[OnTheWay(s)[i].owner] == n
  }

  ghost predicate AccountedFor(s: State, n: nat) {
    n in s.h.readied || n in s.h.overtaken || OnItsWay(s, n)
  }

  /** Every event so far has readied its co-routine, is on its way, or was overtaken by a time-out; and
      there are no more of them together than there were events, so each is in one place only. */
  ghost predicate SignalsAccounted(s: State) {
    && (forall n: nat :: n < s.h.signals ==> AccountedFor(s, n))
    && |s.h.readied| + |s.h.overtaken| + |OnTheWay(s)| == s.h.signals
  }

  lemma UnblockAccounts(s: State, e: nat)
    requires Sound(s) && Enabled(s, Unblock(e)) && SignalsAccounted(s)
    ensures SignalsAccounted(DoUnblock(s, e))
  {
    var head, way, t := s.l.events[e].entries[0], OnTheWay(s), DoUnblock(s, e);
    var id := head.owner;
    RemoveHeadShape(s.l.events[e], |s.l.priority|, false);
    assert WaitsIn(s.l, id, e) && EventPlace(s.l, s.pc, id);
    assert OnTheWay(t) == way + [head];
    NotOnTheWay(s, id);
    forall n: nat | n < t.h.signals
      ensures AccountedFor(t, n)
    {
      if n == s.h.signals {
        assert OnTheWay(t)[|way|].owner == id && t.h.signal[id] == n;
      } else if n !in s.h.readied && n !in s.h.overtaken {
        assert AccountedFor(s, n) && OnItsWay(s, n);
        var i :| 0 <= i < |way| && way[i].owner < |s.h.signal| && s.h.signal[way[i].owner] == n;
        assert OnTheWay(t)[i] == way[i] && t.h.signal[way[i].owner] == n;
      }
    }
  }

  /** The signal at place k of the way leaves it, for the record of the readied or of the overtaken. */
  lemma LeavingAccounts(s: State, t: State, k: nat)
    requires SignalsAccounted(s) && k < |OnTheWay(s)| && OnTheWay(s)[k].owner < |s.h.signal|
    requires OnTheWay(t) == OnTheWay(s)[..k] + OnTheWay(s)[k+1..]
    requires t.h.signal == s.h.signal && t.h.signals == s.h.signals
    requires var n := s.h.signal[OnTheWay(s)[k].owner];
             || (t.h.readied == s.h.readied + [n] && t.h.overtaken == s.h.overtaken)
             || (t.h.readied == s.h.readied && t.h.overtaken == s.h.overtaken + [n])
    ensures SignalsAccounted(t)
  {
    var w, w', left := OnTheWay(s), OnTheWay(t), s.h.signal[OnTheWay(s)[k].owner];
    forall n: nat | n < t.h.signals
      ensures AccountedFor(t, n)
    {
      if n == left {
        assert t.h.readied == s.h.readied + [n] ==> t.h.readied[|s.h.readied|] == n;
        assert t.h.overtaken == s.h.overtaken + [n] ==> t.h.overtaken[|s.h.overtaken|] == n;
      } else if n !in s.h.readied && n !in s.h.overtaken {
        assert AccountedFor(s, n) && OnItsWay(s, n);
        var i :| 0 <= i < |w| && w[i].owner < |s.h.signal| && s.h.signal[w[i].owner] == n;
        assert i != k && w'[if i < k then i else i - 1] == w[i];
      }
    }
  }

  lemma TimeOutAccounts(s: State)
    requires Sound(s) && s.pc.Expired? && SignalsAccounted(s)
    ensures SignalsAccounted(Step(s, TimeOut))
  {
    hide Step, OnTheWay, IndexOf, SignalsAccounted, ListsShape, Located;
    var id, t := s.pc.id, Step(s, TimeOut);
    TimeOutWay(s);
    if Holds(s.l.pending, id) {
      LeavingAccounts(s, t, IndexOf(s.l.pending.entries, id));
    } else {
      SameWayAccounts(s, t);
    }
  }

  lemma SameWayAccounts(s: State, t: State)
    requires Sound(s) && SignalsAccounted(s) && |OnTheWay(t)| == |OnTheWay(s)|
    requires forall i :: 0 <= i < |OnTheWay(s)| ==> OnTheWay(t)[i].owner == OnTheWay(s)[i].owner
    requires s.h.signal <= t.h.signal && t.h.signals == s.h.signals
    requires t.h.readied == s.h.readied && t.h.overtaken == s.h.overtaken
    ensures SignalsAccounted(t)
  {
    forall n: nat | n < t.h.signals
      ensures AccountedFor(t, n)
    {
      if n !in s.h.readied && n !in s.h.overtaken {
        assert AccountedFor(s, n) && OnItsWay(s, n);
        var i :| 0 <= i < |OnTheWay(s)| && OnTheWay(s)[i].owner < |s.h.signal| && s.h.signal[OnTheWay(s)[i].owner] == n;
        assert OnTheWay(t)[i].owner == OnTheWay(s)[i].owner;
      }
    }
  }

  lemma MovePendingAccounts(s: State)
    requires Sound(s) && s.pc.Unblocked? && SignalsAccounted(s)
    ensures SignalsAccounted(DoMovePending(s))
  {
    var t := DoMovePending(s);
    assert OnTheWay(s)[0].owner == s.pc.id;
    assert OnTheWay(t) == OnTheWay(s)[..0] + OnTheWay(s)[1..];
    LeavingAccounts(s, t, 0);
  }

  lemma OthersAccount(s: State, a: Action)
    requires Sound(s) && Enabled(s, a) && SignalsAccounted(s)
    requires !a.Unblock? && !a.MovePending? && !a.TimeOut?
    ensures SignalsAccounted(Step(s, a))
  {
    SameWayAccounts(s, Step(s, a));
  }

  lemma StepAccounts(s: State, a: Action)
    requires Sound(s) && Enabled(s, a) && SignalsAccounted(s)
    ensures SignalsAccounted(Step(s, a))
  {
    match a
    case Unblock(e) => UnblockAccounts(s, e);
    case MovePending => MovePendingAccounts(s);
    case TimeOut => TimeOutAccounts(s);
    case _ => OthersAccount(s, a);
  }

  // ---------- the time-outs so far: in wake-time order, first come first served ----------

  ghost predicate EarlierWake(due: nat, stamp: nat, due': nat, stamp': nat) {
    due < due' || (due == due' && stamp < stamp')
  }

  ghost predicate WakesInOrder(log: seq<Timeout>, now: nat) {
    && (forall k :: 0 <= k < |log| ==> log[k].at == log[k].due <= now)
    && (forall k, l :: 0 <= k < l < |log| ==> EarlierWake(log[k].due, log[k].stamp, log[l].due, log[l].stamp))
  }

  /** Everything timed out so far was due before entry e is. */
  ghost predicate WokenBefore(log: seq<Timeout>, e: Entry, due: seq<nat>, stamp: seq<nat>) {
    && e.owner < |due| && e.owner < |stamp|
    && (forall k :: 0 <= k < |log| ==> EarlierWake(log[k].due, log[k].stamp, due[e.owner], stamp[e.owner]))
  }

  ghost predicate TimeoutsOrdered(s: State) {
    && WakesInOrder(s.h.timeouts, s.h.now)
    && (forall i :: 0 <= i < |s.l.delayed.entries| ==>
      WokenBefore(s.h.timeouts, s.l.delayed.entries[i], s.h.due, s.h.stamp))
  }

  lemma StepKeepsTimeouts(s: State, a: Action)
    requires Sound(s) && Enabled(s, a) && TimeoutsOrdered(s) && DelaysTimed(s) && DelaysOrdered(s)
    ensures TimeoutsOrdered(Step(s, a))
  {
    match a
    case Delay(d, event) => DelayKeepsTimeouts(s, d, event);
    case MovePending => MovePendingKeepsTimeouts(s);
    case TimeOut => TimeOutKeepsTimeouts(s);
    case Tick => TickKeepsTimeouts(s);
    case _ => OthersKeepTimeouts(s, a);
  }

  lemma DelayKeepsTimeouts(s: State, d: nat, event: Option<nat>)
    requires Sound(s) && Enabled(s, Delay(d, event)) && TimeoutsOrdered(s)
    ensures TimeoutsOrdered(DoDelay(s, d, event))
  {
    DelayLists(s, d, event);
    var es, e := s.l.delayed.entries, Entry(s.current, WrapAdd(s.c.tick, d, s.cfg.modulus));
    WokenBeforeInserted(s.h.timeouts, es, SortedPlace(es, e.value), e, s.h.due, s.h.stamp, s.h.now,
      s.h.now + d, s.h.delays);
  }

  lemma WokenBeforeInserted(log: seq<Timeout>, es: seq<Entry>, k: nat, e: Entry, due: seq<nat>, stamp: seq<nat>,
      now: nat, time: nat, delays: nat)
    requires WakesInOrder(log, now) && now < time && k <= |es| && e.owner !in Owners(es) && e.owner < |due| == |stamp|
    requires forall i :: 0 <= i < |es| ==> WokenBefore(log, es[i], due, stamp)
    ensures var t := es[..k] + [e] + es[k..];
            forall i :: 0 <= i < |t| ==> WokenBefore(log, t[i], due[e.owner := time], stamp[e.owner := delays])
    ensures forall i :: 0 <= i < |es| ==> WokenBefore(log, es[i], due[e.owner := time], stamp[e.owner := delays])
  {
    OwnerAt(es, e.owner);
    Spliced(es, k, e);
  }

  lemma MovePendingKeepsTimeouts(s: State)
    requires Sound(s) && s.pc.Unblocked? && TimeoutsOrdered(s)
    ensures TimeoutsOrdered(DoMovePending(s))
  {
    assert OnePlace(s.l, s.pc, s.pc.id);
  }

  /** The head of the delay list, due now, joins those that have timed out. */
  lemma HeadTimesOut(log: seq<Timeout>, es: seq<Entry>, due: seq<nat>, stamp: seq<nat>, now: nat)
    requires es != [] && WakesInOrder(log, now) && es[0].owner < |due| && es[0].owner < |stamp|
    requires forall i :: 0 <= i < |es| ==> WokenBefore(log, es[i], due, stamp)
    requires due[es[0].owner] == now
    requires forall i :: 0 < i < |es| ==>
      es[i].owner < |due| && es[i].owner < |stamp| &&
      EarlierWake(now, stamp[es[0].owner], due[es[i].owner], stamp[es[i].owner])
    ensures var log' := log + [Timeout(es[0].owner, now, stamp[es[0].owner], now)];
            WakesInOrder(log', now) && forall i :: 0 <= i < |es[1..]| ==> WokenBefore(log', es[1..][i], due, stamp)
  {
    var id := es[0].owner;
    var log' := log + [Timeout(id, now, stamp[id], now)];
    assert WokenBefore(log, es[0], due, stamp);
    forall i | 0 <= i < |es[1..]|
      ensures WokenBefore(log', es[1..][i], due, stamp)
    {
      assert es[1..][i] == es[i+1] && WokenBefore(log, es[i+1], due, stamp);
    }
  }

  lemma TimeOutDelayed(s: State)
    requires Sound(s) && s.pc.Expired?
    ensures var t := Step(s, TimeOut);
            && t.l.delayed.entries == s.l.delayed.entries[1..] && t.l.overflow == s.l.overflow
            && t.h.timeouts == s.h.timeouts + [Timeout(s.pc.id, s.h.due[s.pc.id], s.h.stamp[s.pc.id], s.h.now)]
            && t.h.due == s.h.due && t.h.stamp == s.h.stamp && t.h.now == s.h.now
  {
    hide TakeEvent, IndexOf, Located;
    RemoveHeadShape(s.l.delayed, |s.l.priority|, false);
    TimeOutLists(s);
    var es := s.l.delayed.entries;
    assert es[..0] + es[1..] == es[1..];
    TakenEventOnly(TakeGeneric(s.l, s.pc.id), s.pc.id);
  }

  lemma TakenEventOnly(l: Lists, id: nat)
    ensures TakeEvent(l, id).delayed == l.delayed && TakeEvent(l, id).overflow == l.overflow
  {
  }

  /** The head of the delay list is due now, and everybody behind it later, or delayed later. */
  lemma HeadIsFirst(s: State)
    requires Sound(s) && s.pc.Expired? && DelaysTimed(s) && DelaysOrdered(s)
    ensures var es := s.l.delayed.entries;
            && es != [] && es[0].owner == s.pc.id < |s.h.due| && |s.h.due| == |s.h.stamp|
            && s.h.due[es[0].owner] == s.h.now
            && forall i :: 0 < i < |es| ==>
                 es[i].owner < |s.h.due| &&
                 EarlierWake(s.h.now, s.h.stamp[es[0].owner], s.h.due[es[i].owner], s.h.stamp[es[i].owner])
  {
    var es := s.l.delayed.entries;
    forall i | 0 < i < |es|
      ensures es[i].owner < |s.h.due| &&
        EarlierWake(s.h.now, s.h.stamp[es[0].owner], s.h.due[es[i].owner], s.h.stamp[es[i].owner])
    {
      assert Ahead(es[0], es[i], s.h.stamp);
    }
  }

  lemma TimeOutKeepsTimeouts(s: State)
    requires Sound(s) && s.pc.Expired? && TimeoutsOrdered(s) && DelaysTimed(s) && DelaysOrdered(s)
    ensures TimeoutsOrdered(Step(s, TimeOut))
  {
    hide Sound, Step, DelaysTimed, DelaysOrdered, EarlierWake, WakesInOrder, WokenBefore;
    HeadIsFirst(s);
    TimeOutDelayed(s);
    HeadTimesOut(s.h.timeouts, s.l.delayed.entries, s.h.due, s.h.stamp, s.h.now);
  }

  lemma TickKeepsTimeouts(s: State)
    requires Sound(s) && s.pc == Ticking && TimeoutsOrdered(s) && DelaysTimed(s)
    ensures TimeoutsOrdered(DoTick(s))
  {
  }

  lemma OthersKeepTimeouts(s: State, a: Action)
    requires Sound(s) && Enabled(s, a) && TimeoutsOrdered(s)
    requires !a.Delay? && !a.MovePending? && !a.TimeOut? && !a.Tick?
    ensures TimeoutsOrdered(Step(s, a))
  {
  }
}
