/**
  What becomes of an event: the co-routine that it unblocks is made ready before the scheduler looks
  for somebody to run, and so is accounted for; and what a creation and a delay do, said in terms of
  who is where.
 */
module CoRoutineEvents {
  import opened Wrappers
  import opened ListViews
  import opened CoRoutines
  import opened CoRoutinePlaces
  import opened CoRoutineOrder
  import opened CoRoutineGuarantees

  /** In prvCheckPendingReadyList. */
  ghost predicate MovingPending(pc: Pc) {
    pc == Pending || pc == Popping || pc.Unblocked?
  }

  // ---------- the co-routine becomes ready ----------

  /** Co-routine id is ready, or is still to be made ready by the loop that is going on. */
  ghost predicate Rising(s: State, id: nat) {
    InReady(s.l, id) || (MovingPending(s.pc) && (Holds(s.l.pending, id) || s.pc == Unblocked(id)))
  }

  lemma PoppedRises(s: State, id: nat)
    requires Sound(s) && s.pc == Popping && Holds(s.l.pending, id)
    ensures Rising(Step(s, PopPending), id)
  {
    RemoveHeadShape(s.l.pending, |s.l.priority|, false);
  }

  lemma MovedRises(s: State, id: nat)
    requires Sound(s) && s.pc.Unblocked? && (Holds(s.l.pending, id) || s.pc.id == id)
    ensures Rising(DoMovePending(s), id)
  {
    hide TakeGeneric, ToReady;
    MovePendingLists(s);
  }

  lemma UnblockedRises(s: State, e: nat, id: nat)
    requires Sound(s) && Enabled(s, Unblock(e)) && Holds(s.l.pending, id)
    ensures Holds(Step(s, Unblock(e)).l.pending, id)
  {
    hide EventToPending;
    var head := s.l.events[e].entries[0].owner;
    RemoveHeadShape(s.l.events[e], |s.l.priority|, false);
    assert EventPlace(s.l, s.pc, head) && WaitsIn(s.l, head, e);
    EventToPendingShape(s.l, s.cfg, e);
  }

  lemma StepRises(s: State, a: Action, id: nat)
    requires Inv(s) && Enabled(s, a) && Inv(Step(s, a)) && Rising(s, id) && !(a.Delay? && s.current == id)
    ensures Rising(Step(s, a), id)
  {
    if InReady(s.l, id) {
      ReadyStays(s, a, id, |Step(s, a).l.priority|);
    } else {
      match a
      case PopPending => PoppedRises(s, id);
      case MovePending => MovedRises(s, id);
      case Unblock(e) => if Holds(s.l.pending, id) { UnblockedRises(s, e, id); }
      case _ =>
    }
  }

  /** From any point of prvCheckPendingReadyList on: what is on the pending list then is ready as soon
      as the loop is over, and stays so until it delays itself. */
  lemma {:induction false} PendingGetsReady(s: State, run: seq<Action>, id: nat)
    requires Inv(s) && IsRun(s, run) && Rising(s, id) && NeverDelays(s, run, id)
    ensures Rising(After(s, run), id)
    decreases |run|
  {
    hide Rising;
    if run != [] {
      StepKeepsAll(s, run[0]);
      StepRises(s, run[0], id);
      PendingGetsReady(Step(s, run[0]), run[1..], id);
    }
  }

  // ---------- the event is accounted for ----------

  /** Every event before number n has made its co-routine ready, or came before a time-out that the
      co-routine had first. */
  ghost predicate Served(s: State, n: nat) {
    forall k: nat :: k < n ==> k in s.h.readied || k in s.h.overtaken
  }

  ghost predicate ServedOrMoving(s: State, n: nat) {
    MovingPending(s.pc) || Served(s, n)
  }

  /** With an empty pending list, and nobody in the scheduler's hand, no event is on its way. */
  lemma NoneOnTheWay(s: State)
    requires SignalsAccounted(s) && s.l.pending.entries == [] && !s.pc.Unblocked?
    ensures Served(s, s.h.signals)
  {
    assert OnTheWay(s) == [];
    forall k: nat | k < s.h.signals
      ensures k in s.h.readied || k in s.h.overtaken
    {
      assert AccountedFor(s, k);
    }
  }

  lemma StepServes(s: State, a: Action, n: nat)
    requires Inv(s) && Enabled(s, a) && n <= s.h.signals && ServedOrMoving(s, n)
    ensures ServedOrMoving(Step(s, a), n) && s.h.signals <= Step(s, a).h.signals
  {
    var t := Step(s, a);
    assert s.h.readied <= t.h.readied && s.h.overtaken <= t.h.overtaken;
    if a == CheckPending && s.l.pending.entries == [] { NoneOnTheWay(s); }
  }

  /** From any point of prvCheckPendingReadyList on: as soon as the loop is over, every event that came
      before this point has been served. */
  lemma {:induction false} EventsAreServed(s: State, run: seq<Action>, n: nat)
    requires Inv(s) && IsRun(s, run) && n <= s.h.signals && ServedOrMoving(s, n)
    ensures ServedOrMoving(After(s, run), n) && s.h.signals <= After(s, run).h.signals
    decreases |run|
  {
    hide ServedOrMoving;
    if run != [] {
      StepKeepsAll(s, run[0]);
      StepServes(s, run[0], n);
      EventsAreServed(Step(s, run[0]), run[1..], n);
    }
  }

  // ---------- runs in parts ----------

  lemma {:induction false} RunInParts(s: State, run: seq<Action>, longer: seq<Action>)
    requires Inv(s) && IsRun(s, run) && IsRun(s, longer) && run <= longer
    ensures var t, rest := After(s, run), longer[|run|..];
            Inv(t) && IsRun(t, rest) && After(t, rest) == After(s, longer)
    decreases |run|
  {
    hide Inv, Step, Enabled;
    if run == [] {
      EmptyRun(s);
      assert longer[0..] == longer;
    } else {
      InvIsSound(s);
      StepKeepsAll(s, run[0]);
      RunInParts(Step(s, run[0]), run[1..], longer[1..]);
      assert longer[1..][|run[1..]|..] == longer[|run|..];
    }
  }

  /** The longer run goes on without a delay. */
  ghost predicate NoDelaySince(run: seq<Action>, longer: seq<Action>) {
    run <= longer && forall i :: |run| <= i < |longer| ==> !longer[i].Delay?
  }

  lemma {:induction false} NobodyDelays(s: State, run: seq<Action>, id: nat)
    requires Inv(s) && IsRun(s, run) && forall i :: 0 <= i < |run| ==> !run[i].Delay?
    ensures NeverDelays(s, run, id)
    decreases |run|
  {
    hide Inv, Step, Enabled;
    if run != [] {
      InvIsSound(s);
      StepKeepsAll(s, run[0]);
      NobodyDelays(Step(s, run[0]), run[1..], id);
    }
  }

  /** Both results, for a run that goes on without a delay from a point in prvCheckPendingReadyList to
      one behind it. */
  lemma PendingIsServed(s: State, run: seq<Action>, longer: seq<Action>)
    requires Inv(s) && IsRun(s, run) && IsRun(s, longer) && NoDelaySince(run, longer)
    requires MovingPending(After(s, run).pc) && !MovingPending(After(s, longer).pc)
    ensures var t, u := After(s, run), After(s, longer);
            && t.h.signals <= u.h.signals && Served(u, t.h.signals)
            && forall id: nat :: Holds(t.l.pending, id) ==> InReady(u.l, id)
  {
    hide Inv, Step, Enabled, IsRun, After, Served, NeverDelays, MovingPending;
    RunInParts(s, run, longer);
    var t, u, rest := After(s, run), After(s, longer), longer[|run|..];
    EventsAreServed(t, rest, t.h.signals);
    forall id: nat | Holds(t.l.pending, id)
      ensures InReady(u.l, id)
    {
      NobodyDelays(t, rest, id);
      PendingGetsReady(t, rest, id);
    }
  }

  // ---------- creations and delays ----------

  /** A new co-routine is ready, of the priority asked for or the greatest there is, behind everybody
      in its ready list; the first one is the current one; nobody else is concerned. */
  lemma CreatedIsReady(s: State, priority: nat, junk: nat)
    requires Sound(s) && Enabled(s, Create(priority, junk))
    ensures var t, id := Step(s, Create(priority, junk)), |s.l.priority|;
            var p := if priority < s.cfg.priorities then priority else s.cfg.priorities - 1;
            && t.l.priority == s.l.priority + [p] && InReady(t.l, id)
            && t.current == (if s.l.priority == [] then id else s.current)
            && (forall o :: 0 <= o < id ==> (InReady(t.l, o) <==> InReady(s.l, o)))
            && t.l.delayed == s.l.delayed && t.l.overflow == s.l.overflow
            && t.l.pending == s.l.pending && t.l.events == s.l.events
  {
    var id, p := |s.l.priority|, Clamp(priority, s.cfg);
    AllocateShape(s.l, s.cfg, p, junk);
    ToReadyShape(Allocate(s.l, p, junk), s.cfg, id);
  }

  /** A delay takes its co-routine, and nobody else, off its ready list, to a delay list and, if it is
      to wait for an event, to that event list only. */
  lemma DelayedWaits(s: State, d: nat, event: Option<nat>)
    requires Sound(s) && Enabled(s, Delay(d, event))
    ensures var id, t := s.current, Step(s, Delay(d, event));
            && !InReady(t.l, id) && IsDelayed(t.l, id) && !Holds(t.l.pending, id)
            && (forall e: nat :: WaitsIn(t.l, id, e) <==> event == Some(e))
            && (forall o: nat :: o != id ==> (InReady(t.l, o) <==> InReady(s.l, o)))
            && (forall o: nat :: o != id ==> (IsDelayed(t.l, o) <==> IsDelayed(s.l, o)))
            && (forall o: nat, e: nat :: o != id ==> (WaitsIn(t.l, o, e) <==> WaitsIn(s.l, o, e)))
            && t.l.pending == s.l.pending
  {
    assert OnePlace(s.l, s.pc, s.current) && EventPlace(s.l, s.pc, s.current);
    DelayMoves(s, d, event);
  }
}
