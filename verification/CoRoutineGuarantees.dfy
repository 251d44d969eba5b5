/**
  What the scheduler guarantees over whole runs, under every interleaving of its own steps, the
  co-routines' calls, the interrupts and the hardware tick.
 */
module CoRoutineGuarantees {
  import opened Wrappers
  import opened ListViews
  import opened CoRoutines
  import opened CoRoutinePlaces
  import opened CoRoutineTiming
  import opened CoRoutineOrder
  import RoundRobin

  /** No list above the top ready priority holds anybody. */
  ghost predicate TopKept(s: State) {
    forall p :: s.top < p < |s.l.ready| ==> s.l.ready[p].entries == []
  }

  ghost predicate Inv(s: State) {
    && Sound(s) && ClockKept(s) && DelaysTimed(s) && DelaysOrdered(s)
    && EventsOrdered(s) && SignalsOrdered(s) && SignalsAccounted(s) && TimeoutsOrdered(s) && TopKept(s)
  }

  lemma StartKeepsAll(c: Config, hardware: nat)
    requires ValidConfig(c)
    ensures Inv(Start(c, hardware))
  {
    StartIsSound(c, hardware);
    StartIsTimed(c, hardware);
    StartIsOrdered(c, hardware);
    StartEvents(c, hardware);
  }

  lemma StartIsTimed(c: Config, hardware: nat)
    requires ValidConfig(c)
    ensures var s := Start(c, hardware); ClockKept(s) && DelaysTimed(s) && TopKept(s)
  {
  }

  lemma StartIsOrdered(c: Config, hardware: nat)
    requires ValidConfig(c)
    ensures var s := Start(c, hardware);
      DelaysOrdered(s) && SignalsOrdered(s) && SignalsAccounted(s) && TimeoutsOrdered(s)
  {
    hide DelaysOrdered, SignalsOrdered, SignalsAccounted, TimeoutsOrdered, Start;
    StartDelays(c, hardware);
    StartSignals(c, hardware);
  }

  lemma StartDelays(c: Config, hardware: nat)
    requires ValidConfig(c)
    ensures var s := Start(c, hardware); DelaysOrdered(s) && TimeoutsOrdered(s)
  {
  }

  lemma StartSignals(c: Config, hardware: nat)
    requires ValidConfig(c)
    ensures var s := Start(c, hardware); SignalsOrdered(s) && SignalsAccounted(s)
  {
  }

  lemma StartEvents(c: Config, hardware: nat)
    requires ValidConfig(c)
    ensures EventsOrdered(Start(c, hardware))
  {
    var s := Start(c, hardware);
    assert forall e :: 0 <= e < |s.l.events| ==> s.l.events[e].entries == [];
  }

  lemma TakingKeepsTop(s: State, id: nat)
    requires Sound(s) && TopKept(s) && (InReady(s.l, id) || IsDelayed(s.l, id))
    ensures |TakeGeneric(s.l, id).ready| == |s.l.ready|
    ensures forall p :: s.top < p < |s.l.ready| ==> TakeGeneric(s.l, id).ready[p].entries == []
  {
    if InReady(s.l, id) {
      assert s.l.ready[s.l.priority[id]].entries != [];
    }
  }

  lemma StepKeepsTop(s: State, a: Action)
    requires Sound(s) && Enabled(s, a) && TopKept(s)
    ensures TopKept(Step(s, a))
  {
    match a
    case Delay(_, _) => TakingKeepsTop(s, s.current);
    case MovePending => TakingKeepsTop(s, s.pc.id);
    case TimeOut =>
      RemoveHeadShape(s.l.delayed, |s.l.priority|, false);
      TakingKeepsTop(s, s.pc.id);
    case _ =>
  }

  lemma StepKeepsAll(s: State, a: Action)
    requires Inv(s) && Enabled(s, a)
    ensures Inv(Step(s, a))
  {
    StepKeepsPlaces(s, a);
    StepKeepsClock(s, a);
    QueuedIsSorted(s.l.delayed.entries, s.h.stamp, s.h.delays);
    StepKeepsTiming(s, a);
    StepKeepsDelayOrder(s, a);
    StepKeepsEventOrder(s, a);
    StepKeepsSignals(s, a);
    StepAccounts(s, a);
    StepKeepsTimeouts(s, a);
    StepKeepsTop(s, a);
  }

  // ---------- runs ----------

  ghost predicate IsRun(s: State, run: seq<Action>)
    requires Inv(s)
    decreases |run|
  {
    run == [] || (Enabled(s, run[0]) && (StepKeepsAll(s, run[0]); IsRun(Step(s, run[0]), run[1..])))
  }

  ghost function After(s: State, run: seq<Action>): State
    requires Inv(s) && IsRun(s, run)
    decreases |run|
  {
    if run == [] then s else (StepKeepsAll(s, run[0]); After(Step(s, run[0]), run[1..]))
  }

  /** Everything above holds at every point of every run. */
  lemma {:induction false} RunKeepsAll(s: State, run: seq<Action>)
    requires Inv(s) && IsRun(s, run)
    ensures Inv(After(s, run))
    decreases |run|
  {
    if run != [] {
      StepKeepsAll(s, run[0]);
      RunKeepsAll(Step(s, run[0]), run[1..]);
    }
  }

  lemma {:induction false} RunStep(s: State, run: seq<Action>, a: Action)
    requires Inv(s) && IsRun(s, run) && Enabled(After(s, run), a)
    ensures IsRun(s, run + [a]) && Inv(After(s, run)) && Inv(After(s, run + [a])) &&
      After(s, run + [a]) == Step(After(s, run), a)
    decreases |run|
  {
    if run == [] {
      assert run + [a] == [a];
      assert [a][1..] == [];
      StepKeepsAll(s, a);
    } else {
      StepKeepsAll(s, run[0]);
      assert (run + [a])[0] == run[0] && (run + [a])[1..] == run[1..] + [a];
      RunStep(Step(s, run[0]), run[1..], a);
    }
  }

  /** For every run from the start: nobody is lost or in two places, time-outs have come in the order
      of their wake times and first come first served among equals, and unblocked co-routines have
      become ready in the order of the events that unblocked them, none of them lost but to a time-out. */
  lemma EveryRun(c: Config, hardware: nat, run: seq<Action>)
    requires ValidConfig(c) && Inv(Start(c, hardware)) && IsRun(Start(c, hardware), run)
    ensures var s := After(Start(c, hardware), run);
            && Located(s.l, s.pc)
            && WakesInOrder(s.h.timeouts, s.h.now)
            && Increasing(s.h.readied)
            && SignalsAccounted(s)
  {
    RunKeepsAll(Start(c, hardware), run);
    hide IsRun, After, Located, ListsShape, CountersInRange, AtPc, ClockKept, DelaysTimed, DelaysOrdered,
      EventsOrdered, TopKept;
  }

  // ---------- selection ----------

  /** The search for a ready list ends, and misses nothing: the co-routine that runs is of the highest
      priority that has a ready one, and the scheduler returns only if nobody is ready. */
  lemma SelectionIsHighest(s: State)
    requires Sound(s) && TopKept(s) && s.pc == Selecting
    ensures var t := Step(s, Select);
            && (t.pc == Running ==>
                  && InReady(t.l, t.current)
                  && forall id: nat :: InReady(t.l, id) ==> t.l.priority[id] <= t.l.priority[t.current])
            && (t.pc == Idle ==> forall id: nat :: !InReady(t.l, id))
            && (t.pc == Selecting ==> t.top < s.top && t.l == s.l)
  {
    var t, v := Step(s, Select), s.l.ready[s.top];
    if v.entries != [] {
      PlaceIsUnique(v.entries, Next(v).cursor - 1);
      assert ListShape(v, |s.l.priority|, true) && Holds(v, t.current);
    }
    forall id: nat | InReady(t.l, id)
      ensures t.l.priority[id] <= t.top
    {
      assert t.l.ready[t.l.priority[id]].entries != [];
    }
  }

  /** Nothing that interrupts may do in between changes what the search will find. */
  lemma InterruptsLeaveTheSearch(s: State, a: Action)
    requires Inv(s) && s.pc == Selecting && Enabled(s, a) && a != Select
    ensures var t := Step(s, a); t.pc == Selecting && t.top == s.top && t.l.ready == s.l.ready && t.current == s.current
  {
  }

  // ---------- events ----------

  /** An event unblocks the waiting co-routine of the highest priority, among equals the one that has
      waited longest, and puts it last on the pending list. */
  lemma EventUnblocksHighest(s: State, e: nat)
    requires Sound(s) && EventsOrdered(s) && Enabled(s, Unblock(e))
    ensures var id, t := s.l.events[e].entries[0].owner, Step(s, Unblock(e));
            && WaitsIn(s.l, id, e) && id < |s.l.priority|
            && (forall o: nat :: WaitsIn(s.l, o, e) && o != id ==> o < |s.l.priority| && WaitsBehind(s, id, o))
            && t.l.pending.entries == s.l.pending.entries + [s.l.events[e].entries[0]]
            && !WaitsSomewhere(t.l, id)
            && t.h.signals == s.h.signals + 1 && id < |t.h.signal| && t.h.signal[id] == s.h.signals
  {
    var es := s.l.events[e].entries;
    var id := es[0].owner;
    RemoveHeadShape(s.l.events[e], |s.l.priority|, false);
    assert EventPlace(s.l, s.pc, id) && WaitsIn(s.l, id, e);
    EventToPendingShape(s.l, s.cfg, e);
    forall o: nat | WaitsIn(s.l, o, e) && o != id
      ensures o < |s.l.priority| && WaitsBehind(s, id, o)
    {
      OwnerAt(es, o);
      var i :| 0 <= i < |es| && es[i].owner == o;
      assert Ahead(es[0], es[i], s.h.stamp);
    }
  }

  /** Co-routine o is of a lower priority than id, or of the same and has waited for a shorter time. */
  ghost predicate WaitsBehind(s: State, id: nat, o: nat)
    requires Sound(s) && id < |s.l.priority| && o < |s.l.priority|
  {
    || s.l.priority[o] < s.l.priority[id]
    || (s.l.priority[o] == s.l.priority[id] && s.h.stamp[id] < s.h.stamp[o])
  }

  // ---------- time ----------

  /** Nobody on a delay list is overdue: what is still there is due now, while the scheduler works
      off this very tick, or later. */
  lemma NobodyOverdue(s: State, id: nat)
    requires Inv(s) && IsDelayed(s.l, id)
    ensures id < |s.h.due| && s.h.now <= s.h.due[id]
    ensures !AtOneTick(s.pc) ==> s.h.now < s.h.due[id]
  {
    if Holds(s.l.delayed, id) {
      OwnerAt(s.l.delayed.entries, id);
      var i :| 0 <= i < |s.l.delayed.entries| && s.l.delayed.entries[i].owner == id;
      assert s.l.delayed.entries[i].value >= s.c.tick;
    } else {
      OwnerAt(s.l.overflow.entries, id);
      var i :| 0 <= i < |s.l.overflow.entries| && s.l.overflow.entries[i].owner == id;
      assert s.l.overflow.entries[i].owner == id;
    }
  }

  /** A time-out fires exactly at its wake time. */
  lemma TimeOutIsExact(s: State)
    requires Inv(s) && s.pc.Expired?
    ensures s.h.due[s.pc.id] == s.h.now
  {
    assert s.l.delayed.entries[0].owner == s.pc.id;
  }

  ghost predicate TimesOut(s: State, a: Action, id: nat) {
    a == TimeOut && s.pc == Expired(id)
  }

  ghost predicate EventReadies(s: State, a: Action, id: nat) {
    a == MovePending && s.pc == Unblocked(id)
  }

  /** A delayed co-routine stays delayed, with the same wake time, until it times out or an event
      readies it. */
  lemma DelayedUntil(s: State, a: Action, id: nat)
    requires Sound(s) && Enabled(s, a) && IsDelayed(s.l, id)
    requires !TimesOut(s, a, id) && !EventReadies(s, a, id)
    ensures StillDelayed(s, Step(s, a), id)
  {
    hide Sound, StillDelayed;
    match a
    case Delay(d, event) => DelayLeavesDelayed(s, d, event, id);
    case MovePending => MoveLeavesDelayed(s, id);
    case TimeOut => TimeOutLeavesDelayed(s, id);
    case _ => OthersLeaveDelayed(s, a, id);
  }

  /** Co-routine id is delayed in state t, with the wake time and the place in the order it had in s. */
  ghost predicate StillDelayed(s: State, t: State, id: nat) {
    && IsDelayed(t.l, id) && id < |t.h.due| && id < |t.h.stamp| && id < |s.h.due| && id < |s.h.stamp|
    && t.h.due[id] == s.h.due[id] && t.h.stamp[id] == s.h.stamp[id]
  }

  lemma DelayLeavesDelayed(s: State, d: nat, event: Option<nat>, id: nat)
    requires Sound(s) && Enabled(s, Delay(d, event)) && IsDelayed(s.l, id)
    ensures StillDelayed(s, Step(s, Delay(d, event)), id)
  {
    assert id < |s.l.priority| && OnePlace(s.l, s.pc, id);
    DelayMoves(s, d, event);
  }

  lemma MoveLeavesDelayed(s: State, id: nat)
    requires Sound(s) && s.pc.Unblocked? && s.pc.id != id && IsDelayed(s.l, id)
    ensures StillDelayed(s, DoMovePending(s), id)
  {
    assert id < |s.l.priority| && OnePlace(s.l, s.pc, id) && OnePlace(s.l, s.pc, s.pc.id);
    TakeGenericShape(s.l, s.cfg, s.pc.id);
  }

  lemma TimeOutLeavesDelayed(s: State, id: nat)
    requires Sound(s) && s.pc.Expired? && s.pc.id != id && IsDelayed(s.l, id)
    ensures StillDelayed(s, Step(s, TimeOut), id)
  {
    assert id < |s.l.priority| && OnePlace(s.l, s.pc, id);
    RemoveHeadShape(s.l.delayed, |s.l.priority|, false);
    assert OnePlace(s.l, s.pc, s.pc.id);
    TakeGenericShape(s.l, s.cfg, s.pc.id);
  }

  lemma OthersLeaveDelayed(s: State, a: Action, id: nat)
    requires Sound(s) && Enabled(s, a) && IsDelayed(s.l, id)
    requires !a.Delay? && !a.MovePending? && !a.TimeOut?
    ensures StillDelayed(s, Step(s, a), id)
  {
    assert id < |s.l.priority|;
  }

  /** Co-routine `id` stays on the delay lists along the run, either to its end, when time has not
      passed `due`, or to the point where its time-out fires at time `due` sharp, or an event takes
      it off before that time. */
  ghost predicate DelayedExactlyUntil(s: State, run: seq<Action>, id: nat, due: nat)
    requires Inv(s) && IsRun(s, run)
    decreases |run|
  {
    && IsDelayed(s.l, id)
    && (if run == [] then s.h.now <= due && (!AtOneTick(s.pc) ==> s.h.now < due)
        else if TimesOut(s, run[0], id) then s.h.now == due
        else if EventReadies(s, run[0], id) then s.h.now < due
        else (StepKeepsAll(s, run[0]); DelayedExactlyUntil(Step(s, run[0]), run[1..], id, due)))
  }

  /** A delay of d ticks at processed time T is due at processed time T + d ... */
  lemma DelaySetsWakeTime(s: State, d: nat, event: Option<nat>)
    requires Sound(s) && Enabled(s, Delay(d, event))
    ensures var t := Step(s, Delay(d, event));
            IsDelayed(t.l, s.current) && s.current < |t.h.due| && t.h.due[s.current] == s.h.now + d
  {
    DelayMoves(s, d, event);
  }

  /** ... and the main result on time: from any point of any run where a co-routine is delayed, it
      leaves the delay lists when processed time is exactly its wake time, unless an event readies it
      earlier, across any number of wraps of the tick count and any number of missed ticks. */
  lemma {:induction false} DelayLastsExactly(s: State, run: seq<Action>, id: nat, due: nat)
    requires Inv(s) && IsRun(s, run) && IsDelayed(s.l, id) && id < |s.h.due| && s.h.due[id] == due
    ensures DelayedExactlyUntil(s, run, id, due)
    decreases |run|
  {
    NobodyOverdue(s, id);
    if run == [] {
    } else if TimesOut(s, run[0], id) {
      TimeOutIsExact(s);
    } else if EventReadies(s, run[0], id) {
    } else {
      StepKeepsAll(s, run[0]);
      DelayedUntil(s, run[0], id);
      DelayLastsExactly(Step(s, run[0]), run[1..], id, due);
    }
  }

  /** Processed time is hardware time whenever the scheduler is not working off ticks, up to full
      turns of the count; and exactly if and only if no read of the tick count has missed a turn. */
  lemma ProcessedTimeIsTrueTime(s: State)
    requires Inv(s) && !WorkingOff(s.pc)
    ensures s.h.now <= s.h.read && s.h.now % s.cfg.modulus == s.h.read % s.cfg.modulus == s.c.tick
    ensures s.h.kept <==> s.h.now == s.h.read
  {
    ModuloOfSum(s.h.base, s.c.tick, s.cfg.modulus);
  }

  /** One co-routine, nothing pending, no tick worked off, and the hardware a full turn ahead. */
  ghost predicate TurnAhead(s: State, c: Config, pc: Pc) {
    && Inv(s) && s.cfg == c && s.pc == pc && |s.l.priority| == 1 && s.l.pending.entries == []
    && s.c.tick == s.c.last == 0 && s.h.now == 0 && s.h.hardware == c.modulus
  }

  lemma CreatedTurnAhead(c: Config)
    requires ValidConfig(c)
    ensures var s := Start(c, c.modulus);
            Inv(s) && Enabled(s, Create(0, 0)) && TurnAhead(Step(s, Create(0, 0)), c, Idle)
  {
    hide Inv, Step, Start;
    FirstCreated(c);
    StartKeepsAll(c, c.modulus);
    StepKeepsAll(Start(c, c.modulus), Create(0, 0));
  }

  lemma FirstCreated(c: Config)
    requires ValidConfig(c)
    ensures var s := Start(c, c.modulus);
            && Sound(s) && Enabled(s, Create(0, 0))
            && var t := Step(s, Create(0, 0));
            && t.cfg == c && t.pc == Idle && |t.l.priority| == 1 && t.l.pending.entries == []
            && t.c.tick == t.c.last == 0 && t.h.now == 0 && t.h.hardware == c.modulus
  {
    StartIsSound(c, c.modulus);
  }

  lemma CheckedTurnAhead(s: State, c: Config)
    requires TurnAhead(s, c, Idle)
    ensures Enabled(s, Call) && TurnAhead(Step(s, Call), c, Pending)
    ensures Enabled(Step(s, Call), CheckPending) && TurnAhead(Step(Step(s, Call), CheckPending), c, Counting)
  {
    StepKeepsAll(s, Call);
    StepKeepsAll(Step(s, Call), CheckPending);
    assert Sound(s) && Sound(Step(s, Call));
    hide Inv, Sound;
  }

  lemma MissedTurnAhead(s: State, c: Config)
    requires TurnAhead(s, c, Counting) && c.modulus > 0
    ensures Enabled(s, ReadClock) && Inv(Step(s, ReadClock)) && Enabled(Step(s, ReadClock), Tick)
    ensures var t := Step(Step(s, ReadClock), Tick);
            t.pc == Selecting && t.h.now == 0 && t.h.read == c.modulus && !t.h.kept
  {
    StepKeepsAll(s, ReadClock);
    TicksPassed(0, 0, c.modulus, c.modulus);
    assert Sound(s) && Sound(Step(s, ReadClock));
    hide Inv, Sound;
  }

  lemma InvIsSound(s: State)
    requires Inv(s)
    ensures Sound(s)
  {
  }

  lemma EmptyRun(s: State)
    requires Inv(s)
    ensures IsRun(s, []) && After(s, []) == s
  {
    hide Inv;
  }

  /** A run that misses a turn: the first read of the tick count comes a full turn after time zero,
      finds no tick to work off, and processed time stays at zero. */
  lemma MissedTurn(c: Config)
    requires ValidConfig(c)
    ensures Inv(Start(c, c.modulus))
    ensures var s, run := Start(c, c.modulus), [Create(0, 0)] + [Call] + [CheckPending] + [ReadClock] + [Tick];
            && IsRun(s, run)
            && var t := After(s, run); t.pc == Selecting && t.h.now == 0 && t.h.read == c.modulus && !t.h.kept
  {
    hide Inv, Step, Enabled, Start, IsRun, After;
    var s, r := Start(c, c.modulus), [Create(0, 0)];
    CreatedTurnAhead(c);
    InvIsSound(s);
    var a := Step(s, Create(0, 0));
    CheckedTurnAhead(a, c);
    InvIsSound(a);
    InvIsSound(Step(a, Call));
    var d := Step(Step(a, Call), CheckPending);
    MissedTurnAhead(d, c);
    EmptyRun(s);
    assert [] + [Create(0, 0)] == r;
    RunStep(s, [], Create(0, 0));
    RunStep(s, r, Call);
    RunStep(s, r + [Call], CheckPending);
    RunStep(s, r + [Call] + [CheckPending], ReadClock);
    RunStep(s, r + [Call] + [CheckPending] + [ReadClock], Tick);
  }

  /** Everybody who is delayed wakes up after the hardware time that was read last. */
  ghost predicate NobodySleepsPast(s: State) {
    forall id :: 0 <= id < |s.l.priority| && IsDelayed(s.l, id) ==> id < |s.h.due| && s.h.read < s.h.due[id]
  }

  /** Once all ticks are worked off, nobody is asleep whose time has come, if no turn was missed. */
  lemma NobodyOversleeps(s: State)
    requires Inv(s) && !WorkingOff(s.pc) && s.h.kept
    ensures NobodySleepsPast(s)
  {
    forall id | 0 <= id < |s.l.priority| && IsDelayed(s.l, id)
      ensures id < |s.h.due| && s.h.read < s.h.due[id]
    {
      NobodyOverdue(s, id);
      ProcessedTimeIsTrueTime(s);
    }
  }

  lemma StepGoesOn(s: State, a: Action)
    requires Inv(s) && Enabled(s, a)
    ensures s.h.hardware <= Step(s, a).h.hardware && s.h.read <= Step(s, a).h.read
  {
    hide ListsShape, Located, DelaysTimed, DelaysOrdered, EventsOrdered, SignalsOrdered, SignalsAccounted;
  }

  /** Neither hardware time nor the time read last goes back along a run. */
  lemma {:induction false} TimeGoesOn(s: State, run: seq<Action>, longer: seq<Action>)
    requires Inv(s) && IsRun(s, run) && IsRun(s, longer) && run <= longer
    ensures After(s, run).h.hardware <= After(s, longer).h.hardware
    ensures After(s, run).h.read <= After(s, longer).h.read
    decreases |longer|
  {
    hide Inv, Step, Enabled;
    if longer != [] {
      InvIsSound(s);
      StepKeepsAll(s, longer[0]);
      var t := Step(s, longer[0]);
      if run == [] {
        StepGoesOn(s, longer[0]);
        EmptyRun(s);
        EmptyRun(t);
        TimeGoesOn(t, [], longer[1..]);
      } else {
        TimeGoesOn(t, run[1..], longer[1..]);
      }
    }
  }

  // ---------- round robin ----------

  /** What an action does to the ready list of a priority. */
  ghost function ReadyOps(s: State, a: Action, p: nat): seq<RoundRobin.Op>
    requires Inv(s) && Enabled(s, a)
  {
    match a
    case Create(q, junk) => if Clamp(q, s.cfg) == p then [RoundRobin.Add(Entry(|s.l.priority|, junk))] else []
    case Delay(_, _) => if s.l.priority[s.current] == p then [RoundRobin.Drop(s.current)] else []
    case MovePending => if s.l.priority[s.pc.id] == p then [RoundRobin.Add(Entry(s.pc.id, s.l.wake[s.pc.id]))] else []
    case Wake => if s.l.priority[s.pc.id] == p then [RoundRobin.Add(Entry(s.pc.id, s.l.wake[s.pc.id]))] else []
    case Select => if s.top == p && s.l.ready[p].entries != [] then [RoundRobin.Pick] else []
    case _ => []
  }

  /** Ready list p changes from state s to t by at most one operation, this one. */
  ghost predicate OnlyReadyOps(s: State, t: State, ops: seq<RoundRobin.Op>, p: nat)
    requires Sound(s) && p < |s.l.ready| == |t.l.ready|
  {
    if ops == [] then t.l.ready[p] == s.l.ready[p]
    else && ops == [ops[0]] && RoundRobin.Allowed(s.l.ready[p], ops[0], |t.l.priority|)
         && t.l.ready[p] == RoundRobin.Apply(s.l.ready[p], ops[0])
  }

  /** What the action does to ready list p is what ReadyOps says. */
  ghost predicate ReadyOpsRight(s: State, a: Action, p: nat)
    requires Inv(s) && Enabled(s, a)
  {
    && Sound(s) && p < |Step(s, a).l.ready| == |s.l.ready| == s.cfg.priorities
    && OnlyReadyOps(s, Step(s, a), ReadyOps(s, a, p), p)
  }

  lemma CreateReadyOps(s: State, priority: nat, junk: nat, p: nat)
    requires Inv(s) && Enabled(s, Create(priority, junk)) && p < s.cfg.priorities
    ensures ReadyOpsRight(s, Create(priority, junk), p)
  {
    SizeBelow(s.l.ready[p], |s.l.priority| + 1, |s.l.priority|);
  }

  lemma DelayReadyOps(s: State, a: Action, p: nat)
    requires Inv(s) && Enabled(s, a) && a.Delay? && p < s.cfg.priorities
    ensures ReadyOpsRight(s, a, p)
  {
  }

  lemma MovePendingReadyOps(s: State, p: nat)
    requires Inv(s) && s.pc.Unblocked? && p < s.cfg.priorities
    ensures ReadyOpsRight(s, MovePending, p)
  {
    assert OnePlace(s.l, s.pc, s.pc.id);
    SizeBelowIfAdded(s, s.pc.id, p);
  }

  lemma WakeReadyOps(s: State, p: nat)
    requires Inv(s) && s.pc.Woken? && p < s.cfg.priorities
    ensures ReadyOpsRight(s, Wake, p)
  {
    assert OnePlace(s.l, s.pc, s.pc.id);
    SizeBelowIfAdded(s, s.pc.id, p);
  }

  lemma TimeOutReadyOps(s: State, p: nat)
    requires Inv(s) && s.pc.Expired? && p < s.cfg.priorities
    ensures ReadyOpsRight(s, TimeOut, p)
  {
    RemoveHeadShape(s.l.delayed, |s.l.priority|, false);
    assert OnePlace(s.l, s.pc, s.pc.id);
  }

  lemma SelectReadyOps(s: State, p: nat)
    requires Inv(s) && Enabled(s, Select) && p < s.cfg.priorities
    ensures ReadyOpsRight(s, Select, p)
  {
  }

  lemma OtherReadyOps(s: State, a: Action, p: nat)
    requires Inv(s) && Enabled(s, a) && p < s.cfg.priorities
    requires !a.Create? && !a.Delay? && !a.MovePending? && !a.Wake? && !a.TimeOut? && !a.Select?
    ensures ReadyOpsRight(s, a, p)
  {
  }

  /** Ready lists only see selections, additions at the end, and removals. */
  lemma ReadyListStep(s: State, a: Action, p: nat)
    requires Inv(s) && Enabled(s, a) && p < s.cfg.priorities
    ensures Sound(s) && |Step(s, a).l.ready| == |s.l.ready| == s.cfg.priorities
    ensures OnlyReadyOps(s, Step(s, a), ReadyOps(s, a, p), p)
  {
    hide Inv, Sound, Step, ReadyOps, OnlyReadyOps;
    match a
    case Create(q, junk) => CreateReadyOps(s, q, junk, p);
    case Delay(_, _) => DelayReadyOps(s, a, p);
    case MovePending => MovePendingReadyOps(s, p);
    case Wake => WakeReadyOps(s, p);
    case TimeOut => TimeOutReadyOps(s, p);
    case Select => SelectReadyOps(s, p);
    case _ => OtherReadyOps(s, a, p);
  }

  lemma SizeBelowIfAdded(s: State, id: nat, p: nat)
    requires Sound(s) && id < |s.l.priority| && !InReady(s.l, id) && p < s.cfg.priorities
    ensures s.l.priority[id] == p ==> |s.l.ready[p].entries| < |s.l.priority|
  {
    if s.l.priority[id] == p { SizeBelow(s.l.ready[p], |s.l.priority|, id); }
  }

  lemma SizeBelow(v: ListView, n: nat, id: nat)
    requires WellFormed(v) && (forall o :: o in Owners(v.entries) ==> o < n) && id < n && !Holds(v, id)
    ensures |v.entries| < n
  {
    OwnersCounted(v.entries);
    CountBelow(n);
    SubsetIsSmaller(Owners(v.entries), Below(n) - {id});
  }

  lemma {:induction false} OwnersCounted(s: seq<Entry>)
    requires DistinctOwners(s)
    ensures |Owners(s)| == |s|
  {
    if s != [] {
      OwnersCounted(s[1..]);
      OwnerAt(s[1..], s[0].owner);
    }
  }

  function Below(n: nat): set<nat> {
    if n == 0 then {} else Below(n - 1) + {n - 1}
  }

  lemma {:induction false} CountBelow(n: nat)
    ensures |Below(n)| == n && forall o: nat :: o in Below(n) <==> o < n
  {
    if n > 0 { CountBelow(n - 1); }
  }

  lemma SubsetIsSmaller(a: set<nat>, b: set<nat>)
    requires a <= b
    ensures |a| <= |b|
  {
    assert b == a + (b - a);
  }

  /** The co-routines selected at priority p along a run, in order. */
  ghost function SelectedAt(s: State, run: seq<Action>, p: nat): seq<nat>
    requires Inv(s) && IsRun(s, run)
    decreases |run|
  {
    if run == [] then [] else
      StepKeepsAll(s, run[0]);
      var t := Step(s, run[0]);
      (if run[0] == Select && t.pc == Running && s.top == p then [t.current] else []) + SelectedAt(t, run[1..], p)
  }

  ghost predicate NeverDelays(s: State, run: seq<Action>, id: nat)
    requires Inv(s) && IsRun(s, run)
    decreases |run|
  {
    run == [] || (!(run[0].Delay? && s.current == id) &&
      (StepKeepsAll(s, run[0]); NeverDelays(Step(s, run[0]), run[1..], id)))
  }

  /** How many selections at its priority a ready co-routine may still have to wait for, its own
      included, if there are never more than n co-routines. */
  ghost function TurnsToWait(s: State, id: nat, n: nat): nat
    requires Inv(s) && InReady(s.l, id)
  {
    RoundRobin.Wait(s.l.ready[s.l.priority[id]], id, n)
  }

  lemma {:induction false} CreatedOnlyGrows(s: State, run: seq<Action>)
    requires Inv(s) && IsRun(s, run)
    ensures |s.l.priority| <= |After(s, run).l.priority| && s.l.priority <= After(s, run).l.priority
    ensures After(s, run).cfg == s.cfg
    decreases |run|
  {
    if run != [] {
      StepKeepsAll(s, run[0]);
      PrioritiesKept(s, run[0]);
      CreatedOnlyGrows(Step(s, run[0]), run[1..]);
    }
  }

  lemma PrioritiesKept(s: State, a: Action)
    requires Sound(s) && Enabled(s, a)
    ensures s.l.priority <= Step(s, a).l.priority && Step(s, a).cfg == s.cfg
  {
  }

  lemma ReadyStays(s: State, a: Action, id: nat, n: nat)
    requires Inv(s) && Enabled(s, a) && Inv(Step(s, a)) && InReady(s.l, id) && !(a.Delay? && s.current == id)
    requires |Step(s, a).l.priority| <= n
    ensures var t, p := Step(s, a), s.l.priority[id];
            && InReady(t.l, id) && t.l.priority[id] == p
            && (if a == Select && t.pc == Running && s.top == p && t.current != id
                then TurnsToWait(t, id, n) < TurnsToWait(s, id, n)
                else (a == Select && t.pc == Running && s.top == p) || TurnsToWait(t, id, n) <= TurnsToWait(s, id, n))
  {
    hide RoundRobin.Wait, IndexOf, Next, Remove, InsertEnd, Owners;
    var p, t := s.l.priority[id], Step(s, a);
    PrioritiesKept(s, a);
    ReadyListStep(s, a, p);
    var v, ops := s.l.ready[p], ReadyOps(s, a, p);
    SizeAtMost(v, |s.l.priority|);
    if ops != [] {
      assert ops[0] != RoundRobin.Drop(id);
      RoundRobin.WaitShrinks(v, ops[0], id, n);
    }
  }

  lemma SizeAtMost(v: ListView, n: nat)
    requires WellFormed(v) && (forall o :: o in Owners(v.entries) ==> o < n)
    ensures |v.entries| <= n
  {
    OwnersCounted(v.entries);
    CountBelow(n);
    SubsetIsSmaller(Owners(v.entries), Below(n));
  }

  /** No starvation: with n co-routines in all, one that stays ready is selected within 2n - 1
      selections at its priority, whatever the others, the interrupts and the time-outs do. */
  lemma {:induction false} NoStarvation(s: State, run: seq<Action>, id: nat, n: nat)
    requires Inv(s) && IsRun(s, run) && InReady(s.l, id) && NeverDelays(s, run, id)
    requires |After(s, run).l.priority| <= n
    requires |SelectedAt(s, run, s.l.priority[id])| >= TurnsToWait(s, id, n)
    ensures id in SelectedAt(s, run, s.l.priority[id])[..TurnsToWait(s, id, n)]
    ensures TurnsToWait(s, id, n) <= 2 * n - 1
    decreases |run|
  {
    var p := s.l.priority[id];
    CreatedOnlyGrows(s, run);
    SizeAtMost(s.l.ready[p], |s.l.priority|);
    StepKeepsAll(s, run[0]);
    var a, t := run[0], Step(s, run[0]);
    CreatedOnlyGrows(t, run[1..]);
    ReadyStays(s, a, id, n);
    var first := if a == Select && t.pc == Running && s.top == p then [t.current] else [];
    if first == [id] {
      assert SelectedAt(s, run, p)[0] == id;
    } else {
      NoStarvation(t, run[1..], id, n);
      RoundRobin.FoundInRest(first, SelectedAt(t, run[1..], p), TurnsToWait(t, id, n), TurnsToWait(s, id, n), id);
    }
  }
}
