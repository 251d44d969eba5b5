/**
  The functions of freertos/src/croutine.c on control blocks and lists in memory, with interrupts at
  every point where the source has them enabled.  Each stretch of code is proved to take the step of
  `CoRoutines` of the same name, so that everything `CoRoutineGuarantees` proves of runs holds of
  this code.
 */
module CoRoutineScheduler {
  import opened Wrappers
  import opened ListViews
  import opened KernelList
  import opened CoRoutines
  import opened CoRoutinePlaces
  import opened CoRoutineTiming
  import opened CoRoutineOrder
  import opened CoRoutineGuarantees
  import opened CoRoutineEvents
  import opened CoRoutineMemory

  /** What an interrupt may do: unblock a co-routine waiting on an event list, or count a tick. */
  datatype Interrupt = Event(list: nat) | ClockTick

  class Scheduler {
    const m: Memory
    const cfg: Config
    /** pxCurrentCoRoutine, uxTopCoRoutineReadyPriority and the tick counters. */
    var current: nat
    var top: nat
    var tick: nat
    var last: nat
    var passed: nat
    /** The kernel's tick count, and what the interrupts to come will do at each point where they
        are enabled: any values, so that every interleaving is covered. */
    var kernelTick: nat
    var upcoming: seq<seq<Interrupt>>

    /** The state this memory stands for, and the run that led to it. */
    ghost const start: State
    ghost var s: State
    ghost var run: seq<Action>

    /** The memory and the counters stand for the state. */
    ghost predicate Agrees()
      reads this, m, m.lists, m.items
    {
      && m.Matches(s.l) && m.cfg == s.cfg == cfg
      && current == s.current && top == s.top
      && tick == s.c.tick && last == s.c.last && passed == s.c.passed
      && cfg.modulus > 0 && kernelTick == s.h.hardware % cfg.modulus
    }

    /** The state is one that a run of the state machine reaches. */
    ghost predicate Reached()
      reads this
    {
      Inv(s) && Inv(start) && IsRun(start, run) && After(start, run) == s
    }

    ghost predicate Valid()
      reads this, m, m.lists, m.items
    {
      Agrees() && Reached()
    }

    constructor (cfg: Config, kernelTick: nat, ghost hardware: nat, upcoming: seq<seq<Interrupt>>)
      requires ValidConfig(cfg) && kernelTick == hardware % cfg.modulus
      ensures Valid() && s == Start(cfg, hardware) && run == []
      ensures this.cfg == cfg && this.upcoming == upcoming
      ensures fresh(m) && fresh(m.items) && forall l :: l in m.lists ==> fresh(l)
    {
      hide Inv, Memory.Matches, Memory.Sane, IsRun, After, Start;
      m := new Memory(cfg);
      this.cfg := cfg;
      current, top, tick, last, passed := 0, 0, 0, 0, 0;
      this.kernelTick, this.upcoming := kernelTick, upcoming;
      start, s, run := Start(cfg, hardware), Start(cfg, hardware), [];
      new;
      StartFacts(cfg, hardware);
      m.EmptyMemoryMatches(hardware);
    }

    /** Takes note of the step that the code has just taken. */
    ghost method Did(a: Action)
      requires Reached() && Enabled(s, a)
      modifies this`s, this`run
      ensures Reached() && Took(old(s), a, s) && run == old(run) + [a]
    {
      RunStep(start, run, a);
      s := Step(s, a);
      run := run + [a];
    }

    // ---------- the stretches of code between interrupts ----------

    /** prvAddCoRoutineToReadyQueue: the part that raises the top priority. */
    method RaiseTop(id: nat)
      requires id < |m.blocks|
      modifies this`top
      ensures top == Raise(old(top), m.blocks[id].priority)
    {
      if m.blocks[id].priority > top {
        top := m.blocks[id].priority;
      }
    }

    /** The loop test of prvCheckPendingReadyList. */
    method PendingIsEmpty() returns (empty: bool)
      requires Valid() && s.pc == Pending
      modifies this`s, this`run
      ensures Valid() && Took(old(s), CheckPending, s) && s.pc == if empty then Counting else Popping
      ensures empty <==> s.l.pending.entries == []
      ensures s.l == old(s.l) && run == old(run) + [CheckPending]
    {
      hide Inv, Memory.Matches, IsRun, After;
      ListsOfState();
      var owner, value;
      empty, owner, value := m.Look(s.l, cfg.priorities + 2, m.lists[cfg.priorities + 2]);
      Did(CheckPending);
    }

    lemma ListsOfState()
      requires Agrees()
      ensures |m.lists| == cfg.priorities + 3 + cfg.eventLists && |m.blocks| == |s.l.priority|
      ensures |s.l.ready| == cfg.priorities && |s.l.events| == cfg.eventLists
      ensures m.ViewOf(s.l, cfg.priorities + 2) == s.l.pending
      ensures forall p :: 0 <= p < cfg.priorities ==> m.ViewOf(s.l, p) == s.l.ready[p]
      ensures forall e :: 0 <= e < cfg.eventLists ==> m.ViewOf(s.l, cfg.priorities + 3 + e) == s.l.events[e]
      ensures forall id :: 0 <= id < |m.blocks| ==> m.blocks[id].priority == s.l.priority[id]
    {
    }

    /** The critical section of prvCheckPendingReadyList. */
    method PopHead() returns (id: nat)
      requires Valid() && s.pc == Popping
      modifies this`s, this`run, m.lists, m.items
      ensures Valid() && Took(old(s), PopPending, s) && s.pc == Unblocked(id) && run == old(run) + [PopPending]
      ensures Sleepers(s.l) == old(Sleepers(s.l))
    {
      hide Inv, Memory.Matches, IsRun, After, Step, Sound;
      ListsOfState();
      PopFacts(s);
      var empty, value;
      empty, id, value := m.Look(s.l, cfg.priorities + 2, m.lists[cfg.priorities + 2]);
      m.TakeEventItem(s.l, id);
      Did(PopPending);
    }

    /** The rest of the loop body of prvCheckPendingReadyList. */
    method MoveToReady(id: nat)
      requires Valid() && s.pc == Unblocked(id)
      modifies this`s, this`run, this`top, m.lists, m.items
      ensures Valid() && Took(old(s), MovePending, s) && s.pc == Pending && run == old(run) + [MovePending]
      ensures Sleepers(s.l) < old(Sleepers(s.l))
    {
      hide Inv, Memory.Matches, IsRun, After, Step, Sound, TakeGeneric, ToReady;
      ListsOfState();
      MoveFacts(s);
      m.DelayedToReady(s.l, id);
      RaiseTop(id);
      Did(MovePending);
    }

    /** The first line of prvCheckDelayedList: how many ticks have passed since the last call. */
    method ReadTicks()
      requires Valid() && s.pc == Counting
      modifies this`passed, this`s, this`run
      ensures Valid() && Took(old(s), ReadClock, s) && s.pc == Ticking && run == old(run) + [ReadClock]
      ensures s.h.read == old(s.h.hardware)
    {
      hide Inv, Memory.Matches, IsRun, After, Step, Sound, WrapSub;
      ReadFacts(s);
      passed := WrapSub(kernelTick, last, cfg.modulus);
      Did(ReadClock);
    }

    /** The head of the outer loop of prvCheckDelayedList, with the swap of the lists; and the line
        after the loop. */
    method OneTick() returns (more: bool)
      requires Valid() && s.pc == Ticking
      modifies this`tick, this`passed, this`last, this`s, this`run, m`delayed, m`overflow
      ensures Valid() && Took(old(s), Tick, s) && run == old(run) + [Tick]
      ensures s.pc == if more then Expiring else Selecting
      ensures more <==> old(passed) > 0
      ensures more ==> passed == old(passed) - 1
    {
      hide Inv, Memory.Matches, IsRun, After, Step, Sound;
      TickFacts(s);
      more := passed > 0;
      if more {
        tick := if tick + 1 == cfg.modulus then 0 else tick + 1;
        passed := passed - 1;
        if tick == 0 {
          m.SwapDelayLists(s.l);
        }
      } else {
        last := tick;
      }
      Did(Tick);
    }

    /** The inner loop test of prvCheckDelayedList and the look at the head of the list. */
    method HeadTimedOut() returns (timedOut: bool, id: nat)
      requires Valid() && s.pc == Expiring
      modifies this`s, this`run
      ensures Valid() && Took(old(s), CheckHead, s) && run == old(run) + [CheckHead] && s.l == old(s.l)
      ensures s.pc == if timedOut then Expired(id) else Ticking
    {
      hide Inv, Memory.Matches, IsRun, After, Step, Sound;
      ghost var k := DelayedList();
      HeadFacts(s);
      var empty, value;
      empty, id, value := m.Look(s.l, k, m.delayed);
      timedOut := !empty && tick >= value;
      Did(CheckHead);
    }

    lemma DelayedList() returns (k: nat)
      requires Agrees()
      ensures k < |m.lists| == cfg.priorities + 3 + cfg.eventLists && m.lists[k] == m.delayed
      ensures |s.l.ready| == cfg.priorities && |s.l.events| == cfg.eventLists && m.ViewOf(s.l, k) == s.l.delayed
    {
      k := if m.delayed == m.lists[cfg.priorities] then cfg.priorities else cfg.priorities + 1;
    }

    /** The critical section of prvCheckDelayedList. */
    method TakeTimedOut(id: nat)
      requires Valid() && s.pc == Expired(id)
      modifies this`s, this`run, m.lists, m.items
      ensures Valid() && Took(old(s), TimeOut, s) && s.pc == Woken(id) && run == old(run) + [TimeOut]
      ensures Sleepers(s.l) < old(Sleepers(s.l))
    {
      hide Inv, Memory.Matches, IsRun, After, Step, Sound, TakeGeneric, TakeEvent;
      ListsOfState();
      TimeOutFacts(s);
      m.TakeGenericItem(s.l, id);
      m.TakeEventItem(TakeGeneric(s.l, id), id);
      Did(TimeOut);
    }

    /** The line after that critical section. */
    method WakeUp(id: nat)
      requires Valid() && s.pc == Woken(id)
      modifies this`s, this`run, this`top, m.lists, m.items
      ensures Valid() && Took(old(s), Wake, s) && s.pc == Expiring && run == old(run) + [Wake]
      ensures Sleepers(s.l) == old(Sleepers(s.l))
    {
      hide Inv, Memory.Matches, IsRun, After, Owners, ListsShape;
      ListsOfState();
      WakeFacts(s);
      hide Step, Sound, ToReady;
      m.ToReadyList(s.l, id);
      RaiseTop(id);
      Did(Wake);
    }

    /** The loop of vCoRoutineSchedule that searches for a ready list, one list at a time, and the
        selection from the list found. */
    method LookAtTop() returns (found: bool, done: bool)
      requires Valid() && s.pc == Selecting
      modifies this`top, this`current, this`s, this`run, m.lists
      ensures Valid() && Took(old(s), Select, s) && run == old(run) + [Select]
      ensures s.pc == if found then Running else if done then Idle else Selecting
      ensures !found && !done ==> top < old(top)
      ensures found ==> RunsHighest(s)
      ensures !found && done ==> NobodyReady(s.l)
    {
      hide Inv, Memory.Matches, IsRun, After, Step, Sound, RunsHighest, NobodyReady;
      ListsOfState();
      SelectFacts(s);
      var empty, owner, value := m.Look(s.l, top, m.lists[top]);
      found, done := !empty, empty && top == 0;
      if found {
        current := m.NextReady(s.l, top);
      } else if !done {
        top := top - 1;
      }
      Did(Select);
    }

    /** xCoRoutineRemoveFromEventList: from an interrupt, or from the running co-routine.  True if the
        unblocked co-routine's priority is at least that of the current one. */
    method RemoveFromEventList(e: nat) returns (higher: bool)
      requires Valid() && Enabled(s, Unblock(e))
      modifies this`s, this`run, m.lists, m.items
      ensures Valid() && Took(old(s), Unblock(e), s) && run == old(run) + [Unblock(e)] && SameButEvents(old(s), s)
      ensures higher <==> PriorityOf(s, Waiter(old(s), e)) >= PriorityOf(s, current)
      ensures Holds(s.l.pending, Waiter(old(s), e)) && s.h.signals == old(s.h.signals) + 1
    {
      hide Inv, Memory.Matches, IsRun, After, Step, Sound, Enabled;
      higher := UnblockHead(e);
      UnblockSummary(s, e);
      Did(Unblock(e));
    }

    /** The moves of xCoRoutineRemoveFromEventList, and its comparison of the priorities. */
    method UnblockHead(e: nat) returns (higher: bool)
      requires Valid() && Enabled(s, Unblock(e))
      modifies m.lists, m.items
      ensures m.Matches(Step(s, Unblock(e)).l)
      ensures higher <==> PriorityOf(s, Waiter(s, e)) >= PriorityOf(s, current)
    {
      hide Inv, Memory.Matches, IsRun, After, Step, Sound, TakeEvent, InsertEnd, Owners;
      ListsOfState();
      var empty, id, value := m.Look(s.l, cfg.priorities + 3 + e, m.lists[cfg.priorities + 3 + e]);
      UnblockFacts(s, e);
      m.EventToPendingList(s.l, id);
      higher := m.blocks[id].priority >= m.blocks[current].priority;
    }

    /** The kernel's tick interrupt. */
    method CountTick()
      requires Valid()
      modifies this`kernelTick, this`s, this`run
      ensures Valid() && Took(old(s), HardwareTick, s) && run == old(run) + [HardwareTick] && SameButEvents(old(s), s)
      ensures s.h.hardware == old(s.h.hardware) + 1
    {
      hide Inv, Memory.Matches, IsRun, After;
      NextTickCount(s.h.hardware, cfg.modulus);
      kernelTick := if kernelTick + 1 == cfg.modulus then 0 else kernelTick + 1;
      Did(HardwareTick);
    }

    /** The body of vCoRoutineAddToDelayedList, for any delay, also of no ticks: the lists are those of
        the delay on values. */
    method MoveToDelayList(ticks: nat, event: Option<nat>)
      requires Valid() && CanDelay(s, ticks, event)
      modifies m.lists, m.items
      ensures m.Matches(DoDelay(s, ticks, event).l)
    {
      hide Inv, Memory.Matches, IsRun, After, Step, Sound, TakeGeneric, ToDelay, ToEvent, WrapAdd;
      ListsOfState();
      DelayFacts(s, ticks, event);
      var timeToWake := WrapAdd(tick, ticks, cfg.modulus);
      m.ReadyToDelayedAndWaiting(s.l, current, timeToWake, timeToWake < tick, event);
    }

    /** vCoRoutineAddToDelayedList, by the running co-routine, which has not delayed itself yet: for a
        delay of at least one tick, as its callers ask for, this is a step of the state machine. */
    method AddToDelayedList(ticks: nat, event: Option<nat>)
      requires Valid() && CanDelay(s, ticks, event)
      modifies this`s, this`run, m.lists, m.items
      ensures m.Matches(DoDelay(old(s), ticks, event).l)
      ensures ticks == 0 ==> s == old(s) && run == old(run)
      ensures ticks > 0 ==>
                Valid() && Took(old(s), Delay(ticks, event), s) && run == old(run) + [Delay(ticks, event)]
    {
      hide Inv, Memory.Matches, IsRun, After, Sound, DoDelay;
      MoveToDelayList(ticks, event);
      if ticks > 0 {
        DelayIsStep(s, ticks, event);
        Did(Delay(ticks, event));
      }
    }

    /** xCoRoutineCreate, when the memory for the control block is there; junk is what it holds. */
    method CreateCoRoutine(priority: nat, junk: nat) returns (id: nat)
      requires Valid() && Enabled(s, Create(priority, junk))
      modifies this`s, this`run, this`top, this`current, m`blocks, m`items, m.lists, m.items
      ensures Valid() && Took(old(s), Create(priority, junk), s) && run == old(run) + [Create(priority, junk)]
      ensures id == |old(s.l.priority)| && fresh(m.items - old(m.items))
    {
      hide Inv, Memory.Matches, IsRun, After, Step, Sound, Allocate, ToReady;
      ListsOfState();
      CreateFacts(s, priority, junk);
      var p := if priority >= cfg.priorities then cfg.priorities - 1 else priority;
      if |m.blocks| == 0 {
        current := 0;
      }
      id := m.NewReadyBlock(s.l, p, junk);
      RaiseTop(id);
      Did(Create(priority, junk));
    }

    // ---------- the functions, with interrupts wherever they are enabled ----------

    lemma RunSoFar()
      requires Valid()
      ensures Inv(start) && IsRun(start, run) && After(start, run) == s && Inv(s)
    {
      hide Inv, Memory.Matches, IsRun, After;
    }

    /** A point where interrupts are enabled: those that are to come here come, all of them. */
    method Interrupts()
      requires Valid()
      modifies this`upcoming, this`kernelTick, this`s, this`run, m.lists, m.items
      ensures Valid() && SameButEvents(old(s), s) && NoDelaySince(old(run), run)
      ensures Inv(old(s)) && AllHappened(old(s), old(run), old(upcoming), run, upcoming)
    {
      hide Valid, Inv, AllTaken, Taken, SameButEvents, NoDelaySince;
      RunSoFar();
      SameAsBefore(s);
      Itself(run);
      var now := InterruptsNow();
      ghost var later := upcoming;
      assert now[0..] == now;
      for i := 0 to |now|
        invariant Valid() && Inv(s) && SameButEvents(old(s), s) && NoDelaySince(old(run), run)
        invariant upcoming == later
        invariant run + AllTaken(s, now[i..]) == old(run) + AllTaken(old(s), now)
      {
        ghost var before, was := s, run;
        OneInterrupt(now[i]);
        RunSoFar();
        assert now[i..][0] == now[i] && now[i..][1..] == now[i+1..];
        FirstTaken(before, now[i..]);
        TakenWithoutDelay(old(run), was, before, now[i]);
        assert was + (Taken(before, now[i]) + AllTaken(s, now[i+1..])) == run + AllTaken(s, now[i+1..]);
        SameAgain(old(s), before, s);
      }
      NoneTaken(s);
      assert now[|now|..] == [];
      assert run + [] == run && old(run) + [] == old(run);
      if old(upcoming) == [] { NoneTaken(old(s)); }
    }

    method InterruptsNow() returns (now: seq<Interrupt>)
      requires Valid()
      modifies this`upcoming
      ensures Valid()
      ensures if old(upcoming) == [] then now == [] && upcoming == [] else old(upcoming) == [now] + upcoming
    {
      hide Inv, Memory.Matches, IsRun, After;
      if upcoming == [] {
        now := [];
      } else {
        now, upcoming := upcoming[0], upcoming[1..];
      }
    }

    /** An interrupt only unblocks from an event list that it has checked not to be empty. */
    method OneInterrupt(i: Interrupt)
      requires Valid()
      modifies this`kernelTick, this`s, this`run, m.lists, m.items
      ensures Valid() && SameButEvents(old(s), s)
      ensures Inv(old(s)) && run == old(run) + Taken(old(s), i) && s == AfterTaken(old(s), i)
    {
      hide Valid, Enabled, Step, Inv;
      RunSoFar();
      SameAsBefore(s);
      match i
      case Event(e) =>
        var waiting := SomebodyWaits(e);
        if waiting {
          var higher := RemoveFromEventList(e);
        }
      case ClockTick =>
        CountTick();
    }

    method SomebodyWaits(e: nat) returns (waiting: bool)
      requires Valid()
      ensures waiting <==> Enabled(s, Unblock(e))
    {
      hide Inv, Memory.Matches, IsRun, After;
      ListsOfState();
      waiting := false;
      if e < cfg.eventLists {
        var empty, owner, value := m.Look(s.l, cfg.priorities + 3 + e, m.lists[cfg.priorities + 3 + e]);
        waiting := !empty;
      }
    }

    /** prvCheckPendingReadyList: it ends however many interrupts come, since nobody is delayed
        meanwhile; then the list is empty, everybody who was on it is ready, and every event so far has
        been served. */
    method CheckPendingReadyList()
      requires Valid() && s.pc == Pending
      modifies this`upcoming, this`kernelTick, this`top, this`s, this`run, m.lists, m.items
      ensures Valid() && s.pc == Counting && NoDelaySince(old(run), run)
      ensures s.l.pending.entries == []
      ensures forall id: nat :: Holds(old(s.l.pending), id) ==> InReady(s.l, id)
      ensures old(s.h.signals) <= s.h.signals && Served(s, s.h.signals)
    {
      hide Valid, Inv, IsRun, After, Step, Enabled, Served, NoDelaySince, AllHappened, Took;
      RunSoFar();
      Interrupts();
      OneMore(old(run), run, CheckPending);
      var empty := PendingIsEmpty();
      while !empty
        invariant Valid() && s.pc == (if empty then Counting else Popping) && NoDelaySince(old(run), run)
        invariant empty ==> s.l.pending.entries == []
        decreases Sleepers(s.l)
      {
        ghost var r := run;
        MoveOnePending();
        Longer(old(run), r, run);
        r := run;
        Interrupts();
        Longer(old(run), r, run);
        OneMore(old(run), run, CheckPending);
        empty := PendingIsEmpty();
      }
      RunSoFar();
      PendingIsServed(start, old(run), run);
      NothingPending(s);
    }

    /** The loop body of prvCheckPendingReadyList. */
    method MoveOnePending()
      requires Valid() && s.pc == Popping
      modifies this`upcoming, this`kernelTick, this`top, this`s, this`run, m.lists, m.items
      ensures Valid() && s.pc == Pending && NoDelaySince(old(run), run) && Sleepers(s.l) < old(Sleepers(s.l))
    {
      hide Valid, NoDelaySince, AllHappened, Inv, Step, Took;
      Interrupts();
      OneMore(old(run), run, PopPending);
      var id := PopHead();
      ghost var r := run;
      Interrupts();
      Longer(old(run), r, run);
      OneMore(old(run), run, MovePending);
      MoveToReady(id);
    }

    /** prvCheckDelayedList: every tick that has passed is worked off, whatever interrupts come, and then
        nobody is asleep whose time had come when the tick count was read. */
    method CheckDelayedList()
      requires Valid() && s.pc == Counting
      modifies this`upcoming, this`kernelTick, this`top, this`tick, this`last, this`passed, this`s, this`run
      modifies m`delayed, m`overflow, m.lists, m.items
      ensures Valid() && s.pc == Selecting && NoDelaySince(old(run), run)
      ensures old(s.h.hardware) <= s.h.read && (s.h.kept ==> NobodySleepsPast(s))
    {
      hide Valid, Inv, IsRun, After, Step, Enabled, NobodySleepsPast, NoDelaySince, AllHappened;
      RunSoFar();
      Interrupts();
      RunSoFar();
      OnlyLonger(old(run), run);
      TimeGoesOn(start, old(run), run);
      OneMore(old(run), run, ReadClock);
      ReadTicks();
      RunSoFar();
      ghost var read, since := s.h.read, run;
      Interrupts();
      OneMore(since, run, Tick);
      var more := OneTick();
      while more
        invariant Valid() && s.pc == (if more then Expiring else Selecting)
        invariant NoDelaySince(since, run)
        decreases if more then passed + 1 else 0
      {
        ghost var r := run;
        WakeTimedOut();
        Longer(since, r, run);
        r := run;
        Interrupts();
        Longer(since, r, run);
        OneMore(since, run, Tick);
        more := OneTick();
      }
      RunSoFar();
      Longer(old(run), since, run);
      OnlyLonger(since, run);
      TimeGoesOn(start, since, run);
      if s.h.kept { NobodyOversleeps(s); }
    }

    /** The inner loop of prvCheckDelayedList. */
    method WakeTimedOut()
      requires Valid() && s.pc == Expiring
      modifies this`upcoming, this`kernelTick, this`top, this`s, this`run, m.lists, m.items
      ensures Valid() && s.pc == Ticking && NoDelaySince(old(run), run)
    {
      hide Valid, NoDelaySince, AllHappened, Inv, Step, Took;
      Interrupts();
      OneMore(old(run), run, CheckHead);
      var timedOut, id := HeadTimedOut();
      while timedOut
        invariant Valid() && s.pc == (if timedOut then Expired(id) else Ticking)
        invariant NoDelaySince(old(run), run)
        decreases Sleepers(s.l)
      {
        ghost var r := run;
        WakeOne(id);
        Longer(old(run), r, run);
        r := run;
        Interrupts();
        Longer(old(run), r, run);
        OneMore(old(run), run, CheckHead);
        timedOut, id := HeadTimedOut();
      }
    }

    /** The rest of the body of that loop, when the head has timed out. */
    method WakeOne(id: nat)
      requires Valid() && s.pc == Expired(id)
      modifies this`upcoming, this`kernelTick, this`top, this`s, this`run, m.lists, m.items
      ensures Valid() && s.pc == Expiring && NoDelaySince(old(run), run) && Sleepers(s.l) < old(Sleepers(s.l))
    {
      hide Valid, NoDelaySince, AllHappened, Inv, Step, Took;
      Interrupts();
      OneMore(old(run), run, TimeOut);
      TakeTimedOut(id);
      ghost var r := run;
      Interrupts();
      Longer(old(run), r, run);
      OneMore(old(run), run, Wake);
      WakeUp(id);
    }

    /** The search of vCoRoutineSchedule: it ends at the lowest priority at the latest. */
    method SearchReady() returns (found: bool)
      requires Valid() && s.pc == Selecting
      modifies this`upcoming, this`kernelTick, this`top, this`current, this`s, this`run, m.lists, m.items
      ensures Valid() && s.pc == (if found then Running else Idle) && NoDelaySince(old(run), run)
      ensures found ==> RunsHighest(s)
      ensures !found ==> NobodyReady(s.l)
    {
      hide Valid, RunsHighest, NobodyReady, NoDelaySince, AllHappened, Inv, Step, Took;
      Interrupts();
      OneMore(old(run), run, Select);
      var done;
      found, done := LookAtTop();
      while !found && !done
        invariant Valid() && s.pc == (if found then Running else if done then Idle else Selecting)
        invariant NoDelaySince(old(run), run)
        invariant found ==> RunsHighest(s)
        invariant !found && done ==> NobodyReady(s.l)
        decreases if found || done then 0 else top + 1
      {
        ghost var r := run;
        Interrupts();
        Longer(old(run), r, run);
        OneMore(old(run), run, Select);
        found, done := LookAtTop();
      }
    }

    /** The test at the head of vCoRoutineSchedule: nothing is done before the first creation. */
    method Enter() returns (any: bool)
      requires Valid() && s.pc == Idle
      modifies this`s, this`run
      ensures Valid() && Took(old(s), Call, s) && run == old(run) + [Call] && s.l == old(s.l)
      ensures s.h.signals == old(s.h.signals)
      ensures any <==> |s.l.priority| > 0
      ensures s.pc == if any then Pending else Idle
    {
      hide Inv, Memory.Matches, IsRun, After, Step, Sound;
      ListsOfState();
      CallFacts(s);
      any := |m.blocks| > 0;
      Did(Call);
    }

    /** vCoRoutineSchedule, up to the call of the co-routine function: it always ends, whatever
        interrupts come meanwhile, and the co-routine to be called is a ready one of the highest
        priority; none is called only if none is ready.  Everybody whom an event had unblocked when the
        function was entered is then ready.  Nobody is asleep whose time had come when the tick count
        was read, which was after that. */
    method Schedule() returns (found: bool)
      requires Valid() && s.pc == Idle
      modifies this`upcoming, this`kernelTick, this`top, this`current, this`tick, this`last, this`passed, this`s,
        this`run
      modifies m`delayed, m`overflow, m.lists, m.items
      ensures Valid() && s.pc == (if found then Running else Idle) && NoDelaySince(old(run) + [Call], run)
      ensures found ==> RunsHighest(s)
      ensures !found ==> NobodyReady(s.l)
      ensures s.h.kept ==> NobodySleepsPast(s)
      ensures |old(s.l.priority)| > 0 ==> old(s.h.hardware) <= s.h.read
      ensures |old(s.l.priority)| > 0 ==> Served(s, old(s.h.signals))
      ensures forall id: nat :: Holds(old(s.l.pending), id) ==> InReady(s.l, id)
    {
      hide Valid, RunsHighest, NobodyReady, Inv, IsRun, After, Step, Enabled, NobodySleepsPast, Served, NoDelaySince;
      RunSoFar();
      var any := Enter();
      Itself(run);
      if any {
        RunSoFar();
        ghost var entered := run;
        CheckPendingReadyList();
        RunSoFar();
        OnlyLonger(entered, run);
        TimeGoesOn(start, old(run), run);
        ghost var checked := run;
        CheckDelayedList();
        Longer(entered, checked, run);
        RunSoFar();
        ghost var since := run;
        found := SearchReady();
        Longer(entered, since, run);
        RunSoFar();
        OnlyLonger(since, run);
        TimeGoesOn(start, since, run);
        PendingIsServed(start, entered, run);
      } else {
        found := false;
        RunSoFar();
        NobodyWaits(s);
        NobodyCreated(s.l);
      }
      RunSoFar();
      if s.h.kept { NobodyOversleeps(s); }
    }

    /** The return of the co-routine function, and with it of vCoRoutineSchedule. */
    method CoRoutineReturns()
      requires Valid() && s.pc == Running
      modifies this`s, this`run
      ensures Valid() && Took(old(s), Return, s) && run == old(run) + [Return] && s.pc == Idle && s.l == old(s.l)
    {
      hide Inv, Memory.Matches, IsRun, After;
      Did(Return);
    }
  }

  lemma Itself(run: seq<Action>)
    ensures NoDelaySince(run, run)
  {
  }

  lemma OneMore(run: seq<Action>, longer: seq<Action>, a: Action)
    requires NoDelaySince(run, longer) && !a.Delay?
    ensures NoDelaySince(run, longer + [a])
  {
  }

  lemma Longer(run: seq<Action>, longer: seq<Action>, longest: seq<Action>)
    requires NoDelaySince(run, longer) && NoDelaySince(longer, longest)
    ensures NoDelaySince(run, longest)
  {
  }

  lemma TakenWithoutDelay(run: seq<Action>, longer: seq<Action>, s: State, i: Interrupt)
    requires NoDelaySince(run, longer)
    ensures NoDelaySince(run, longer + Taken(s, i))
  {
  }

  lemma OnlyLonger(run: seq<Action>, longer: seq<Action>)
    requires NoDelaySince(run, longer)
    ensures run <= longer
  {
  }

  /** All interrupts due at a point have happened there. */
  ghost predicate AllHappened(s: State, run: seq<Action>, upcoming: seq<seq<Interrupt>>,
                              longer: seq<Action>, later: seq<seq<Interrupt>>)
    requires Inv(s)
  {
    if upcoming == [] then longer == run && later == []
    else longer == run + AllTaken(s, upcoming[0]) && later == upcoming[1..]
  }

  /** The action that an interrupt is, if it does anything. */
  ghost function Taken(s: State, i: Interrupt): seq<Action> {
    match i
    case Event(e) => if Enabled(s, Unblock(e)) then [Unblock(e)] else []
    case ClockTick => [HardwareTick]
  }

  ghost function AfterTaken(s: State, i: Interrupt): State
    requires Inv(s)
  {
    match i
    case Event(e) => if Enabled(s, Unblock(e)) then Step(s, Unblock(e)) else s
    case ClockTick => Step(s, HardwareTick)
  }

  lemma TakenKeepsAll(s: State, i: Interrupt)
    requires Inv(s)
    ensures Inv(AfterTaken(s, i))
  {
    hide Inv, Step;
    match i
    case Event(e) => if Enabled(s, Unblock(e)) { StepKeepsAll(s, Unblock(e)); }
    case ClockTick => StepKeepsAll(s, HardwareTick);
  }

  /** The actions that interrupts are, one after the other. */
  ghost function AllTaken(s: State, now: seq<Interrupt>): seq<Action>
    requires Inv(s)
    decreases |now|
  {
    if now == [] then [] else
      TakenKeepsAll(s, now[0]);
      Taken(s, now[0]) + AllTaken(AfterTaken(s, now[0]), now[1..])
  }

  lemma FirstTaken(s: State, now: seq<Interrupt>)
    requires Inv(s) && now != []
    ensures Inv(AfterTaken(s, now[0]))
    ensures AllTaken(s, now) == Taken(s, now[0]) + AllTaken(AfterTaken(s, now[0]), now[1..])
  {
    hide Inv;
    TakenKeepsAll(s, now[0]);
  }

  lemma NoneTaken(s: State)
    requires Inv(s)
    ensures AllTaken(s, []) == []
  {
    hide Inv;
  }

  lemma SameAgain(s: State, t: State, u: State)
    requires SameButEvents(s, t) && SameButEvents(t, u)
    ensures SameButEvents(s, u)
  {
  }

  lemma SameAsBefore(s: State)
    ensures SameButEvents(s, s)
  {
  }

  lemma CallFacts(s: State)
    requires Inv(s) && s.pc == Idle
    ensures var t := Step(s, Call);
            && t.l == s.l && t.top == s.top && t.current == s.current && t.c == s.c && Untouched(s, t)
            && t.h.signals == s.h.signals
            && t.pc == (if |s.l.priority| == 0 then Idle else Pending)
  {
  }

  lemma NobodyWaits(s: State)
    requires Inv(s) && |s.l.priority| == 0
    ensures forall id: nat :: !Holds(s.l.pending, id)
  {
  }

  lemma NothingPending(s: State)
    requires Inv(s) && s.pc == Counting && s.l.pending.entries == []
    ensures Served(s, s.h.signals)
  {
    NoneOnTheWay(s);
  }

  lemma NobodyCreated(l: Lists)
    requires |l.priority| == 0
    ensures NobodyReady(l)
  {
  }

  /** How many co-routines are on the delay lists. */
  ghost function Sleepers(l: Lists): nat {
    |l.delayed.entries| + |l.overflow.entries|
  }

  ghost predicate Untouched(s: State, t: State) {
    t.cfg == s.cfg && t.h.hardware == s.h.hardware
  }

  lemma StartFacts(c: Config, hardware: nat)
    requires ValidConfig(c)
    ensures var s := Start(c, hardware);
            && Inv(s) && IsRun(s, []) && After(s, []) == s && s.cfg == c
            && s.current == s.top == s.c.tick == s.c.last == s.c.passed == 0 && s.h.hardware == hardware
  {
    hide Inv, IsRun, After;
    StartKeepsAll(c, hardware);
    EmptyRun(Start(c, hardware));
  }

  /** State t follows state s by action a. */
  ghost predicate Took(s: State, a: Action, t: State) {
    Inv(s) && Enabled(s, a) && t == Step(s, a)
  }

  lemma PopFacts(s: State)
    requires Inv(s) && s.pc == Popping
    ensures s.l.pending.entries != []
    ensures Step(s, PopPending) == s.(l := PopPendingHead(s.l), pc := Unblocked(s.l.pending.entries[0].owner))
    ensures var id := s.l.pending.entries[0].owner;
            id < |s.l.priority| && OneEventPlace(s.l, id) && TakeEvent(s.l, id) == PopPendingHead(s.l)
  {
    RemoveHeadShape(s.l.pending, |s.l.priority|, false);
    assert EventPlace(s.l, s.pc, s.l.pending.entries[0].owner);
  }

  lemma MoveFacts(s: State)
    requires Inv(s) && s.pc.Unblocked?
    ensures s.pc.id < |s.l.priority| && IsDelayed(s.l, s.pc.id) && !InReady(s.l, s.pc.id)
    ensures !(Holds(s.l.delayed, s.pc.id) && Holds(s.l.overflow, s.pc.id))
    ensures var t := TakeGeneric(s.l, s.pc.id); !IsDelayed(t, s.pc.id) && t.ready == s.l.ready
    ensures forall p :: 0 <= p < |s.l.ready| ==> !Holds(s.l.ready[p], s.pc.id)
    ensures Sleepers(TakeGeneric(s.l, s.pc.id)) < Sleepers(s.l)
    ensures var t := Step(s, MovePending);
            && t.l == ToReady(TakeGeneric(s.l, s.pc.id), s.pc.id) && t.top == Raise(s.top, s.l.priority[s.pc.id])
            && t.pc == Pending && Untouched(s, t) && t.current == s.current && t.c == s.c
            && t.l.delayed == TakeGeneric(s.l, s.pc.id).delayed && t.l.overflow == TakeGeneric(s.l, s.pc.id).overflow
    ensures TakeGeneric(s.l, s.pc.id).priority == s.l.priority
  {
    assert OnePlace(s.l, s.pc, s.pc.id);
    TakeGenericShape(s.l, s.cfg, s.pc.id);
  }

  lemma ReadFacts(s: State)
    requires Inv(s) && s.pc == Counting
    ensures s.cfg.modulus > 0
    ensures var t := Step(s, ReadClock);
            && t.l == s.l && t.top == s.top && t.current == s.current && Untouched(s, t) && t.pc == Ticking
            && t.h.read == s.h.hardware
            && t.c == s.c.(passed := WrapSub(s.h.hardware % s.cfg.modulus, s.c.last, s.cfg.modulus))
  {
  }

  lemma TickFacts(s: State)
    requires Inv(s) && s.pc == Ticking
    ensures var t := Step(s, Tick);
            && t.top == s.top && t.current == s.current && Untouched(s, t)
            && t.pc == (if s.c.passed == 0 then Selecting else Expiring)
            && t.l == (if s.c.passed > 0 && s.c.tick + 1 == s.cfg.modulus
                       then s.l.(delayed := s.l.overflow, overflow := s.l.delayed) else s.l)
            && t.c == if s.c.passed == 0 then s.c.(last := s.c.tick)
                      else Clock(if s.c.tick + 1 == s.cfg.modulus then 0 else s.c.tick + 1, s.c.last, s.c.passed - 1)
  {
  }

  lemma HeadFacts(s: State)
    requires Inv(s) && s.pc == Expiring
    ensures Step(s, CheckHead) == DoCheckHead(s)
  {
  }

  lemma TimeOutFacts(s: State)
    requires Inv(s) && s.pc.Expired?
    ensures var id := s.pc.id;
            && id < |s.l.priority| && IsDelayed(s.l, id) && !InReady(s.l, id)
            && !(Holds(s.l.delayed, id) && Holds(s.l.overflow, id))
            && OneEventPlace(TakeGeneric(s.l, id), id)
            && Sleepers(TakeEvent(TakeGeneric(s.l, id), id)) < Sleepers(s.l)
    ensures var t := Step(s, TimeOut);
            && t.l == TakeEvent(TakeGeneric(s.l, s.pc.id), s.pc.id) && t.pc == Woken(s.pc.id)
            && t.top == s.top && t.current == s.current && t.c == s.c && Untouched(s, t)
  {
    var id := s.pc.id;
    RemoveHeadShape(s.l.delayed, |s.l.priority|, false);
    assert OnePlace(s.l, s.pc, id) && EventPlace(s.l, s.pc, id);
    assert forall e: nat :: WaitsIn(TakeGeneric(s.l, id), id, e) <==> WaitsIn(s.l, id, e);
  }

  lemma WakeFacts(s: State)
    requires Inv(s) && s.pc.Woken?
    ensures s.pc.id < |s.l.priority| && !IsDelayed(s.l, s.pc.id)
    ensures forall p :: 0 <= p < |s.l.ready| ==> !Holds(s.l.ready[p], s.pc.id)
    ensures var t := Step(s, Wake);
            && t.l == ToReady(s.l, s.pc.id) && t.top == Raise(s.top, s.l.priority[s.pc.id]) && t.pc == Expiring
            && t.current == s.current && t.c == s.c && Untouched(s, t)
  {
    assert OnePlace(s.l, s.pc, s.pc.id);
  }

  /** The first co-routine on an event list. */
  ghost function Waiter(s: State, e: nat): nat {
    if e < |s.l.events| && s.l.events[e].entries != [] then s.l.events[e].entries[0].owner else 0
  }

  ghost function PriorityOf(s: State, id: nat): nat {
    if id < |s.l.priority| then s.l.priority[id] else 0
  }

  /** What interrupts leave as it is. */
  ghost predicate SameButEvents(s: State, t: State) {
    && t.pc == s.pc && t.top == s.top && t.current == s.current && t.c == s.c && t.cfg == s.cfg
    && t.l.ready == s.l.ready && t.l.delayed == s.l.delayed && t.l.overflow == s.l.overflow &&
      t.l.priority == s.l.priority
  }

  lemma SelectFacts(s: State)
    requires Inv(s) && s.pc == Selecting
    ensures s.top < |s.l.ready| && s.l.ready[s.top].cursor <= |s.l.ready[s.top].entries|
    ensures Step(s, Select) == DoSelect(s)
    ensures DoSelect(s).pc == Running ==> RunsHighest(DoSelect(s))
    ensures DoSelect(s).pc == Idle ==> NobodyReady(DoSelect(s).l)
  {
    SelectionIsHighest(s);
  }

  /** The co-routine selected is ready, and no ready one has a higher priority. */
  ghost predicate RunsHighest(s: State) {
    InReady(s.l, s.current) && forall id: nat :: InReady(s.l, id) ==> s.l.priority[id] <= s.l.priority[s.current]
  }

  ghost predicate NobodyReady(l: Lists) {
    forall id: nat :: !InReady(l, id)
  }

  lemma UnblockSummary(s: State, e: nat)
    requires Inv(s) && Enabled(s, Unblock(e))
    ensures var t := Step(s, Unblock(e));
            SameButEvents(s, t) && Untouched(s, t) && s.current < |s.l.priority| && t.l.priority == s.l.priority
    ensures e < |s.l.events| && s.l.events[e].entries != [] && Waiter(s, e) < |s.l.priority|
    ensures Holds(Step(s, Unblock(e)).l.pending, Waiter(s, e))
    ensures Step(s, Unblock(e)).h.signals == s.h.signals + 1
  {
    hide Inv, Sound, Step, TakeEvent, InsertEnd, WaitsSomewhere, OneEventPlace, Holds, EventValue;
    UnblockFacts(s, e);
    UnblockIsPending(s, e);
  }

  lemma UnblockIsPending(s: State, e: nat)
    requires Inv(s) && Enabled(s, Unblock(e))
    ensures var t := Step(s, Unblock(e)); Holds(t.l.pending, Waiter(s, e)) && t.h.signals == s.h.signals + 1
  {
    hide Step, InsertEnd, Holds, WaitsSomewhere;
    EventUnblocksHighest(s, e);
    LastIsHeld(Step(s, Unblock(e)).l.pending, s.l.pending.entries, s.l.events[e].entries[0]);
  }

  lemma LastIsHeld(v: ListView, entries: seq<Entry>, e: Entry)
    requires v.entries == entries + [e]
    ensures Holds(v, e.owner)
  {
    OwnerAt(v.entries, e.owner);
    assert v.entries[|entries|] == e;
  }

  lemma UnblockFacts(s: State, e: nat)
    requires Inv(s) && Enabled(s, Unblock(e))
    ensures s.current < |s.l.priority|
    ensures var id := s.l.events[e].entries[0].owner;
            && id < |s.l.priority| && OneEventPlace(s.l, id)
            && !WaitsSomewhere(TakeEvent(s.l, id), id) && !Holds(TakeEvent(s.l, id).pending, id)
            && TakeEvent(s.l, id).priority == s.l.priority
            && var t := Step(s, Unblock(e));
               && t.l ==
                 TakeEvent(s.l, id).(pending := InsertEnd(s.l.pending, Entry(id, EventValue(s.l.priority[id], s.cfg))))
               && TakeEvent(s.l, id).pending == s.l.pending
               && SameButEvents(s, t) && Untouched(s, t)
  {
    var id := s.l.events[e].entries[0].owner;
    RemoveHeadShape(s.l.events[e], |s.l.priority|, false);
    assert WaitsIn(s.l, id, e) && EventPlace(s.l, s.pc, id) && WaitsSomewhere(s.l, id);
    TakeEventShape(s.l, s.cfg, id);
    assert ByPriority(s.l.events[e].entries, s.l.priority, s.cfg);
  }

  /** The running co-routine can delay itself, if it has not done so in this run. */
  ghost predicate CanDelay(s: State, d: nat, event: Option<nat>) {
    && s.pc == Running && d < s.cfg.modulus && InReady(s.l, s.current)
    && (event.Some? ==> event.value < |s.l.events|)
  }

  lemma DelayIsStep(s: State, d: nat, event: Option<nat>)
    requires Inv(s) && CanDelay(s, d, event) && d > 0
    ensures Enabled(s, Delay(d, event))
    ensures var t := Step(s, Delay(d, event));
            && t == DoDelay(s, d, event)
            && t.top == s.top && t.current == s.current && t.c == s.c && t.pc == s.pc && Untouched(s, t)
  {
  }

  lemma DelayFacts(s: State, d: nat, event: Option<nat>)
    requires Inv(s) && CanDelay(s, d, event)
    ensures var id, time := s.current, WrapAdd(s.c.tick, d, s.cfg.modulus);
            && id < |s.l.priority| && InReady(s.l, id) && !IsDelayed(s.l, id) && time < s.cfg.modulus
            && var u := TakeGeneric(s.l, id);
            && (forall p :: 0 <= p < |u.ready| ==> !Holds(u.ready[p], id)) && !IsDelayed(u, id)
            && id < |u.wake|
            && var l := ToDelay(u, id, time, time < s.c.tick);
            && l.priority == s.l.priority && !WaitsSomewhere(l, id) && !Holds(l.pending, id)
            && s.cfg.eventLists == |l.events| && (event.Some? ==> event.value < |l.events|)
            && Sound(s)
            && DoDelay(s, d, event).l ==
               if event.Some? then ToEvent(l, id, event.value, EventValue(s.l.priority[id], s.cfg)) else l
  {
    var id := s.current;
    assert OnePlace(s.l, s.pc, id) && EventPlace(s.l, s.pc, id);
    TakeGenericShape(s.l, s.cfg, id);
    var u := TakeGeneric(s.l, id);
    forall p | 0 <= p < |u.ready|
      ensures !Holds(u.ready[p], id)
    {
      assert s.l.priority[id] != p ==> !Holds(s.l.ready[p], id);
    }
    var time := WrapAdd(s.c.tick, d, s.cfg.modulus);
    var l := ToDelay(u, id, time, time < s.c.tick);
    forall e: nat
      ensures !WaitsIn(l, id, e)
    {
      assert WaitsIn(l, id, e) <==> WaitsIn(s.l, id, e);
    }
  }

  lemma CreateFacts(s: State, priority: nat, junk: nat)
    requires Inv(s) && Enabled(s, Create(priority, junk))
    ensures var p, n := Clamp(priority, s.cfg), |s.l.priority|;
            && p < s.cfg.priorities && s.cfg.priorities > 0
            && p == (if priority >= s.cfg.priorities then s.cfg.priorities - 1 else priority)
            && var l := Allocate(s.l, p, junk);
            && |l.priority| == |l.wake| == n + 1 && l.priority[n] == p && |l.ready| == s.cfg.priorities
            && (forall q :: 0 <= q < |l.ready| ==> !Holds(l.ready[q], n)) && !IsDelayed(l, n)
            && l.ready[p].cursor <= |l.ready[p].entries|
            && var t := Step(s, Create(priority, junk));
            && t.l == ToReady(l, n) && t.top == Raise(s.top, p) && t.current == (if n == 0 then 0 else s.current)
            && t.c == s.c && t.pc == s.pc && Untouched(s, t)
  {
    AllocateShape(s.l, s.cfg, Clamp(priority, s.cfg), junk);
  }
}
