/**
  The co-routine scheduler of freertos/src/croutine.c as a state machine.  One action is one stretch
  of code that an interrupt cannot split as far as shared data goes; interrupts (`Unblock`, and the
  hardware tick) may come between any two actions of the scheduler.  The lists are the values that
  `KernelList` proves the pointer code to compute.
 */
module CoRoutines {
  import opened Wrappers
  import opened ListViews

  /** The number of values of a tick count, of priorities, and of event lists. */
  datatype Config = Config(modulus: nat, priorities: nat, eventLists: nat)

  ghost predicate ValidConfig(c: Config) {
    0 < c.priorities < c.modulus
  }

  /** Where the scheduler is. */
  datatype Pc =
    | Idle                // outside vCoRoutineSchedule
    | Pending             // at the loop test of prvCheckPendingReadyList
    | Popping             // found the pending list not empty
    | Unblocked(id: nat)  // took the event item off, interrupts are enabled again
    | Counting            // entered prvCheckDelayedList
    | Ticking             // at its outer loop test
    | Expiring            // at its inner loop test
    | Expired(id: nat)    // found the head timed out, not yet in the critical section
    | Woken(id: nat)      // left the critical section
    | Selecting           // at the loop test of the search for a ready list
    | Running             // in the co-routine function

  /** Control blocks, numbered in the order of their creation (uxPriority and the generic item's
      xItemValue), and all lists. */
  datatype Lists = Lists(priority: seq<nat>, wake: seq<nat>,
                         ready: seq<ListView>, delayed: ListView, overflow: ListView,
                         pending: ListView, events: seq<ListView>)

  /** xCoRoutineTickCount, xLastTickCount and xPassedTicks. */
  datatype Clock = Clock(tick: nat, last: nat, passed: nat)

  /** What a run has done so far; no action depends on it, but for `hardware`, whose residue is the
      tick count of the kernel.
      now: ticks processed;  base: ticks processed when the tick count was last 0;
      hardware: ticks that have passed;  read: hardware at the last read of the tick count;
      goal: what `now` will be when the ticks read then are processed;
      kept: every read came less than a full count after the ticks processed before it;
      due, stamp: per co-routine, the time and the number of its last delay;  delays: their number;
      signal: per co-routine, the number of the event that last unblocked it;  signals: their number;
      timeouts, readied: the timed out delays and the unblocked co-routines made ready, in order;
      overtaken: the events whose co-routines timed out before they were made ready. */
  datatype History = History(now: nat, base: nat, hardware: nat, read: nat, goal: nat, kept: bool,
                             due: seq<nat>, stamp: seq<nat>, delays: nat,
                             signal: seq<nat>, signals: nat,
                             timeouts: seq<Timeout>, readied: seq<nat>, overtaken: seq<nat>)

  datatype Timeout = Timeout(id: nat, due: nat, stamp: nat, at: nat)

  datatype State = State(cfg: Config, l: Lists, current: nat, top: nat, c: Clock, pc: Pc, h: History)

  datatype Action =
    | Create(priority: nat, junk: nat)   // xCoRoutineCreate; junk is what the fresh item value holds
    | Delay(ticks: nat, event: Option<nat>)  // vCoRoutineAddToDelayedList by the running co-routine
    | Return                             // the co-routine function returns
    | Call                               // vCoRoutineSchedule is called
    | CheckPending | PopPending | MovePending
    | ReadClock | Tick | CheckHead | TimeOut | Wake
    | Select
    | Unblock(list: nat)                 // xCoRoutineRemoveFromEventList, from an interrupt or the running co-routine
    | HardwareTick

  // ---------- arithmetic on the tick count ----------

  function WrapAdd(a: nat, b: nat, m: nat): nat {
    if a + b < m then a + b else if a + b - m < m then a + b - m else 0
  }

  function WrapSub(a: nat, b: nat, m: nat): nat {
    if a >= b then a - b else if a + m >= b then a + m - b else 0
  }

  // ---------- moving items between the lists ----------

  ghost predicate ListShape(v: ListView, n: nat, walked: bool) {
    && WellFormed(v) && (walked || v.cursor == 0)
    && (forall o :: o in Owners(v.entries) ==> o < n)
  }

  ghost predicate ListsShape(l: Lists, c: Config) {
    var n := |l.priority|;
    && |l.wake| == n && |l.ready| == c.priorities && |l.events| == c.eventLists
    && (forall id :: 0 <= id < n ==> l.priority[id] < c.priorities)
    && (forall id :: 0 <= id < n ==> l.wake[id] < c.modulus)
    && (forall p :: 0 <= p < |l.ready| ==> ListShape(l.ready[p], n, true))
    && (forall e :: 0 <= e < |l.events| ==> ListShape(l.events[e], n, false))
    && ListShape(l.delayed, n, false) && ListShape(l.overflow, n, false) && ListShape(l.pending, n, false)
  }

  ghost predicate InReady(l: Lists, id: nat) {
    id < |l.priority| && l.priority[id] < |l.ready| && Holds(l.ready[l.priority[id]], id)
  }

  ghost predicate IsDelayed(l: Lists, id: nat) {
    Holds(l.delayed, id) || Holds(l.overflow, id)
  }

  ghost predicate WaitsIn(l: Lists, id: nat, e: nat) {
    e < |l.events| && Holds(l.events[e], id)
  }

  ghost predicate WaitsSomewhere(l: Lists, id: nat) {
    exists e: nat :: WaitsIn(l, id, e)
  }

  /** The list insertion of prvAddCoRoutineToReadyQueue. */
  ghost function ToReady(l: Lists, id: nat): Lists
    requires id < |l.priority| == |l.wake| && l.priority[id] < |l.ready|
    requires l.ready[l.priority[id]].cursor <= |l.ready[l.priority[id]].entries|
  {
    var p := l.priority[id];
    l.(ready := l.ready[p := InsertEnd(l.ready[p], Entry(id, l.wake[id]))])
  }

  /** uxListRemove on the generic item, wherever its container is. */
  ghost function TakeGeneric(l: Lists, id: nat): Lists
    requires InReady(l, id) || IsDelayed(l, id)
  {
    if InReady(l, id) then l.(ready := l.ready[l.priority[id] := Remove(l.ready[l.priority[id]], id)])
    else if Holds(l.delayed, id) then l.(delayed := Remove(l.delayed, id))
    else l.(overflow := Remove(l.overflow, id))
  }

  /** uxListRemove on the event item if it is on a list. */
  ghost function TakeEvent(l: Lists, id: nat): Lists {
    if Holds(l.pending, id) then l.(pending := Remove(l.pending, id))
    else if WaitsSomewhere(l, id) then
      var e: nat :| WaitsIn(l, id, e);
      l.(events := l.events[e := Remove(l.events[e], id)])
    else l
  }

  /** The sorted insertion into the delay list, or the overflow list. */
  ghost function ToDelay(l: Lists, id: nat, time: nat, overflown: bool): Lists
    requires id < |l.wake|
  {
    var e := Entry(id, time);
    if overflown then l.(wake := l.wake[id := time], overflow := Insert(l.overflow, e))
    else l.(wake := l.wake[id := time], delayed := Insert(l.delayed, e))
  }

  /** Event lists are in priority order: the greater the priority, the smaller the value. */
  function EventValue(priority: nat, c: Config): nat {
    if priority < c.priorities then c.priorities - priority else 0
  }

  ghost function ToEvent(l: Lists, id: nat, e: nat, value: nat): Lists
    requires e < |l.events|
  {
    l.(events := l.events[e := Insert(l.events[e], Entry(id, value))])
  }

  ghost function PopPendingHead(l: Lists): Lists
    requires l.pending.entries != []
  {
    l.(pending := RemoveAt(l.pending, 0))
  }

  ghost function EventToPending(l: Lists, e: nat): Lists
    requires e < |l.events| && l.events[e].entries != [] && l.pending.cursor <= |l.pending.entries|
  {
    l.(events := l.events[e := RemoveAt(l.events[e], 0)], pending := InsertEnd(l.pending, l.events[e].entries[0]))
  }

  function Clamp(priority: nat, c: Config): nat {
    if priority >= c.priorities && c.priorities > 0 then c.priorities - 1 else priority
  }

  /** A new control block, on no list yet. */
  function Allocate(l: Lists, priority: nat, junk: nat): Lists {
    l.(priority := l.priority + [priority], wake := l.wake + [junk])
  }

  // ---------- who is where ----------

  /** The generic item is in exactly one of its own ready list, the delay list and the overflow list
      (or, between the critical section and the ready queue, in the scheduler's hand). */
  ghost predicate OnePlace(l: Lists, pc: Pc, id: nat) {
    (if InReady(l, id) then 1 else 0) + (if Holds(l.delayed, id) then 1 else 0)
    + (if Holds(l.overflow, id) then 1 else 0) + (if pc == Woken(id) then 1 else 0) == 1
  }

  /** The event item is in at most one event list or the pending list ... */
  ghost predicate OneEventPlace(l: Lists, id: nat) {
    && !(Holds(l.pending, id) && WaitsSomewhere(l, id))
    && (forall e: nat, f: nat :: WaitsIn(l, id, e) && WaitsIn(l, id, f) ==> e == f)
  }

  /** ... and then its co-routine is delayed, and not being moved to the ready queue already. */
  ghost predicate EventPlace(l: Lists, pc: Pc, id: nat) {
    && OneEventPlace(l, id)
    && (Holds(l.pending, id) || WaitsSomewhere(l, id) ==> IsDelayed(l, id) && pc != Unblocked(id))
  }

  ghost predicate Located(l: Lists, pc: Pc) {
    && (forall p, id :: 0 <= p < |l.ready| && 0 <= id < |l.priority| && Holds(l.ready[p], id) ==> l.priority[id] == p)
    && (forall id :: 0 <= id < |l.priority| ==> OnePlace(l, pc, id))
    && (forall id :: 0 <= id < |l.priority| ==> EventPlace(l, pc, id))
  }

  /** What the scheduler remembers between two stretches of code. */
  ghost predicate AtPc(s: State) {
    && (|s.l.priority| == 0 ==> s.pc == Idle)
    && (s.pc.Unblocked? || s.pc.Expired? || s.pc.Woken? ==> s.pc.id < |s.l.priority|)
    && (s.pc.Unblocked? ==> IsDelayed(s.l, s.pc.id))
    && (s.pc.Expired? ==> s.l.delayed.entries != [] && s.l.delayed.entries[0].owner == s.pc.id
                          && s.l.delayed.entries[0].value <= s.c.tick)
    && (s.pc == Popping ==> s.l.pending.entries != [])
  }

  ghost predicate CountersInRange(s: State) {
    var n := |s.l.priority|;
    && s.top < s.cfg.priorities && s.c.tick < s.cfg.modulus && s.c.last < s.cfg.modulus
    && (n > 0 ==> s.current < n)
    && |s.h.due| == |s.h.stamp| == |s.h.signal| == n
  }

  ghost predicate Sound(s: State) {
    ValidConfig(s.cfg) && ListsShape(s.l, s.cfg) && Located(s.l, s.pc) && CountersInRange(s) && AtPc(s)
  }

  // ---------- the actions ----------

  ghost predicate Enabled(s: State, a: Action) {
    match a
    case Create(_, junk) => (s.pc == Idle || s.pc == Running) && junk < s.cfg.modulus
    case Delay(d, event) =>
      && s.pc == Running && 0 < d < s.cfg.modulus && InReady(s.l, s.current)
      && (event.Some? ==> event.value < |s.l.events|)
    case Return => s.pc == Running
    case Call => s.pc == Idle
    case CheckPending => s.pc == Pending
    case PopPending => s.pc == Popping
    case MovePending => s.pc.Unblocked?
    case ReadClock => s.pc == Counting
    case Tick => s.pc == Ticking
    case CheckHead => s.pc == Expiring
    case TimeOut => s.pc.Expired?
    case Wake => s.pc.Woken?
    case Select => s.pc == Selecting
    case Unblock(e) => e < |s.l.events| && s.l.events[e].entries != []
    case HardwareTick => true
  }

  function Raise(top: nat, priority: nat): nat {
    if priority > top then priority else top
  }

  ghost function DoCreate(s: State, priority: nat, junk: nat): State
    requires Sound(s)
  {
    var id, p := |s.l.priority|, Clamp(priority, s.cfg);
    s.(l := ToReady(Allocate(s.l, p, junk), id), top := Raise(s.top, p),
       current := if id == 0 then id else s.current,
       h := s.h.(due := s.h.due + [0], stamp := s.h.stamp + [0], signal := s.h.signal + [0]))
  }

  /** The code takes any delay; its callers only ask for one of at least a tick (`Enabled`). */
  ghost function DoDelay(s: State, d: nat, event: Option<nat>): State
    requires Sound(s) && InReady(s.l, s.current)
    requires event.Some? ==> event.value < |s.l.events|
  {
    var id, time := s.current, WrapAdd(s.c.tick, d, s.cfg.modulus);
    var l := ToDelay(TakeGeneric(s.l, id), id, time, time < s.c.tick);
    s.(l := if event.Some? then ToEvent(l, id, event.value, EventValue(s.l.priority[id], s.cfg)) else l,
       h := s.h.(due := s.h.due[id := s.h.now + d], stamp := s.h.stamp[id := s.h.delays], delays := s.h.delays + 1))
  }

  ghost function DoMovePending(s: State): State
    requires Sound(s) && s.pc.Unblocked?
  {
    var id := s.pc.id;
    s.(l := ToReady(TakeGeneric(s.l, id), id), top := Raise(s.top, s.l.priority[id]), pc := Pending,
       h := s.h.(readied := s.h.readied + [s.h.signal[id]]))
  }

  ghost function DoReadClock(s: State): State
    requires Sound(s)
  {
    var passed := WrapSub(s.h.hardware % s.cfg.modulus, s.c.last, s.cfg.modulus);
    s.(c := s.c.(passed := passed), pc := Ticking,
       h := s.h.(read := s.h.hardware, goal := s.h.now + passed,
                 kept := s.h.kept && s.h.hardware < s.h.now + s.cfg.modulus))
  }

  ghost function DoTick(s: State): State {
    if s.c.passed == 0 then
      s.(c := s.c.(last := s.c.tick), pc := Selecting)
    else if s.c.tick + 1 == s.cfg.modulus then
      s.(l := s.l.(delayed := s.l.overflow, overflow := s.l.delayed),
         c := s.c.(tick := 0, passed := s.c.passed - 1), pc := Expiring,
         h := s.h.(now := s.h.now + 1, base := s.h.now + 1))
    else
      s.(c := s.c.(tick := s.c.tick + 1, passed := s.c.passed - 1), pc := Expiring,
         h := s.h.(now := s.h.now + 1))
  }

  ghost function DoCheckHead(s: State): State {
    if s.l.delayed.entries == [] || s.c.tick < s.l.delayed.entries[0].value then s.(pc := Ticking)
    else s.(pc := Expired(s.l.delayed.entries[0].owner))
  }

  ghost function DoTimeOut(s: State): State
    requires Sound(s) && s.pc.Expired? && IsDelayed(s.l, s.pc.id)
  {
    var id := s.pc.id;
    s.(l := TakeEvent(TakeGeneric(s.l, id), id), pc := Woken(id),
       h := s.h.(timeouts := s.h.timeouts + [Timeout(id, s.h.due[id], s.h.stamp[id], s.h.now)],
                 overtaken := if Holds(s.l.pending, id) then s.h.overtaken + [s.h.signal[id]] else s.h.overtaken))
  }

  ghost function DoWake(s: State): State
    requires Sound(s) && s.pc.Woken?
  {
    s.(l := ToReady(s.l, s.pc.id), top := Raise(s.top, s.l.priority[s.pc.id]), pc := Expiring)
  }

  ghost function DoSelect(s: State): State
    requires s.top < |s.l.ready| && s.l.ready[s.top].cursor <= |s.l.ready[s.top].entries|
  {
    if s.l.ready[s.top].entries == [] then
      if s.top == 0 then s.(pc := Idle) else s.(top := s.top - 1)
    else
      var v := Next(s.l.ready[s.top]);
      s.(l := s.l.(ready := s.l.ready[s.top := v]), current := Picked(v).owner, pc := Running)
  }

  ghost function DoUnblock(s: State, e: nat): State
    requires Sound(s) && e < |s.l.events| && s.l.events[e].entries != []
  {
    var id := s.l.events[e].entries[0].owner;
    s.(l := EventToPending(s.l, e),
       h := s.h.(signal := if id < |s.h.signal| then s.h.signal[id := s.h.signals] else s.h.signal,
                 signals := s.h.signals + 1))
  }

  /** The next state. */
  ghost function Step(s: State, a: Action): State
    requires Sound(s) && Enabled(s, a)
  {
    match a
    case Create(p, junk) => DoCreate(s, p, junk)
    case Delay(d, event) => DoDelay(s, d, event)
    case Return => s.(pc := Idle)
    case Call => if |s.l.priority| == 0 then s else s.(pc := Pending)
    case CheckPending => s.(pc := if s.l.pending.entries == [] then Counting else Popping)
    case PopPending => s.(l := PopPendingHead(s.l), pc := Unblocked(s.l.pending.entries[0].owner))
    case MovePending => DoMovePending(s)
    case ReadClock => DoReadClock(s)
    case Tick => DoTick(s)
    case CheckHead => DoCheckHead(s)
    case TimeOut => assert Holds(s.l.delayed, s.pc.id); DoTimeOut(s)
    case Wake => DoWake(s)
    case Select => DoSelect(s)
    case Unblock(e) => DoUnblock(s, e)
    case HardwareTick => s.(h := s.h.(hardware := s.h.hardware + 1))
  }

  /** The state before anything is created.  The tick counters are zero, whatever hardware time it is. */
  function Start(c: Config, hardware: nat): State {
    State(c, Lists([], [], seq(c.priorities, _ => EmptyView), EmptyView, EmptyView, EmptyView,
      seq(c.eventLists, _ => EmptyView)),
          0, 0, Clock(0, 0, 0), Idle, History(0, 0, hardware, 0, 0, true, [], [], 0, [], 0, [], [], []))
  }
}
