/**
  Modular time: the two delay lists and the wrapping tick count stand for true wake times, whatever
  wraps and however many ticks are missed between two calls of the scheduler.
 */
module CoRoutineTiming {
  import opened Wrappers
  import opened ListViews
  import opened CoRoutines
  import opened CoRoutinePlaces

  /** The part of the scheduler that works off the ticks it read. */
  predicate WorkingOff(pc: Pc) {
    pc == Ticking || pc == Expiring || pc.Expired? || pc.Woken?
  }

  /** The part that looks for time-outs at one tick. */
  predicate AtOneTick(pc: Pc) {
    pc == Expiring || pc.Expired? || pc.Woken?
  }

  /** Every entry's value is its wake time, counted from `origin`. */
  ghost predicate Timed(s: seq<Entry>, origin: nat, due: seq<nat>, m: nat) {
    forall i :: 0 <= i < |s| ==> s[i].owner < |due| && s[i].value < m && due[s[i].owner] == origin + s[i].value
  }

  ghost predicate AllFrom(s: seq<Entry>, least: nat) {
    forall i :: 0 <= i < |s| ==> least <= s[i].value
  }

  ghost predicate DelaysTimed(s: State) {
    && s.h.now == s.h.base + s.c.tick
    && Timed(s.l.delayed.entries, s.h.base, s.h.due, s.cfg.modulus)
    && Timed(s.l.overflow.entries, s.h.base + s.cfg.modulus, s.h.due, s.cfg.modulus)
    && AllFrom(s.l.delayed.entries, if AtOneTick(s.pc) then s.c.tick else s.c.tick + 1)
  }

  ghost predicate ClockKept(s: State) {
    && s.cfg.modulus > 0 && s.h.base % s.cfg.modulus == 0
    && s.h.read <= s.h.hardware
    && (if WorkingOff(s.pc)
        then s.h.now + s.c.passed == s.h.goal <= s.h.read && s.h.goal % s.cfg.modulus == s.h.read % s.cfg.modulus
             && (s.h.kept <==> s.h.goal == s.h.read)
        else s.c.last == s.c.tick && s.h.now <= s.h.read && s.h.now % s.cfg.modulus == s.h.read % s.cfg.modulus
             && (s.h.kept <==> s.h.now == s.h.read))
  }

  // ---------- the clock ----------

  lemma Multiples(x: int, y: int, m: nat)
    requires x < y
    ensures x * m + m <= y * m
  {
    assert y * m == x * m + (y - x - 1) * m + m;
  }

  lemma ModuloUnique(a: nat, q: nat, r: nat, m: nat)
    requires 0 < m && a == q * m + r && r < m
    ensures a % m == r
  {
    var q' := a / m;
    assert a == m * q' + a % m && m * q' == q' * m;
    if q > q' { Multiples(q', q, m); }
    if q < q' { Multiples(q, q', m); }
  }

  lemma ModuloOfSum(base: nat, x: nat, m: nat)
    requires 0 < m && base % m == 0 && x < m
    ensures (base + x) % m == x
    ensures (base + m) % m == 0
  {
    var k := base / m;
    assert base == m * k && m * k == k * m;
    ModuloUnique(base + x, k, x, m);
    ModuloUnique(base + m, k + 1, 0, m);
  }

  lemma NextTickCount(hardware: nat, m: nat)
    requires 0 < m
    ensures (hardware + 1) % m == if hardware % m + 1 == m then 0 else hardware % m + 1
  {
    var q, r := hardware / m, hardware % m;
    assert hardware == m * q + r && m * q == q * m;
    if r + 1 == m {
      assert (q + 1) * m == q * m + m;
      ModuloUnique(hardware + 1, q + 1, 0, m);
    } else {
      ModuloUnique(hardware + 1, q, r + 1, m);
    }
  }

  /** The subtraction of the tick counts finds the ticks that passed, up to whole turns of the count. */
  lemma TicksPassed(base: nat, tick: nat, hardware: nat, m: nat)
    requires 0 < m && base % m == 0 && tick < m && base + tick <= hardware
    ensures var goal := base + tick + WrapSub(hardware % m, tick, m);
            && goal <= hardware && goal % m == hardware % m
            && (hardware < base + tick + m <==> goal == hardware)
  {
    var k, q, r := base / m, hardware / m, hardware % m;
    assert base == m * k && m * k == k * m && hardware == m * q + r && m * q == q * m;
    Turns(k, q, m);
    var goal := base + tick + WrapSub(r, tick, m);
    if r >= tick {
      ModuloUnique(goal, k, r, m);
    } else {
      ModuloUnique(goal, k + 1, r, m);
    }
  }

  lemma Turns(k: nat, q: nat, m: nat)
    ensures q < k ==> q * m + m <= k * m
    ensures q > k ==> k * m + m <= q * m
    ensures q > k + 1 ==> k * m + m + m <= q * m
    ensures (k + 1) * m == k * m + m
  {
    if q < k { Multiples(q, k, m); }
    if q > k { Multiples(k, q, m); }
    if q > k + 1 { Multiples(k + 1, q, m); }
  }

  lemma ReadClockKept(s: State)
    requires Sound(s) && s.pc == Counting && s.h.now == s.h.base + s.c.tick && ClockKept(s)
    ensures ClockKept(DoReadClock(s))
  {
    TicksPassed(s.h.base, s.c.tick, s.h.hardware, s.cfg.modulus);
    if !s.h.kept { WholeTurnBehind(s.h.now, s.h.read, s.cfg.modulus); }
  }

  /** Times that differ and show the same count are a whole turn apart. */
  lemma WholeTurnBehind(now: nat, read: nat, m: nat)
    requires 0 < m && now < read && now % m == read % m
    ensures now + m <= read
  {
    var k, q := now / m, read / m;
    assert now == m * k + now % m && read == m * q + read % m && m * k == k * m && m * q == q * m;
    Turns(k, q, m);
    Turns(q, k, m);
  }

  lemma TickKept(s: State)
    requires Sound(s) && s.pc == Ticking && s.h.now == s.h.base + s.c.tick && ClockKept(s)
    ensures ClockKept(DoTick(s)) && DoTick(s).h.now == DoTick(s).h.base + DoTick(s).c.tick
  {
    ModuloOfSum(s.h.base, s.c.tick, s.cfg.modulus);
  }

  lemma StepKeepsClock(s: State, a: Action)
    requires Sound(s) && Enabled(s, a) && ClockKept(s) && s.h.now == s.h.base + s.c.tick
    ensures ClockKept(Step(s, a)) && Step(s, a).h.now == Step(s, a).h.base + Step(s, a).c.tick
  {
    match a
    case ReadClock => ReadClockKept(s);
    case Tick => TickKept(s);
    case _ => OthersKeepClock(s, a);
  }

  lemma OthersKeepClock(s: State, a: Action)
    requires Sound(s) && Enabled(s, a) && ClockKept(s) && s.h.now == s.h.base + s.c.tick
    requires a != ReadClock && a != Tick
    ensures ClockKept(Step(s, a)) && Step(s, a).h.now == Step(s, a).h.base + Step(s, a).c.tick
  {
    hide ListsShape, Located, AtPc, TakeEvent, TakeGeneric, ToDelay, ToReady, ToEvent;
  }

  // ---------- the delay lists ----------

  lemma TimedAfterRemoval(s: seq<Entry>, k: nat, origin: nat, due: seq<nat>, m: nat, least: nat)
    requires k < |s| && Timed(s, origin, due, m) && AllFrom(s, least)
    ensures Timed(s[..k] + s[k+1..], origin, due, m) && AllFrom(s[..k] + s[k+1..], least)
  {
  }

  lemma TimedAfterInsertion(s: seq<Entry>, k: nat, e: Entry, origin: nat, due: seq<nat>, time: nat, m: nat, least: nat)
    requires k <= |s| && Timed(s, origin, due, m) && AllFrom(s, least)
    requires e.owner !in Owners(s) && e.owner < |due| && e.value < m && time == origin + e.value && least <= e.value
    ensures Timed(s[..k] + [e] + s[k..], origin, due[e.owner := time], m) && AllFrom(s[..k] + [e] + s[k..], least)
  {
    OwnerAt(s, e.owner);
    Spliced(s, k, e);
  }

  lemma TimedForOthers(s: seq<Entry>, origin: nat, due: seq<nat>, id: nat, time: nat, m: nat)
    requires Timed(s, origin, due, m) && id !in Owners(s) && id < |due|
    ensures Timed(s, origin, due[id := time], m)
  {
    OwnerAt(s, id);
  }

  lemma DelayLists(s: State, d: nat, event: Option<nat>)
    requires Sound(s) && s.pc == Running && InReady(s.l, s.current) && (event.Some? ==> event.value < |s.l.events|)
    ensures !IsDelayed(s.l, s.current)
    ensures var l, time := DoDelay(s, d, event).l, WrapAdd(s.c.tick, d, s.cfg.modulus);
            && l.delayed == (if time < s.c.tick then s.l.delayed else Insert(s.l.delayed, Entry(s.current, time)))
            && l.overflow == (if time < s.c.tick then Insert(s.l.overflow, Entry(s.current, time)) else s.l.overflow)
  {
    assert OnePlace(s.l, s.pc, s.current);
  }

  /** A delay of at least a tick and less than a full count goes to the list that stands for its wake time. */
  lemma DelayKeepsTiming(s: State, d: nat, event: Option<nat>)
    requires Sound(s) && Enabled(s, Delay(d, event)) && DelaysTimed(s)
    ensures DelaysTimed(DoDelay(s, d, event))
  {
    hide Timed, Owners, SortedPlace, WellFormed;
    var id, m, time := s.current, s.cfg.modulus, WrapAdd(s.c.tick, d, s.cfg.modulus);
    DelayLists(s, d, event);
    var e, due := Entry(id, time), s.h.now + d;
    if time < s.c.tick {
      TimedAfterInsertion(s.l.overflow.entries, SortedPlace(s.l.overflow.entries, time), e,
        s.h.base + m, s.h.due, due, m, 0);
      TimedForOthers(s.l.delayed.entries, s.h.base, s.h.due, id, due, m);
    } else {
      TimedAfterInsertion(s.l.delayed.entries, SortedPlace(s.l.delayed.entries, time), e, s.h.base, s.h.due, due, m,
        s.c.tick + 1);
      TimedForOthers(s.l.overflow.entries, s.h.base + m, s.h.due, id, due, m);
    }
  }

  lemma TakingKeepsTiming(s: State, id: nat, t: State)
    requires Sound(s) && IsDelayed(s.l, id) && DelaysTimed(s)
    requires t.l.delayed == TakeGeneric(s.l, id).delayed && t.l.overflow == TakeGeneric(s.l, id).overflow
    requires t.cfg == s.cfg && t.c == s.c && t.h.now == s.h.now && t.h.base == s.h.base && t.h.due == s.h.due
    requires AtOneTick(t.pc) <==> AtOneTick(s.pc)
    ensures DelaysTimed(t)
  {
    hide Timed, AllFrom;
    var m := s.cfg.modulus;
    assert id < |s.l.priority| && OnePlace(s.l, s.pc, id);
    if Holds(s.l.delayed, id) {
      TimedAfterRemoval(s.l.delayed.entries, IndexOf(s.l.delayed.entries, id), s.h.base, s.h.due, m,
                        if AtOneTick(s.pc) then s.c.tick else s.c.tick + 1);
    } else {
      TimedAfterRemoval(s.l.overflow.entries, IndexOf(s.l.overflow.entries, id), s.h.base + m, s.h.due, m, 0);
    }
  }

  /** When the tick count wraps, the current delay list is empty: the check the comment at the swap asks for. */
  lemma EmptyAtSwap(s: State)
    requires Sound(s) && DelaysTimed(s) && s.pc == Ticking && s.c.tick + 1 == s.cfg.modulus
    ensures s.l.delayed.entries == []
  {
    SomeValueBetween(s.l.delayed.entries, s.c.tick + 1, s.h.base, s.h.due, s.cfg.modulus);
  }

  lemma SomeValueBetween(s: seq<Entry>, least: nat, origin: nat, due: seq<nat>, m: nat)
    requires Timed(s, origin, due, m) && AllFrom(s, least)
    ensures s == [] || least < m
  {
    if s != [] { assert least <= s[0].value; }
  }

  lemma TickKeepsTiming(s: State)
    requires Sound(s) && s.pc == Ticking && DelaysTimed(s)
    ensures DelaysTimed(DoTick(s))
  {
    if s.c.tick + 1 == s.cfg.modulus { EmptyAtSwap(s); }
  }

  /** Once the head of the list is not due, nothing in the list is: the lists are sorted. */
  lemma CheckHeadKeepsTiming(s: State)
    requires Sound(s) && s.pc == Expiring && DelaysTimed(s) && Sorted(s.l.delayed.entries)
    ensures DelaysTimed(DoCheckHead(s))
  {
    var es := s.l.delayed.entries;
    assert es != [] ==> forall i :: 0 <= i < |es| ==> es[0].value <= es[i].value;
  }

  lemma CreateKeepsTiming(s: State, p: nat, junk: nat)
    requires Sound(s) && Enabled(s, Create(p, junk)) && DelaysTimed(s)
    ensures DelaysTimed(DoCreate(s, p, junk))
  {
  }

  lemma StepKeepsTiming(s: State, a: Action)
    requires Sound(s) && Enabled(s, a) && DelaysTimed(s) && Sorted(s.l.delayed.entries)
    ensures DelaysTimed(Step(s, a))
  {
    match a
    case Create(p, junk) => CreateKeepsTiming(s, p, junk);
    case Delay(d, event) => DelayKeepsTiming(s, d, event);
    case MovePending => TakingKeepsTiming(s, s.pc.id, DoMovePending(s));
    case TimeOut =>
      RemoveHeadShape(s.l.delayed, |s.l.priority|, false);
      TakingKeepsTiming(s, s.pc.id, DoTimeOut(s));
    case Tick => TickKeepsTiming(s);
    case CheckHead => CheckHeadKeepsTiming(s);
    case _ => OthersKeepTiming(s, a);
  }

  lemma OthersKeepTiming(s: State, a: Action)
    requires Sound(s) && Enabled(s, a) && DelaysTimed(s)
    requires !a.Create? && !a.Delay? && !a.MovePending? && !a.TimeOut? && !a.Tick? && !a.CheckHead?
    ensures DelaysTimed(Step(s, a))
  {
  }

  /** The callers' guard is exactly what is needed: a delay of no ticks is the one delay below a full
      count after which the lists no longer stand for the wake times ... */
  lemma OnlyZeroDelayBreaksTiming(s: State, d: nat, event: Option<nat>)
    requires Sound(s) && DelaysTimed(s) && s.pc == Running && InReady(s.l, s.current)
    requires event.Some? ==> event.value < |s.l.events|
    requires d < s.cfg.modulus
    ensures DelaysTimed(DoDelay(s, d, event)) <==> d > 0
  {
    if d > 0 {
      DelayKeepsTiming(s, d, event);
    } else {
      var id, l := s.current, DoDelay(s, 0, event).l;
      var k := SortedPlace(s.l.delayed.entries, s.c.tick);
      assert OnePlace(s.l, s.pc, id);
      assert l.delayed.entries[k] == Entry(id, s.c.tick);
    }
  }

  /** The co-routine returns, and the scheduler, called again, works off a tick. */
  ghost function ReturnAndTick(s: State): State
    requires Sound(s) && s.pc == Running && s.l.pending.entries == [] && |s.l.priority| > 0
  {
    var returned := s.(pc := Idle);
    QuietActionKeeps(s, Return);
    QuietActionKeeps(returned, Call);
    var called := Step(returned, Call);
    QuietActionKeeps(called, CheckPending);
    var checked := Step(called, CheckPending);
    QuietActionKeeps(checked, ReadClock);
    Step(Step(checked, ReadClock), Tick)
  }

  /** ... and at the last tick of the count such a delay survives the swap on the wrong list: once the
      co-routine has returned and the next tick is worked off, it is on the overflow list, and sleeps
      through a whole further turn of the count. */
  lemma ZeroDelayAtLastTickIsLost(s: State)
    requires Sound(s) && DelaysTimed(s) && ClockKept(s) && s.pc == Running && InReady(s.l, s.current)
    requires s.c.tick + 1 == s.cfg.modulus && s.h.hardware % s.cfg.modulus != s.c.tick && s.l.pending.entries == []
    ensures Sound(DoDelay(s, 0, None))
    ensures var t := ReturnAndTick(DoDelay(s, 0, None));
            t.c.tick == 0 && t.pc == Expiring && Holds(t.l.overflow, s.current) && !Holds(t.l.delayed, s.current)
  {
    DelayMoves(s, 0, None);
    DelayKeeps(s, 0, None);
    var d := DoDelay(s, 0, None);
    var k := SortedPlace(s.l.delayed.entries, s.c.tick);
    assert OnePlace(s.l, s.pc, s.current);
    assert d.l.delayed.entries[k] == Entry(s.current, s.c.tick);
    PlaceIsUnique(d.l.delayed.entries, k);
    assert OnePlace(d.l, Running, s.current);
    TicksPassed(s.h.base, s.c.tick, s.h.hardware, s.cfg.modulus);
  }
}
