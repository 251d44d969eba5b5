/**
  The 64-bit extension of the 10 kHz counters in bsp_sam9g20/core/CoreController.cpp: a 32-bit counter
  that wraps around is sampled once a day, and its overflows are counted.
 */
module Counter64 {

  const WRAP: nat := 0x1_0000_0000
  const DAY_IN_SECONDS: nat := 86400

  /** With calls at most this many seconds apart, updates are less than 2^32 ticks apart. */
  const MAX_PAUSE: nat := 343_000

  /** counterOverflows and last32bitCounterValue, or those of the idle counter. */
  datatype Counter = Counter(overflows: nat, last: nat)

  /** What a 32-bit counter shows after some number of ticks. */
  function Reading(ticks: nat): nat {
    ticks % WRAP
  }

  /** vGetCurrentTimerCounterValue: two 16-bit halves, of which an interrupt counts the upper one. */
  function FromHalves(timerOverflows: nat, timer: nat): nat
    requires timer < 0x1_0000
  {
    (timerOverflows % 0x1_0000) * 0x1_0000 + timer
  }

  lemma HalvesShowTheReading(ticks: nat)
    ensures FromHalves(ticks / 0x1_0000, ticks % 0x1_0000) == Reading(ticks) == ticks % 0x1_0000_0000
  {
    var high, low := ticks / 0x1_0000, ticks % 0x1_0000;
    var top, middle := high / 0x1_0000, high % 0x1_0000;
    assert ticks == top * WRAP + (middle * 0x1_0000 + low);
    RemainderIsUnique(ticks, top, middle * 0x1_0000 + low);
  }

  lemma RemainderIsUnique(n: nat, q: nat, r: nat)
    requires n == q * WRAP + r && r < WRAP
    ensures n / WRAP == q && n % WRAP == r
  {
  }

  /** counterOverflows is 32 bits wide, too. */
  function Updated(c: Counter, reading: nat): Counter {
    Counter(if reading < c.last then (c.overflows + 1) % WRAP else c.overflows, reading)
  }

  /** getTotalRunTimeCounter: the overflows in the upper half, the reading in the lower. */
  function Total(c: Counter, reading: nat): nat {
    c.overflows * WRAP + reading
  }

  /** The counter was last updated after this many ticks, and has counted all overflows until then. */
  ghost predicate UpToDate(c: Counter, ticks: nat) {
    c.last == Reading(ticks) && c.overflows == ticks / WRAP
  }

  lemma Later(before: nat, ticks: nat)
    requires before <= ticks
    ensures Reading(ticks) < Reading(before) ==> ticks / WRAP > before / WRAP
    ensures ticks - before < WRAP ==>
      ticks / WRAP == before / WRAP + (if Reading(ticks) < Reading(before) then 1 else 0)
    ensures ticks - before >= WRAP ==>
      ticks / WRAP > before / WRAP + (if Reading(ticks) < Reading(before) then 1 else 0)
  {
    var p, q := before / WRAP, ticks / WRAP;
    assert before == p * WRAP + Reading(before) && ticks == q * WRAP + Reading(ticks);
    assert Reading(before) < WRAP && Reading(ticks) < WRAP;
  }

  /** An update brings the counter up to date if and only if it comes less than 2^32 ticks after the one
      before; then the total is the true count. */
  lemma UpdateIsExactIff(c: Counter, before: nat, ticks: nat)
    requires UpToDate(c, before) && before <= ticks && ticks / WRAP < WRAP
    ensures UpToDate(Updated(c, Reading(ticks)), ticks) <==> ticks - before < 0x1_0000_0000
    ensures Total(Updated(c, Reading(ticks)), Reading(ticks)) == ticks <==> ticks - before < 0x1_0000_0000
  {
    Later(before, ticks);
    assert ticks == (ticks / WRAP) * WRAP + Reading(ticks);
    if Reading(ticks) < Reading(before) && ticks - before >= WRAP {
      assert c.overflows + 1 < WRAP;
    }
  }

  /** Between updates, the total is the true count until the 32-bit counter wraps around, and exactly
      2^32 too low from then on. */
  lemma BetweenUpdates(c: Counter, before: nat, ticks: nat)
    requires UpToDate(c, before) && before <= ticks < before + WRAP
    ensures var total := Total(c, Reading(ticks));
            && (total == ticks <==> Reading(ticks) >= c.last)
            && (total == ticks || total == ticks - 0x1_0000_0000)
  {
    Later(before, ticks);
    assert ticks == (ticks / WRAP) * WRAP + Reading(ticks);
  }

  // ---------- the code ----------

  class CoreController {
    var counterOverflows: nat
    var last32bitCounterValue: nat
    var idleCounterOverflows: nat
    var last32bitIdleCounterValue: nat
    var lastFastCounterUpdateSeconds: nat
    /** The ticks, idle ticks and seconds at the last update. */
    ghost var ticks: nat
    ghost var idleTicks: nat
    ghost var seconds: nat
    /** The seconds at the last periodic call. */
    ghost var called: nat

    ghost function Run(): Counter
      reads this
    {
      Counter(counterOverflows, last32bitCounterValue)
    }

    ghost function Idle(): Counter
      reads this
    {
      Counter(idleCounterOverflows, last32bitIdleCounterValue)
    }

    /** Both counters were up to date at the last update, which was less than a day before the last
        call. */
    ghost predicate Valid()
      reads this
    {
      && UpToDate(Run(), ticks) && UpToDate(Idle(), idleTicks)
      && lastFastCounterUpdateSeconds == seconds % WRAP
      && seconds <= called < seconds + DAY_IN_SECONDS
      && InStep(ticks, seconds)
    }

    constructor ()
      ensures Valid() && ticks == idleTicks == seconds == called == 0
    {
      counterOverflows, last32bitCounterValue, idleCounterOverflows, last32bitIdleCounterValue := 0, 0, 0, 0;
      lastFastCounterUpdateSeconds := 0;
      ticks, idleTicks, seconds, called := 0, 0, 0, 0;
    }

    method GetTotalRunTimeCounter(reading: nat) returns (total: nat)
      requires Valid() && reading < WRAP
      ensures total == Total(Run(), reading)
      ensures forall now :: ticks <= now < ticks + WRAP && reading == Reading(now) ==>
        total == now || total == now - WRAP
      ensures forall now :: ticks <= now < ticks + WRAP && reading == Reading(now) ==>
                (total == now <==> reading >= last32bitCounterValue)
    {
      total := counterOverflows * WRAP + reading;
      forall now | ticks <= now < ticks + WRAP && reading == Reading(now)
        ensures (total == now || total == now - WRAP) && (total == now <==> reading >= last32bitCounterValue)
      {
        BetweenUpdates(Run(), ticks, now);
      }
    }

    method Update64bit10kHzCounter(currentCounter: nat, currentIdleCounter: nat)
      modifies this`counterOverflows, this`idleCounterOverflows, this`last32bitCounterValue,
        this`last32bitIdleCounterValue
      ensures Run() == Updated(old(Run()), currentCounter) && Idle() == Updated(old(Idle()), currentIdleCounter)
    {
      if currentCounter < last32bitCounterValue {
        counterOverflows := (counterOverflows + 1) % WRAP;
      }
      if currentIdleCounter < last32bitIdleCounterValue {
        idleCounterOverflows := (idleCounterOverflows + 1) % WRAP;
      }
      last32bitCounterValue := currentCounter;
      last32bitIdleCounterValue := currentIdleCounter;
    }

    /** The daily trigger of performPeriodicTimeHandling, at any point in time: now, in seconds, with
        this many ticks and idle ticks.  Calls may be irregular, but not MAX_PAUSE seconds apart. */
    method PerformPeriodicTimeHandling(ghost now: nat, ghost nowTicks: nat, ghost nowIdle: nat,
                                       currentUptimeSeconds: nat, currentCounter: nat, currentIdleCounter: nat)
        returns (updated: bool)
      requires Valid() && called <= now <= called + 343_000
      requires InStep(nowTicks, now) && ticks <= nowTicks && nowTicks / WRAP < WRAP
      requires idleTicks <= nowIdle && nowIdle - idleTicks <= nowTicks - ticks && nowIdle <= nowTicks
      requires currentUptimeSeconds == now % WRAP && currentCounter == Reading(nowTicks) &&
        currentIdleCounter == Reading(nowIdle)
      modifies this
      ensures Valid() && called == now
      ensures updated <==> now - old(seconds) >= 24 * 60 * 60
      ensures updated ==> Total(Run(), currentCounter) == nowTicks && Total(Idle(), currentIdleCounter) == nowIdle
      ensures ticks == (if updated then nowTicks else old(ticks)) &&
        idleTicks == (if updated then nowIdle else old(idleTicks))
    {
      SecondsElapsed(seconds, now);
      FewTicks(ticks, seconds, nowTicks, now);
      updated := (currentUptimeSeconds + WRAP - lastFastCounterUpdateSeconds) % WRAP >= DAY_IN_SECONDS;
      if updated {
        IdleWithin(nowIdle, nowTicks);
        UpdateIsExactIff(Run(), ticks, nowTicks);
        UpdateIsExactIff(Idle(), idleTicks, nowIdle);
        Update64bit10kHzCounter(currentCounter, currentIdleCounter);
        lastFastCounterUpdateSeconds := currentUptimeSeconds;
        ticks, idleTicks, seconds := nowTicks, nowIdle, now;
      }
      called := now;
    }
  }

  /** The tick counter runs at 10 kHz: this many ticks belong to this second. */
  ghost predicate InStep(ticks: nat, seconds: nat) {
    10_000 * seconds <= ticks < 10_000 * (seconds + 1)
  }

  lemma SecondsElapsed(before: nat, now: nat)
    requires before <= now < before + WRAP
    ensures (now % WRAP + WRAP - before % WRAP) % WRAP == now - before
  {
    Later(before, now);
    var p, q := before / WRAP, now / WRAP;
    assert before == p * WRAP + before % WRAP && now == q * WRAP + now % WRAP;
  }

  lemma FewTicks(ticks: nat, seconds: nat, nowTicks: nat, now: nat)
    requires InStep(ticks, seconds) && InStep(nowTicks, now) && seconds <= now < seconds + DAY_IN_SECONDS + MAX_PAUSE
    ensures nowTicks < ticks + WRAP
  {
  }

  lemma IdleWithin(idle: nat, ticks: nat)
    requires idle <= ticks && ticks / WRAP < WRAP
    ensures idle / WRAP < WRAP
  {
  }
}
