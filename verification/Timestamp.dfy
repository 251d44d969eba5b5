/**
  The closed-form UNIX time stamp of bsp_sam9g20/utility/compile_time.h, against counting seconds from
  the first of January 1970 through the Gregorian calendar.
 */
module Timestamp {

  // ---------- the macros ----------

  const SEC_PER_MIN: nat := 60
  const SEC_PER_HOUR: nat := 3600
  const SEC_PER_DAY: nat := 86400
  const SEC_PER_YEAR: nat := 86400 * 365

  /** _UNIX_TIMESTAMP_FDAY */
  function FDay(year: nat): nat {
    if year % 400 == 0 then 29 else if year % 100 == 0 then 28 else if year % 4 == 0 then 29 else 28
  }

  /** _UNIX_TIMESTAMP_YDAY */
  function YDay(year: nat, month: nat, day: nat): nat {
    day
    + (if month >= 2 then 31 else 0)
    + (if month >= 3 then FDay(year) else 0)
    + (if month >= 4 then 31 else 0)
    + (if month >= 5 then 30 else 0)
    + (if month >= 6 then 31 else 0)
    + (if month >= 7 then 30 else 0)
    + (if month >= 8 then 31 else 0)
    + (if month >= 9 then 31 else 0)
    + (if month >= 10 then 30 else 0)
    + (if month >= 11 then 31 else 0)
    + (if month >= 12 then 30 else 0)
  }

  /** _UNIX_TIMESTAMP, on numbers of any size. */
  function UnixTimestamp(year: nat, month: nat, day: nat, hour: nat, minute: nat, second: nat): int
    requires year >= 1970
  {
    second
    + minute * SEC_PER_MIN
    + hour * SEC_PER_HOUR
    + (YDay(year, month, day) - 1) * SEC_PER_DAY
    + (year - 1970) * SEC_PER_YEAR
    + ((year - 1969) / 4) * SEC_PER_DAY
    - ((year - 1901) / 100) * SEC_PER_DAY
    + ((year - 1601) / 400) * SEC_PER_DAY
  }

  // ---------- the calendar ----------

  datatype Date = Date(year: nat, month: nat, day: nat)

  datatype Time = Time(date: Date, hour: nat, minute: nat, second: nat)

  /** Every fourth year, but of the centuries only every fourth. */
  predicate IsLeap(year: nat) {
    year % 4 == 0 && (year % 100 == 0 ==> year % 400 == 0)
  }

  function DaysInMonth(year: nat, month: nat): nat {
    if month == 2 then (if IsLeap(year) then 29 else 28)
    else if month in {4, 6, 9, 11} then 30
    else 31
  }

  predicate ValidDate(d: Date) {
    d.year >= 1970 && 1 <= d.month <= 12 && 1 <= d.day <= DaysInMonth(d.year, d.month)
  }

  predicate ValidTime(t: Time) {
    ValidDate(t.date) && t.hour < 24 && t.minute < 60 && t.second < 60
  }

  function NextDay(d: Date): Date {
    if d.day < DaysInMonth(d.year, d.month) then d.(day := d.day + 1)
    else if d.month < 12 then Date(d.year, d.month + 1, 1)
    else Date(d.year + 1, 1, 1)
  }

  function NextSecond(t: Time): Time {
    if t.second < 59 then t.(second := t.second + 1)
    else if t.minute < 59 then t.(second := 0, minute := t.minute + 1)
    else if t.hour < 23 then t.(second := 0, minute := 0, hour := t.hour + 1)
    else Time(NextDay(t.date), 0, 0, 0)
  }

  const EPOCH: Time := Time(Date(1970, 1, 1), 0, 0, 0)

  /** The time n seconds after the epoch, counted second by second. */
  function Counted(n: nat): Time {
    if n == 0 then EPOCH else NextSecond(Counted(n - 1))
  }

  function Stamp(t: Time): int
    requires t.date.year >= 1970
  {
    UnixTimestamp(t.date.year, t.date.month, t.date.day, t.hour, t.minute, t.second)
  }

  // ---------- the closed form counts ----------

  /** The days of the closed form. */
  function DayNumber(d: Date): int
    requires d.year >= 1970
  {
    YDay(d.year, d.month, d.day) - 1 + (d.year - 1970) * 365
    + (d.year - 1969) / 4 - (d.year - 1901) / 100 + (d.year - 1601) / 400
  }

  lemma StampOfDay(t: Time)
    requires t.date.year >= 1970
    ensures Stamp(t) == DayNumber(t.date) * SEC_PER_DAY + t.hour * SEC_PER_HOUR + t.minute * SEC_PER_MIN + t.second
  {
  }

  lemma EveryFourYears(year: nat)
    requires year >= 1970
    ensures (year - 1968) / 4 - (year - 1969) / 4 == if year % 4 == 0 then 1 else 0
  {
  }

  lemma EveryCentury(year: nat)
    requires year >= 1970
    ensures (year - 1900) / 100 - (year - 1901) / 100 == if year % 100 == 0 then 1 else 0
  {
  }

  lemma EveryFourCenturies(year: nat)
    requires year >= 1970
    ensures (year - 1600) / 400 - (year - 1601) / 400 == if year % 400 == 0 then 1 else 0
  {
  }

  lemma CenturiesDivide(year: nat)
    ensures year % 400 == 0 ==> year % 100 == 0
    ensures year % 100 == 0 ==> year % 4 == 0
  {
    var k, c := year / 400, year / 100;
    assert year % 400 == 0 ==> year == 100 * (4 * k);
    assert year % 100 == 0 ==> year == 4 * (25 * c);
  }

  lemma LeapDays(year: nat)
    requires year >= 1970
    ensures FDay(year) == if IsLeap(year) then 29 else 28
    ensures (year - 1968) / 4 - (year - 1969) / 4 == if year % 4 == 0 then 1 else 0
    ensures (year - 1900) / 100 - (year - 1901) / 100 == if year % 100 == 0 then 1 else 0
    ensures (year - 1600) / 400 - (year - 1601) / 400 == if year % 400 == 0 then 1 else 0
    ensures year % 400 == 0 ==> year % 100 == 0
    ensures year % 100 == 0 ==> year % 4 == 0
  {
    EveryFourYears(year);
    EveryCentury(year);
    EveryFourCenturies(year);
    CenturiesDivide(year);
  }

  lemma MonthsFollow(year: nat, month: nat)
    requires year >= 1970 && 1 <= month <= 12
    ensures month < 12 ==> YDay(year, month + 1, 1) == YDay(year, month, DaysInMonth(year, month)) + 1
    ensures YDay(year, 12, 31) == 337 + FDay(year) && YDay(year, 1, 1) == 1 && DaysInMonth(year, 12) == 31
    ensures forall day: nat :: YDay(year, month, day) == YDay(year, month, 0) + day
  {
    hide FDay, IsLeap;
    LeapDays(year);
  }

  lemma YearsFollow(year: nat)
    requires year >= 1970
    ensures DayNumber(Date(year + 1, 1, 1)) == DayNumber(Date(year, 12, 31)) + 1
  {
    hide YDay, FDay;
    LeapDays(year);
    MonthsFollow(year, 12);
    MonthsFollow(year + 1, 1);
  }

  /** The next day has the next number, at the end of a month, of a leap or common February, of a year,
      of a century, and of 400 years. */
  lemma NextDayIsOneMore(d: Date)
    requires ValidDate(d)
    ensures ValidDate(NextDay(d)) && DayNumber(NextDay(d)) == DayNumber(d) + 1
  {
    hide YDay, FDay, IsLeap;
    MonthsFollow(d.year, d.month);
    if d.month == 12 && d.day == 31 {
      YearsFollow(d.year);
    }
  }

  /** The next second has the next time stamp, across every boundary. */
  lemma NextSecondIsOneMore(t: Time)
    requires ValidTime(t)
    ensures ValidTime(NextSecond(t)) && Stamp(NextSecond(t)) == Stamp(t) + 1
  {
    hide DayNumber, Stamp, DaysInMonth, NextDay;
    StampOfDay(t);
    NextDayIsOneMore(t.date);
    StampOfDay(NextSecond(t));
  }

  /** The time stamp of what is n seconds after the epoch is n ... */
  lemma {:induction false} StampCounts(n: nat)
    ensures ValidTime(Counted(n)) && Stamp(Counted(n)) == n
  {
    hide UnixTimestamp;
    if n > 0 {
      StampCounts(n - 1);
      NextSecondIsOneMore(Counted(n - 1));
    } else {
      EpochIsZero();
    }
  }

  lemma EpochIsZero()
    ensures ValidTime(EPOCH) && Stamp(EPOCH) == 0
  {
  }

  function DayBefore(d: Date): Date
    requires ValidDate(d)
  {
    if d.day > 1 then d.(day := d.day - 1)
    else if d.month > 1 then Date(d.year, d.month - 1, DaysInMonth(d.year, d.month - 1))
    else Date(d.year - 1, 12, 31)
  }

  function SecondBefore(t: Time): Time
    requires ValidTime(t)
  {
    if t.second > 0 then t.(second := t.second - 1)
    else if t.minute > 0 then t.(second := 59, minute := t.minute - 1)
    else if t.hour > 0 then t.(second := 59, minute := 59, hour := t.hour - 1)
    else Time(DayBefore(t.date), 23, 59, 59)
  }

  lemma EveryTimeHasAPredecessor(t: Time)
    requires ValidTime(t) && t != EPOCH
    ensures ValidTime(SecondBefore(t)) && NextSecond(SecondBefore(t)) == t
  {
  }

  lemma DayNumberIsNatural(d: Date)
    requires ValidDate(d)
    ensures DayNumber(d) >= 0
  {
  }

  lemma StampIsNatural(t: Time)
    requires ValidTime(t)
    ensures Stamp(t) >= 0
  {
    hide DayNumber, Stamp;
    StampOfDay(t);
    DayNumberIsNatural(t.date);
  }

  /** ... and every time is as many seconds after the epoch as its time stamp says. */
  lemma {:induction false} EveryTimeIsCounted(t: Time)
    requires ValidTime(t)
    ensures Stamp(t) >= 0 && Counted(Stamp(t)) == t
    decreases Stamp(t)
  {
    hide UnixTimestamp;
    StampIsNatural(t);
    if t == EPOCH {
      EpochIsZero();
    } else {
      var p := SecondBefore(t);
      EveryTimeHasAPredecessor(t);
      NextSecondIsOneMore(p);
      StampIsNatural(p);
      EveryTimeIsCounted(p);
    }
  }

  /** So a later time has a greater time stamp, and different times have different ones. */
  lemma StampIsInjective(t: Time, u: Time)
    requires ValidTime(t) && ValidTime(u) && Stamp(t) == Stamp(u)
    ensures t == u
  {
    hide UnixTimestamp;
    EveryTimeIsCounted(t);
    EveryTimeIsCounted(u);
  }

  /** The last time whose time stamp fits the 32 bits of the target's unsigned long. */
  lemma LastTimeIn32Bits(t: Time)
    requires ValidTime(t) && Stamp(t) == 0xffff_ffff
    ensures t == Time(Date(2106, 2, 7), 6, 28, 15)
  {
    StampIsInjective(t, Time(Date(2106, 2, 7), 6, 28, 15));
  }
}
