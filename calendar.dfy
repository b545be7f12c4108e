/** The proleptic Gregorian calendar behind PHP's DateTime, as far as
    QDateTime uses it: a wall-clock moment, setDate()/setTime() with their
    overflow into neighbouring months and days, the Unix timestamp, and the
    fields format() prints. Time zones are not modelled: a moment is read
    as UTC. */
module Calendar {
  import opened Php

  /** A normalized date and time of day. */
  datatype Moment = Moment(year: int, month: int, day: int, hour: int, minute: int, second: int)

  predicate IsLeap(y: int)
  {
    y % 4 == 0 && (y % 100 != 0 || y % 400 == 0)
  }

  function DaysInMonth(y: int, m: int): (r: int)
    requires 1 <= m <= 12
    ensures 28 <= r <= 31
  {
    if m == 2 then (if IsLeap(y) then 29 else 28)
    else if m == 4 || m == 6 || m == 9 || m == 11 then 30
    else 31
  }

  predicate ValidDate(y: int, m: int, d: int)
  {
    1 <= m <= 12 && 1 <= d <= DaysInMonth(y, m)
  }

  predicate Valid(t: Moment)
  {
    ValidDate(t.year, t.month, t.day) && 0 <= t.hour < 24 && 0 <= t.minute < 60 && 0 <= t.second < 60
  }

  function NextMonth(y: int, m: int): (r: (int, int))
    requires 1 <= m <= 12
    ensures 1 <= r.1 <= 12
  {
    if m == 12 then (y + 1, 1) else (y, m + 1)
  }

  function PrevMonth(y: int, m: int): (r: (int, int))
    requires 1 <= m <= 12
    ensures 1 <= r.1 <= 12
  {
    if m == 1 then (y - 1, 12) else (y, m - 1)
  }

  /** A day number counted from the first of month m, carried into the
      following or preceding months until it fits. */
  function CarryDays(y: int, m: int, d: int): (r: (int, int, int))
    requires 1 <= m <= 12
    ensures ValidDate(r.0, r.1, r.2)
    decreases if d < 1 then 1 - d else 0, if d < 1 then 0 else d
  {
    if d < 1 then
      var p := PrevMonth(y, m);
      CarryDays(p.0, p.1, d + DaysInMonth(p.0, p.1))
    else if d > DaysInMonth(y, m) then
      var n := NextMonth(y, m);
      CarryDays(n.0, n.1, d - DaysInMonth(y, m))
    else (y, m, d)
  }

  /** DateTime::setDate(y, m, d): the month is carried into the year first,
      then the day into the months. */
  function SetDate(t: Moment, y: int, m: int, d: int): (r: Moment)
    ensures r.hour == t.hour && r.minute == t.minute && r.second == t.second
    ensures ValidDate(r.year, r.month, r.day)
    ensures ValidDate(y, m, d) ==> r.year == y && r.month == m && r.day == d
  {
    var c := CarryDays(y + (m - 1) / 12, (m - 1) % 12 + 1, d);
    Moment(c.0, c.1, c.2, t.hour, t.minute, t.second)
  }

  /** DateTime::setTime(h, i, s): whole days of overflow move the date. */
  function SetTime(t: Moment, h: int, i: int, s: int): (r: Moment)
    requires ValidDate(t.year, t.month, t.day)
    ensures Valid(r)
    ensures 0 <= h < 24 && 0 <= i < 60 && 0 <= s < 60 ==> r == Moment(t.year, t.month, t.day, h, i, s)
  {
    var total := h * 3600 + i * 60 + s;
    var days := total / 86400;
    var rest := total % 86400;
    var c := CarryDays(t.year, t.month, t.day + days);
    ClockParts(rest);
    ClockInRange(h, i, s);
    Moment(c.0, c.1, c.2, rest / 3600, rest % 3600 / 60, rest % 60)
  }

  lemma ClockParts(rest: int)
    requires 0 <= rest < 86400
    ensures 0 <= rest / 3600 < 24 && 0 <= rest % 3600 / 60 < 60 && 0 <= rest % 60 < 60
  {
  }

  /** A time of day already in range is its own number of seconds. */
  lemma ClockInRange(h: int, i: int, s: int)
    ensures 0 <= h < 24 && 0 <= i < 60 && 0 <= s < 60 ==>
      var total := h * 3600 + i * 60 + s;
      total / 86400 == 0 && total % 86400 / 3600 == h && total % 86400 % 3600 / 60 == i && total % 86400 % 60 == s
  {
    if 0 <= h < 24 && 0 <= i < 60 && 0 <= s < 60 {
      var total := TimeOfDay(h, i, s);
      DaySplit(0, total);
    }
  }

  /** The first day of month m carried forward by k - 1 days, when k fits
      in the month, is day k of that month. */
  lemma CarryDaysFits(y: int, m: int, d: int)
    requires ValidDate(y, m, d)
    ensures CarryDays(y, m, d) == (y, m, d)
  {
  }

  /** A day past the end of a month, by at most three days, lands in the
      next month. */
  lemma CarryDaysOver(y: int, m: int, d: int)
    requires 1 <= m <= 12 && DaysInMonth(y, m) < d <= 31
    ensures var n := NextMonth(y, m);
      CarryDays(y, m, d) == (n.0, n.1, d - DaysInMonth(y, m))
  {
    var n := NextMonth(y, m);
    assert ValidDate(n.0, n.1, d - DaysInMonth(y, m));
  }

  /** Day 0 of a month is the last day of the month before. */
  lemma CarryDaysZero(y: int, m: int)
    requires 1 <= m <= 12
    ensures var p := PrevMonth(y, m);
      CarryDays(y, m, 0) == (p.0, p.1, DaysInMonth(p.0, p.1))
  {
  }

  lemma PrevOfNext(y: int, m: int)
    requires 1 <= m <= 12
    ensures PrevMonth(NextMonth(y, m).0, NextMonth(y, m).1) == (y, m)
  {
  }

  // ---------------------------------------------------------------------
  // Day numbers and timestamps

  /** Leap years before year y, counted from year 1 (negative before it). */
  function LeapsBefore(y: int): int
  {
    (y - 1) / 4 - (y - 1) / 100 + (y - 1) / 400
  }

  /** Days from 1970-01-01 to the first of January of year y. */
  function DaysBeforeYear(y: int): int
  {
    365 * (y - 1970) + LeapsBefore(y) - LeapsBefore(1970)
  }

  function DaysBeforeMonth(y: int, m: int): int
    requires 1 <= m <= 12
  {
    (if m == 1 then 0 else if m == 2 then 31 else if m == 3 then 59 else if m == 4 then 90
     else if m == 5 then 120 else if m == 6 then 151 else if m == 7 then 181 else if m == 8 then 212
     else if m == 9 then 243 else if m == 10 then 273 else if m == 11 then 304 else 334)
    + (if IsLeap(y) && m > 2 then 1 else 0)
  }

  /** Days since 1970-01-01. */
  function DayNumber(t: Moment): int
    requires 1 <= t.month <= 12
  {
    DaysBeforeYear(t.year) + DaysBeforeMonth(t.year, t.month) + t.day - 1
  }

  /** format('U'): seconds since 1970-01-01 00:00:00. */
  function Timestamp(t: Moment): int
    requires 1 <= t.month <= 12
  {
    DayNumber(t) * 86400 + t.hour * 3600 + t.minute * 60 + t.second
  }

  /** 0 for Sunday through 6 for Saturday; 1970-01-01 was a Thursday. */
  function Weekday(t: Moment): (r: int)
    requires 1 <= t.month <= 12
    ensures 0 <= r < 7
  {
    (DayNumber(t) + 4) % 7
  }

  /** The timestamp of a moment's date at midnight: what is left of it once
      the time of day is nulled out. */
  lemma TimestampOfMidnight(t: Moment)
    requires Valid(t)
    ensures Timestamp(SetTime(t, 0, 0, 0)) == DayNumber(t) * 86400
  {
  }

  /** A later time on the same day has a larger timestamp; the date part
      moves it by whole days. */
  lemma TimestampSplit(t: Moment)
    requires Valid(t)
    ensures 0 <= Timestamp(t) - DayNumber(t) * 86400 < 86400
  {
  }

  /** Days from 1970-01-01 to the first of month m of year y. */
  function MonthStart(y: int, m: int): int
    requires 1 <= m <= 12
  {
    DaysBeforeYear(y) + DaysBeforeMonth(y, m)
  }

  lemma LeapStep(y: int)
    ensures LeapsBefore(y + 1) - LeapsBefore(y) == if IsLeap(y) then 1 else 0
  {
    FourStep(y);
    CenturyStep(y);
    FourCenturyStep(y);
  }

  /** Each of the quotients LeapsBefore counts goes up by one exactly at
      the multiples of its divisor. */
  lemma FourStep(y: int)
    ensures y / 4 - (y - 1) / 4 == if y % 4 == 0 then 1 else 0
  {
  }

  lemma CenturyStep(y: int)
    ensures y / 100 - (y - 1) / 100 == if y % 100 == 0 then 1 else 0
  {
  }

  lemma FourCenturyStep(y: int)
    ensures y / 400 - (y - 1) / 400 == if y % 400 == 0 then 1 else 0
  {
  }

  /** Each month starts where the one before it ends. */
  lemma NextMonthStart(y: int, m: int)
    requires 1 <= m <= 12
    ensures var n := NextMonth(y, m); MonthStart(n.0, n.1) == MonthStart(y, m) + DaysInMonth(y, m)
  {
    if m == 12 {
      LeapStep(y);
    }
  }

  /** Carrying days between months never changes which day is meant. */
  lemma {:induction false} CarryDaysKeepsDay(y: int, m: int, d: int)
    requires 1 <= m <= 12
    ensures var r := CarryDays(y, m, d); MonthStart(r.0, r.1) + r.2 == MonthStart(y, m) + d
    decreases if d < 1 then 1 - d else 0, if d < 1 then 0 else d
  {
    if d < 1 {
      var p := PrevMonth(y, m);
      NextOfPrev(y, m);
      NextMonthStart(p.0, p.1);
      CarryDaysKeepsDay(p.0, p.1, d + DaysInMonth(p.0, p.1));
      assert CarryDays(y, m, d) == CarryDays(p.0, p.1, d + DaysInMonth(p.0, p.1));
    } else if d > DaysInMonth(y, m) {
      var n := NextMonth(y, m);
      NextMonthStart(y, m);
      CarryDaysKeepsDay(n.0, n.1, d - DaysInMonth(y, m));
      assert CarryDays(y, m, d) == CarryDays(n.0, n.1, d - DaysInMonth(y, m));
    }
  }

  lemma NextOfPrev(y: int, m: int)
    requires 1 <= m <= 12
    ensures NextMonth(PrevMonth(y, m).0, PrevMonth(y, m).1) == (y, m)
  {
  }

  /** setDate() lands on the day counted from the first of the carried
      month, whatever the overflow. */
  lemma SetDateDay(t: Moment, y: int, m: int, d: int)
    ensures DayNumber(SetDate(t, y, m, d)) == MonthStart(y + (m - 1) / 12, (m - 1) % 12 + 1) + d - 1
  {
    CarryDaysKeepsDay(y + (m - 1) / 12, (m - 1) % 12 + 1, d);
  }

  /** setDate() with the year and month kept moves the day number by the
      change of day. */
  lemma SetDayShift(t: Moment, d: int)
    requires 1 <= t.month <= 12
    ensures DayNumber(SetDate(t, t.year, t.month, d)) == DayNumber(t) + d - t.day
  {
    assert (t.month - 1) / 12 == 0 && (t.month - 1) % 12 + 1 == t.month;
    SetDateDay(t, t.year, t.month, d);
  }

  /** The month n months on from (y, m), as setDate() normalises it. */
  function MonthsOn(y: int, m: int, n: int): (r: (int, int))
    ensures 1 <= r.1 <= 12
  {
    (y + (m + n - 1) / 12, (m + n - 1) % 12 + 1)
  }

  /** setDate() with the month moved by n lands in the month n months on,
      on the same day when that month has it, and otherwise runs over into
      the month after. */
  lemma SetMonthShift(t: Moment, n: int)
    requires Valid(t)
    ensures var g := MonthsOn(t.year, t.month, n); var r := SetDate(t, t.year, t.month + n, t.day);
      && (t.day <= DaysInMonth(g.0, g.1) ==> r.year == g.0 && r.month == g.1 && r.day == t.day)
      && (t.day > DaysInMonth(g.0, g.1) ==>
            var x := NextMonth(g.0, g.1); r.year == x.0 && r.month == x.1 && r.day == t.day - DaysInMonth(g.0, g.1))
  {
    var g := MonthsOn(t.year, t.month, n);
    if t.day > DaysInMonth(g.0, g.1) {
      CarryDaysOver(g.0, g.1, t.day);
    }
  }

  /** setDate() with day 0 is the last day of the month before. */
  lemma SetDayZero(t: Moment)
    requires 1 <= t.month <= 12
    ensures var p := PrevMonth(t.year, t.month); var r := SetDate(t, t.year, t.month, 0);
      r.year == p.0 && r.month == p.1 && r.day == DaysInMonth(p.0, p.1)
  {
    assert (t.month - 1) / 12 == 0 && (t.month - 1) % 12 + 1 == t.month;
    CarryDaysZero(t.year, t.month);
  }

  /** setTime() is midnight of the date plus the given seconds, whatever
      the overflow. */
  lemma SetTimeTimestamp(t: Moment, h: int, i: int, s: int)
    requires ValidDate(t.year, t.month, t.day)
    ensures Timestamp(SetTime(t, h, i, s)) == DayNumber(t) * 86400 + h * 3600 + i * 60 + s
  {
    var total := h * 3600 + i * 60 + s;
    CarryDaysKeepsDay(t.year, t.month, t.day + total / 86400);
    SecondsOfDay(total % 86400);
  }

  lemma SecondsOfDay(rest: int)
    requires 0 <= rest < 86400
    ensures rest == rest / 3600 * 3600 + rest % 3600 / 60 * 60 + rest % 60
  {
  }

  /** date('Y-m-d H:i:s', n), read in UTC: n seconds after
      1970-01-01 00:00:00. */
  function FromTimestamp(n: int): (r: Moment)
    ensures Valid(r)
  {
    var c := CarryDays(1970, 1, 1 + n / 86400);
    var rest := n % 86400;
    Moment(c.0, c.1, c.2, rest / 3600, rest % 3600 / 60, rest % 60)
  }

  /** A timestamp converted to a moment and back is unchanged. */
  lemma TimestampRoundTrip(n: int)
    ensures Timestamp(FromTimestamp(n)) == n
  {
    assert MonthStart(1970, 1) == 0;
    CarryDaysKeepsDay(1970, 1, 1 + n / 86400);
    SecondsOfDay(n % 86400);
  }

  /** Timestamp 0 is 1970-01-01 00:00:00. */
  lemma EpochMoment()
    ensures FromTimestamp(0) == Moment(1970, 1, 1, 0, 0, 0)
  {
    assert CarryDays(1970, 1, 1) == (1970, 1, 1);
  }

  lemma {:induction false} YearsOrdered(a: int, b: int)
    requires a <= b
    ensures DaysBeforeYear(a) <= DaysBeforeYear(b)
    decreases b - a
  {
    if a < b {
      LeapStep(a);
      YearsOrdered(a + 1, b);
    }
  }

  /** Every month of year y ends by the start of year y + 1. */
  lemma MonthInYear(y: int, m: int)
    requires 1 <= m <= 12
    ensures DaysBeforeMonth(y, m) + DaysInMonth(y, m) <= DaysBeforeYear(y + 1) - DaysBeforeYear(y)
  {
    LeapStep(y);
  }

  lemma MonthsOrdered(y: int, m1: int, m2: int)
    requires 1 <= m1 < m2 <= 12
    ensures DaysBeforeMonth(y, m1) + DaysInMonth(y, m1) <= DaysBeforeMonth(y, m2)
  {
  }

  /** A valid date comes before any date of a later year. */
  lemma EarlierYear(y1: int, m1: int, d1: int, y2: int, m2: int, d2: int)
    requires ValidDate(y1, m1, d1) && ValidDate(y2, m2, d2) && y1 < y2
    ensures MonthStart(y1, m1) + d1 < MonthStart(y2, m2) + d2
  {
    MonthInYear(y1, m1);
    YearsOrdered(y1 + 1, y2);
  }

  /** Different valid dates are different days. */
  lemma DateInjective(y1: int, m1: int, d1: int, y2: int, m2: int, d2: int)
    requires ValidDate(y1, m1, d1) && ValidDate(y2, m2, d2)
    requires MonthStart(y1, m1) + d1 == MonthStart(y2, m2) + d2
    ensures y1 == y2 && m1 == m2 && d1 == d2
  {
    if y1 < y2 {
      EarlierYear(y1, m1, d1, y2, m2, d2);
    } else if y2 < y1 {
      EarlierYear(y2, m2, d2, y1, m1, d1);
    } else if m1 < m2 {
      MonthsOrdered(y1, m1, m2);
    } else if m2 < m1 {
      MonthsOrdered(y1, m2, m1);
    }
  }

  /** Two moments on valid dates with the same day number are on the same
      date. */
  lemma DayNumberInjective(a: Moment, b: Moment)
    requires ValidDate(a.year, a.month, a.day) && ValidDate(b.year, b.month, b.day)
    requires DayNumber(a) == DayNumber(b)
    ensures a.year == b.year && a.month == b.month && a.day == b.day
  {
    DateInjective(a.year, a.month, a.day, b.year, b.month, b.day);
  }

  /** A valid moment converted to a timestamp and back is unchanged. */
  lemma MomentRoundTrip(t: Moment)
    requires Valid(t)
    ensures FromTimestamp(Timestamp(t)) == t
  {
    var r := FromTimestamp(Timestamp(t));
    RoundTripDate(t);
    RoundTripTime(t);
    MomentFields(r, t);
  }

  lemma RoundTripDate(t: Moment)
    requires Valid(t)
    ensures var r := FromTimestamp(Timestamp(t)); r.year == t.year && r.month == t.month && r.day == t.day
  {
    var dn := DayNumber(t);
    TimestampSplit(t);
    FromDaysAndSeconds(Timestamp(t), dn, Timestamp(t) - dn * 86400);
    EpochDateOf(t);
  }

  lemma RoundTripTime(t: Moment)
    requires Valid(t)
    ensures var r := FromTimestamp(Timestamp(t)); r.hour == t.hour && r.minute == t.minute && r.second == t.second
  {
    TimestampOfDay(t);
    FromDaysAndSeconds(Timestamp(t), DayNumber(t), TimeOfDay(t.hour, t.minute, t.second));
  }

  /** The day number of a valid date carries back to that date. */
  lemma EpochDateOf(t: Moment)
    requires Valid(t)
    ensures var c := CarryDays(1970, 1, 1 + DayNumber(t)); c.0 == t.year && c.1 == t.month && c.2 == t.day
  {
    var dn := DayNumber(t);
    EpochDate(dn);
    var c := CarryDays(1970, 1, 1 + dn);
    assert MonthStart(t.year, t.month) + t.day == 1 + dn;
    DateInjective(c.0, c.1, c.2, t.year, t.month, t.day);
  }

  lemma MomentFields(a: Moment, b: Moment)
    requires a.year == b.year && a.month == b.month && a.day == b.day
    requires a.hour == b.hour && a.minute == b.minute && a.second == b.second
    ensures a == b
  {
  }

  lemma TimestampOfDay(t: Moment)
    requires Valid(t)
    ensures Timestamp(t) == DayNumber(t) * 86400 + TimeOfDay(t.hour, t.minute, t.second)
  {
  }

  /** The moment of dn whole days and secs seconds after the epoch. */
  lemma FromDaysAndSeconds(n: int, dn: int, secs: int)
    requires 0 <= secs < 86400 && n == dn * 86400 + secs
    ensures var c := CarryDays(1970, 1, 1 + dn); var r := FromTimestamp(n);
      r.year == c.0 && r.month == c.1 && r.day == c.2
    ensures var r := FromTimestamp(n);
      r.hour == secs / 3600 && r.minute == secs % 3600 / 60 && r.second == secs % 60
  {
    DaySplit(dn, secs);
  }

  /** The seconds since midnight of a time of day; each part reads back. */
  function TimeOfDay(h: int, m: int, s: int): (r: int)
    requires 0 <= h < 24 && 0 <= m < 60 && 0 <= s < 60
    ensures 0 <= r < 86400
    ensures r / 3600 == h && r % 3600 / 60 == m && r % 60 == s
  {
    h * 3600 + m * 60 + s
  }

  lemma DaySplit(dn: int, secs: int)
    requires 0 <= secs < 86400
    ensures (dn * 86400 + secs) / 86400 == dn && (dn * 86400 + secs) % 86400 == secs
  {
  }

  /** The date dn days after 1970-01-01 is day dn + 1 counted from that
      year's January. */
  lemma EpochDate(dn: int)
    ensures var c := CarryDays(1970, 1, 1 + dn); MonthStart(c.0, c.1) + c.2 == 1 + dn
  {
    assert MonthStart(1970, 1) == 0;
    CarryDaysKeepsDay(1970, 1, 1 + dn);
  }

  /** Two valid moments with the same timestamp are the same moment. */
  lemma TimestampInjective(a: Moment, b: Moment)
    requires Valid(a) && Valid(b) && Timestamp(a) == Timestamp(b)
    ensures a == b
  {
    MomentRoundTrip(a);
    MomentRoundTrip(b);
  }

  // ---------------------------------------------------------------------
  // The fields format() prints

  /** Zeros added in front up to the given width. */
  function PadTo(width: nat, s: string): (r: string)
    ensures |r| >= width && |r| >= |s|
    decreases width - |s|
  {
    if |s| >= width then s else PadTo(width, "0" + s)
  }

  /** Two digits, with a leading zero below 10. */
  function Pad2(n: nat): string
  {
    PadTo(2, NatText(n))
  }

  /** 'Y': at least four digits, with '-' before the years BCE. */
  function YearText(y: int): string
  {
    if y < 0 then "-" + PadTo(4, NatText(-y)) else PadTo(4, NatText(y))
  }

  /** The hour on a 12-hour clock. */
  function Hour12(h: int): (r: int)
    requires 0 <= h < 24
    ensures 1 <= r <= 12
  {
    if h % 12 == 0 then 12 else h % 12
  }

  function MonthName(m: int): (r: string)
    requires 1 <= m <= 12
    ensures |r| >= 3
  {
    ["January", "February", "March", "April", "May", "June", "July", "August",
     "September", "October", "November", "December"][m - 1]
  }

  function DayName(w: int): (r: string)
    requires 0 <= w < 7
    ensures |r| >= 3
  {
    ["Sunday", "Monday", "Tuesday", "Wednesday", "Thursday", "Friday", "Saturday"][w]
  }

  /** The texts of the time zone: 'T' (abbreviation), 'e' (identifier) and
      'O' (offset). */
  datatype Zone = Zone(abbreviation: string, identifier: string, offset: string)

  /** DateTime::format() of one date or time character. */
  function FieldText(t: Moment, c: char): (r: string)
    requires Valid(t)
    ensures c == 'a' || c == 'A' ==> |r| == 2
  {
    match c
    case 'n' => NatText(t.month)
    case 'm' => Pad2(t.month)
    case 'M' => MonthName(t.month)[..3]
    case 'F' => MonthName(t.month)
    case 'j' => NatText(t.day)
    case 'd' => Pad2(t.day)
    case 'D' => DayName(Weekday(t))[..3]
    case 'l' => DayName(Weekday(t))
    case 'y' => Pad2(t.year % 100)
    case 'Y' => YearText(t.year)
    case 'g' => NatText(Hour12(t.hour))
    case 'h' => Pad2(Hour12(t.hour))
    case 'G' => NatText(t.hour)
    case 'H' => Pad2(t.hour)
    case 'i' => Pad2(t.minute)
    case 's' => Pad2(t.second)
    case 'U' => IntText(Timestamp(t))
    case 'a' => if t.hour < 12 then "am" else "pm"
    case 'A' => if t.hour < 12 then "AM" else "PM"
    case _ => [c]
  }

  /** DateTime::format() of one format character, for the characters
      qFormat uses. */
  function FormatChar(t: Moment, z: Zone, c: char): string
    requires Valid(t)
  {
    match c
    case 'T' => z.abbreviation
    case 'e' => z.identifier
    case 'O' => z.offset
    case _ => FieldText(t, c)
  }

  // ---------------------------------------------------------------------
  // (int) of the printed fields

  lemma {:induction false} LeadingZero(s: string)
    requires AllDigits(s)
    ensures AllDigits("0" + s) && DigitsValue("0" + s) == DigitsValue(s)
    decreases |s|
  {
    if s != [] {
      var z := "0" + s;
      assert z[..|z| - 1] == "0" + s[..|s| - 1];
      LeadingZero(s[..|s| - 1]);
    }
  }

  lemma {:induction false} PadToValue(width: nat, s: string)
    requires AllDigits(s) && s != []
    ensures AllDigits(PadTo(width, s)) && DigitsValue(PadTo(width, s)) == DigitsValue(s)
    decreases width - |s|
  {
    if |s| < width {
      LeadingZero(s);
      PadToValue(width, "0" + s);
    }
  }

  /** (int) of a zero-padded field reads the field back. */
  lemma PaddedReadsBack(width: nat, n: nat)
    requires n <= MaxInt
    ensures StringToInt(PadTo(width, NatText(n))) == n
  {
    PadToValue(width, NatText(n));
    NatTextValue(n);
    DigitsInt(PadTo(width, NatText(n)));
  }

  /** (int)format('Y') reads the year back. */
  lemma YearReadsBack(y: int)
    requires InIntRange(y)
    ensures StringToInt(YearText(y)) == y
  {
    if y < 0 {
      NegPaddedReadsBack(-y);
    } else {
      PaddedReadsBack(4, y);
    }
  }

  /** (int)format(c) of a two-digit field character reads the field. */
  lemma PaddedFieldReadsBack(t: Moment, c: char, n: nat)
    requires Valid(t)
    requires (c == 'm' && n == t.month) || (c == 'd' && n == t.day) || (c == 'H' && n == t.hour)
      || (c == 'i' && n == t.minute) || (c == 's' && n == t.second)
    ensures StringToInt(FieldText(t, c)) == n
  {
    assert FieldText(t, c) == Pad2(n);
    PaddedReadsBack(2, n);
  }

  /** (int)format('Y') reads the year. */
  lemma YearFieldReadsBack(t: Moment)
    requires Valid(t) && InIntRange(t.year)
    ensures StringToInt(FieldText(t, 'Y')) == t.year
  {
    assert FieldText(t, 'Y') == YearText(t.year);
    YearReadsBack(t.year);
  }

  /** (int)format('U') reads the timestamp. */
  lemma TimestampFieldReadsBack(t: Moment)
    requires Valid(t) && InIntRange(Timestamp(t))
    ensures StringToInt(FieldText(t, 'U')) == Timestamp(t)
  {
    assert FieldText(t, 'U') == IntText(Timestamp(t));
    IntTextRoundTrip(Timestamp(t));
  }

  lemma NegPaddedReadsBack(n: nat)
    requires 0 < n <= -MinInt
    ensures StringToInt("-" + PadTo(4, NatText(n))) == -(n as int)
  {
    var p := PadTo(4, NatText(n));
    PadToValue(4, NatText(n));
    NatTextValue(n);
    assert SkipLeadingSpace("-" + p) == "-" + p;
    NegDigitsValue(p);
    assert SignedPrefixValue("-" + p) == -(n as int);
  }
}
