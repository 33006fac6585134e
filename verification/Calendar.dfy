/**
 The clock's calendar: the closed formulas that turn a date into a day number and back, and
 the day-by-day stepping that the running clock uses. The two must agree.
 */
module Calendar {
  import opened Fs

  datatype DateTime = DateTime(second: nat, minute: nat, hour: nat, day: nat, month: nat, year: int)

  const ZEROED: DateTime := DateTime(0, 0, 0, 0, 0, 0)
  const DAY: nat := 86400
  const U16: nat := 0x1_0000

  // ---- the calendar, as the stepping functions define it ----

  predicate IsLeap(y: int) {
    (y % 4 == 0 && y % 100 != 0) || y % 400 == 0
  }

  function DaysInMonth(year: int, month: nat): (n: nat)
    ensures 28 <= n <= 31
  {
    match month
    case 1 => 31
    case 2 => if IsLeap(year) then 29 else 28
    case 3 => 31
    case 4 => 30
    case 5 => 31
    case 6 => 30
    case 7 => 31
    case 8 => 31
    case 9 => 30
    case 10 => 31
    case 11 => 30
    case 12 => 31
    case _ => 30
  }

  predicate ValidDate(d: DateTime) {
    1 <= d.month <= 12 && 1 <= d.day <= DaysInMonth(d.year, d.month)
  }

  predicate ValidTime(d: DateTime) {
    d.second < 60 && d.minute < 60 && d.hour < 24
  }

  function NextDay(d: DateTime): DateTime {
    if d.day >= DaysInMonth(d.year, d.month) then
      if d.month == 12 then d.(year := d.year + 1, month := 1, day := 1) else d.(month := d.month + 1, day := 1)
    else d.(day := d.day + 1)
  }

  function PrevDay(d: DateTime): DateTime {
    if d.day > 1 then d.(day := d.day - 1)
    else
      var (y, m) := if d.month <= 1 then (d.year - 1, 12) else (d.year, d.month - 1);
      d.(year := y, month := m, day := DaysInMonth(y, m))
  }

  // ---- the closed formulas ----

  function SecsOfDay(d: DateTime): nat {
    3600 * d.hour + 60 * d.minute + d.second
  }

  /** Division toward zero, with the correction the source applies to negative years. */
  function Era(y: int): (e: int)
    ensures e == y / 400
  {
    if y >= 0 then y / 400 else -((399 - y) / 400)
  }

  function MonthStart(mp: nat): nat {
    (153 * mp + 2) / 5
  }

  /** Days since 1970-01-01. */
  function DaysFromCivil(d: DateTime): int {
    var y := d.year - if d.month <= 2 then 1 else 0;
    var era := Era(y);
    var yoe := y - era * 400;
    var doy := MonthStart(if d.month > 2 then d.month - 3 else d.month + 9) + d.day - 1;
    era * 146097 + (yoe * 365 + yoe / 4 - yoe / 100 + doy) - 719468
  }

  function Seconds(d: DateTime): int {
    DaysFromCivil(d) * DAY + SecsOfDay(d)
  }

  function ToUnix(d: DateTime): Option<int> {
    if d.year == 0 || d.month == 0 || d.day == 0 then None else Some(Seconds(d))
  }

  /** The year of the era that day `doe` of the era falls in. */
  function YearOfEra(doe: nat): int {
    (doe - doe / 1460 + doe / 36524 - doe / 146096) / 365
  }

  function YearStart(yoe: int): int {
    365 * yoe + yoe / 4 - yoe / 100
  }

  /** The date of day number `days`, for days from the first of March of year 0 on. */
  function CivilFromDays(days: int): (int, int, int)
    requires days >= -719468
  {
    var z := days + 719468;
    var era := z / 146097;
    var doe := z - era * 146097;
    var yoe := YearOfEra(doe);
    var y := yoe + era * 400;
    var doy := doe - YearStart(yoe);
    var mp := (5 * doy + 2) / 153;
    var d := doy - (153 * mp + 2) / 5 + 1;
    var m := if mp < 10 then mp + 3 else mp - 9;
    (if m <= 2 then y + 1 else y, m, d)
  }

  function FromUnix(secs: int): DateTime {
    if secs <= 0 then ZEROED
    else
      var (y, m, d) := CivilFromDays(secs / DAY);
      var sod := secs % DAY;
      DateTime(sod % 60, sod / 60 % 60, sod / 3600, d % 256, m % 256, y % U16)
  }

  // ---- years ----

  /** Day number of the first of March of year `y`, counted without eras. */
  function MarchFirst(y: int): int {
    365 * y + y / 4 - y / 100 + y / 400
  }

  lemma EraFree(y: int)
    ensures var era := Era(y); era * 146097 + YearStart(y - era * 400) == MarchFirst(y)
    ensures 0 <= y - Era(y) * 400 < 400
  {
    var era := Era(y);
    var yoe := y - era * 400;
    assert y == 400 * era + yoe;
    assert y / 4 == 100 * era + yoe / 4;
    assert y / 100 == 4 * era + yoe / 100;
  }

  function MarchYear(d: DateTime): int {
    if d.month <= 2 then d.year - 1 else d.year
  }

  function MarchMonth(d: DateTime): nat {
    if d.month > 2 then d.month - 3 else d.month + 9
  }

  lemma DaysAre(d: DateTime)
    ensures DaysFromCivil(d) == MarchFirst(MarchYear(d)) + MonthStart(MarchMonth(d)) + d.day - 1 - 719468
  {
    EraFree(MarchYear(d));
  }

  /** A year that starts in March ends with the leap day of the next calendar year. */
  lemma YearLength(y: int)
    ensures MarchFirst(y + 1) - MarchFirst(y) == if IsLeap(y + 1) then 366 else 365
  {
    assert (y + 1) / 4 - y / 4 == if (y + 1) % 4 == 0 then 1 else 0;
    assert (y + 1) / 100 - y / 100 == if (y + 1) % 100 == 0 then 1 else 0;
    assert (y + 1) / 400 - y / 400 == if (y + 1) % 400 == 0 then 1 else 0;
  }

  lemma MonthLength(year: int, mp: nat)
    requires mp < 11
    ensures MonthStart(mp + 1) - MonthStart(mp) == DaysInMonth(year, if mp < 10 then mp + 3 else 1)
  {
  }

  lemma MonthEnds()
    ensures MonthStart(0) == 0 && MonthStart(11) == 337
  {
  }

  // ---- stepping agrees with the formula ----

  /** The next day of a real date has the next number; past the end of a month it falls behind. */
  lemma NextDayCounts(d: DateTime)
    requires 1 <= d.month <= 12 && 1 <= d.day
    ensures var over := if d.day > DaysInMonth(d.year, d.month) then d.day - DaysInMonth(d.year, d.month) else 0;
      DaysFromCivil(NextDay(d)) == DaysFromCivil(d) + 1 - over
    ensures ValidDate(NextDay(d))
  {
    hide DaysFromCivil, MarchFirst, MonthStart, IsLeap;
    MonthEnds();
    DaysAre(d);
    DaysAre(NextDay(d));
    YearLength(MarchYear(d));
    if MarchMonth(d) < 11 {
      MonthLength(d.year, MarchMonth(d));
    }
  }

  /** The day before always has the number before. */
  lemma PrevDayCounts(d: DateTime)
    requires 1 <= d.month <= 12 && 1 <= d.day
    ensures DaysFromCivil(PrevDay(d)) == DaysFromCivil(d) - 1
    ensures 1 <= PrevDay(d).month <= 12 && 1 <= PrevDay(d).day && (ValidDate(d) ==> ValidDate(PrevDay(d)))
  {
    hide DaysFromCivil, MarchFirst, MonthStart, IsLeap;
    MonthEnds();
    var p := PrevDay(d);
    DaysAre(d);
    DaysAre(p);
    YearLength(MarchYear(p));
    if MarchMonth(p) < 11 {
      MonthLength(p.year, MarchMonth(p));
    }
  }

  /** Stepping forward undoes stepping back. */
  lemma NextPrev(d: DateTime)
    requires ValidDate(d)
    ensures NextDay(PrevDay(d)) == d && PrevDay(NextDay(d)) == d
  {
  }

  // ---- the inverse formula ----

  /** Where a day lies in its era: year `y`, day `r` of that year. */
  lemma YearFound(y: int, r: int)
    requires 0 <= y < 400 && 0 <= r < 365 + (if (y + 1) % 4 == 0 && ((y + 1) % 100 != 0 || y == 399) then 1 else 0)
    ensures 0 <= YearStart(y) + r < 146097 && YearOfEra(YearStart(y) + r) == y
  {
    var doe := YearStart(y) + r;
    var a, b := y / 4, y % 4;
    var c, e := y / 100, y % 100;
    assert y / 4 == 25 * c + e / 4;
    assert doe == 36524 * c + 365 * e + e / 4 + r;
    assert doe == 1460 * a + 365 * b + a - c + r;
    assert doe / 36524 - doe / 146096 == c by { Centuries(c, e, r, doe, y); }
    var t := if 365 * b + a - c + r >= 1460 then 1 else 0;
    assert doe / 1460 == a + t;
    assert doe - doe / 1460 + doe / 36524 - doe / 146096 == 365 * y + r - t;
  }

  lemma Centuries(c: int, e: int, r: int, doe: int, y: int)
    requires 0 <= c < 4 && 0 <= e < 100 && y == 100 * c + e && doe == 36524 * c + 365 * e + e / 4 + r
    requires 0 <= r < 365 + (if (y + 1) % 4 == 0 && ((y + 1) % 100 != 0 || y == 399) then 1 else 0)
    ensures 0 <= doe < 146097 && doe / 36524 - doe / 146096 == c
  {
    if e == 99 {
      assert (y + 1) % 100 == 0;
    }
  }

  /** The month formula finds the month whose days hold day `doy` of the year. */
  lemma MonthFound(mp: nat, day: nat)
    requires mp < 12 && 1 <= day <= (if mp < 11 then MonthStart(mp + 1) - MonthStart(mp) else 29)
    ensures (5 * (MonthStart(mp) + day - 1) + 2) / 153 == mp
  {
    if mp == 0 {} else if mp == 1 {} else if mp == 2 {} else if mp == 3 {} else if mp == 4 {}
    else if mp == 5 {} else if mp == 6 {} else if mp == 7 {} else if mp == 8 {} else if mp == 9 {}
    else if mp == 10 {} else {}
  }

  lemma DateShape(d: DateTime)
    requires ValidDate(d)
    ensures MarchMonth(d) < 12
    ensures d.day <= if MarchMonth(d) < 11 then MonthStart(MarchMonth(d) + 1) - MonthStart(MarchMonth(d)) else if IsLeap(d.year) then 29 else 28
  {
    hide MonthStart, IsLeap;
    if MarchMonth(d) < 11 { MonthLength(d.year, MarchMonth(d)); }
  }

  /** Day `r` of the year that starts in March fits that year. */
  lemma DayOfYear(d: DateTime)
    requires ValidDate(d)
    ensures var r := MonthStart(MarchMonth(d)) + d.day - 1; 0 <= r < if IsLeap(MarchYear(d) + 1) then 366 else 365
  {
    DateShape(d);
    MonthStarts(MarchMonth(d));
  }

  lemma MonthStarts(mp: nat)
    requires mp < 12
    ensures MonthStart(mp) <= 337 && (mp < 11 ==> MonthStart(mp + 1) <= 337)
  {
  }

  lemma Mod4(era: int, v: int)
    ensures (400 * era + v) % 4 == v % 4
  {
    var k := 100 * era + v / 4;
    assert 400 * era + v == 4 * k + v % 4;
  }

  lemma Mod100(era: int, v: int)
    ensures (400 * era + v) % 100 == v % 100
  {
  }

  lemma Mod400(era: int, v: int)
    requires 0 < v <= 400
    ensures (400 * era + v) % 400 == 0 <==> v == 400
  {
    assert v < 400 ==> (400 * era + v) / 400 == era;
  }

  lemma LeapInEra(y: int, yoe: int, era: int)
    requires y == 400 * era + yoe && 0 <= yoe < 400
    ensures IsLeap(y + 1) <==> (yoe + 1) % 4 == 0 && ((yoe + 1) % 100 != 0 || yoe == 399)
  {
    Mod4(era, yoe + 1);
    Mod100(era, yoe + 1);
    Mod400(era, yoe + 1);
    assert (yoe + 1) % 100 == 0 ==> (yoe + 1) % 4 == 0;
  }

  /** Putting a day number together and taking it apart again. */
  lemma TakenApart(era: int, yoe: int, mp: nat, day: nat)
    requires 0 <= era && 0 <= YearStart(yoe) + MonthStart(mp) + day - 1 < 146097 && mp < 12 && 1 <= day
    requires YearOfEra(YearStart(yoe) + MonthStart(mp) + day - 1) == yoe
    requires (5 * (MonthStart(mp) + day - 1) + 2) / 153 == mp
    ensures CivilFromDays(146097 * era + YearStart(yoe) + MonthStart(mp) + day - 1 - 719468)
         == (yoe + era * 400 + (if mp >= 10 then 1 else 0), if mp < 10 then mp + 3 else mp - 9, day)
  {
    hide YearOfEra, YearStart;
    var z := 146097 * era + YearStart(yoe) + MonthStart(mp) + day - 1;
    assert z / 146097 == era;
  }

  /** The formulas are inverse: a real date comes back from its day number. */
  lemma CivilRoundTrip(d: DateTime)
    requires ValidDate(d) && MarchYear(d) >= 0
    ensures DaysFromCivil(d) >= -719468 && CivilFromDays(DaysFromCivil(d)) == (d.year, d.month, d.day)
  {
    hide IsLeap, MarchFirst, YearOfEra, MonthStart, CivilFromDays, DaysInMonth;
    var y, mp := MarchYear(d), MarchMonth(d);
    var era := Era(y);
    var yoe := y - 400 * era;
    DayOfYear(d);
    LeapInEra(y, yoe, era);
    YearFound(yoe, MonthStart(mp) + d.day - 1);
    DateShape(d);
    MonthHolds(d);
    TakenApart(era, yoe, mp, d.day);
  }

  lemma MonthHolds(d: DateTime)
    requires ValidDate(d)
    ensures (5 * (MonthStart(MarchMonth(d)) + d.day - 1) + 2) / 153 == MarchMonth(d)
  {
    DateShape(d);
    hide DaysInMonth, IsLeap;
    MonthFound(MarchMonth(d), d.day);
  }

  // ---- seconds ----

  /** A date and time comes back from its Unix seconds exactly when those are positive. */
  lemma UnixRoundTrip(d: DateTime)
    requires ValidDate(d) && ValidTime(d) && 1 <= d.year < U16
    ensures ToUnix(d).Some? && (FromUnix(ToUnix(d).value) == d <==> ToUnix(d).value > 0)
  {
    hide DaysFromCivil, CivilFromDays, DaysInMonth;
    var secs := Seconds(d);
    CivilRoundTrip(d);
    SecondsSplit(DaysFromCivil(d), d);
  }

  lemma SecondsSplit(days: int, d: DateTime)
    requires ValidTime(d)
    ensures var secs := days * DAY + SecsOfDay(d);
      && secs / DAY == days && secs % DAY == SecsOfDay(d)
    ensures SecsOfDay(d) % 60 == d.second && SecsOfDay(d) / 60 % 60 == d.minute && SecsOfDay(d) / 3600 == d.hour
  {
    assert SecsOfDay(d) < DAY;
    assert SecsOfDay(d) / 60 == 60 * d.hour + d.minute;
  }

  /** Every day number from the epoch on is the number of a real date. */
  lemma {:induction false} DateOf(n: nat) returns (d: DateTime)
    ensures ValidDate(d) && DaysFromCivil(d) == n && d.year >= 1970
    ensures d.second == d.minute == d.hour == 0
  {
    d := DateTime(0, 0, 0, 1, 1, 1970);
    if n > 0 {
      d := DateOf(n - 1);
      NextDayCounts(d);
      d := NextDay(d);
    }
  }

  /** Day number of New Year's Day. */
  function NewYear(y: int): int {
    MarchFirst(y - 1) + 306 - 719468
  }

  lemma NewYearGrows(y: int, z: int)
    requires y <= z
    ensures NewYear(y) <= NewYear(z)
  {
    assert y - 1 <= z - 1 && (z - 1) / 100 - (y - 1) / 100 <= z - y + 1;
    assert (y - 1) / 4 <= (z - 1) / 4 && (y - 1) / 400 <= (z - 1) / 400;
    if y < z { assert (z - 1) / 100 - (y - 1) / 100 <= z - y; }
  }

  /** A date lies between the New Years around it, even one with a day its month does not have. */
  lemma WithinYear(d: DateTime)
    requires 1 <= d.month <= 12 && 1 <= d.day <= 31
    ensures NewYear(d.year) <= DaysFromCivil(d) < NewYear(d.year + 1)
  {
    hide DaysFromCivil, MarchFirst;
    DaysAre(d);
    YearLength(d.year - 1);
    var mp := MarchMonth(d);
    assert 0 <= MonthStart(mp) <= 337 && (mp <= 9 ==> MonthStart(mp) <= 275) && (mp >= 10 ==> MonthStart(mp) >= 306);
  }

  /** Seconds since the epoch of the first instant of year 65536, which the year field cannot hold. */
  const YEAR_LIMIT: int := 23217004 * DAY

  /** The date a day number stands for, and whether its year fits sixteen bits. */
  lemma DateFits(n: nat) returns (d: DateTime)
    ensures ValidDate(d) && DaysFromCivil(d) == n && d.year >= 1970 && CivilFromDays(n) == (d.year, d.month, d.day)
    ensures d.year < U16 <==> n < 23217004
  {
    hide DaysFromCivil, CivilFromDays, MarchFirst, DaysInMonth;
    d := DateOf(n);
    CivilRoundTrip(d);
    WithinYear(d);
    assert NewYear(65536) == 23217004 by { LimitYear(); }
    if d.year < U16 { NewYearGrows(d.year + 1, 65536); } else { NewYearGrows(65536, d.year); }
  }

  lemma LimitYear()
    ensures NewYear(65536) == 23217004
  {
  }

  /** Unix seconds survive the trip through a date exactly between the epoch and the end of year 65535. */
  lemma DateRoundTrip(secs: int)
    ensures ToUnix(FromUnix(secs)) == Some(secs) <==> 0 < secs < YEAR_LIMIT
  {
    hide DaysFromCivil, CivilFromDays, DaysInMonth;
    if secs > 0 {
      var n, sod := secs / DAY, secs % DAY;
      var d := DateFits(n);
      var r := FromUnix(secs);
      assert SecsOfDay(r) == sod by { SodSplit(sod); }
      assert r.month == d.month && r.day == d.day by { assert DaysInMonth(d.year, d.month) <= 31; }
      if d.year < U16 {
        SameDay(d, r);
      } else {
        WithinYear(r);
        NewYearGrows(r.year + 1, 65536);
        LimitYear();
      }
    }
  }

  lemma SodSplit(sod: nat)
    requires sod < DAY
    ensures 3600 * (sod / 3600) + 60 * (sod / 60 % 60) + sod % 60 == sod
  {
    assert sod / 3600 == sod / 60 / 60;
  }

  /** The day number depends on the date alone. */
  lemma SameDay(d: DateTime, e: DateTime)
    requires d.year == e.year && d.month == e.month && d.day == e.day
    ensures DaysFromCivil(d) == DaysFromCivil(e)
  {
  }

  // ---- the running clock ----

  function SetTime(d: DateTime, sod: nat): DateTime {
    d.(second := sod % 60, minute := sod / 60 % 60, hour := sod / 3600)
  }

  lemma SetTimeSeconds(d: DateTime, sod: nat)
    requires sod < DAY
    ensures Seconds(SetTime(d, sod)) == DaysFromCivil(d) * DAY + sod
  {
    SodSplit(sod);
    SameDay(d, SetTime(d, sod));
  }

  /**
   The clock reads boot time plus uptime, for every uptime, exactly when the boot date is a
   real one or midnight has not passed: start-up only checks that the day is at most 31.
   */
  method NowUtc(boot: DateTime, uptime: nat) returns (now: DateTime)
    requires 1 <= boot.month <= 12 && 1 <= boot.day <= 31
    ensures Seconds(now) == Seconds(boot) + uptime <==> ValidDate(boot) || SecsOfDay(boot) + uptime < DAY
    ensures ValidDate(boot) ==> ValidDate(now)
    ensures ValidTime(now)
  {
    hide DaysFromCivil, DaysInMonth;
    var sod := SecsOfDay(boot) + uptime;
    var shift := sod / DAY;
    now := SetTime(boot, sod % DAY);
    SetTimeSeconds(boot, sod % DAY);
    SameDay(boot, now);
    ghost var over := if ValidDate(boot) then 0 else boot.day - DaysInMonth(boot.year, boot.month);
    var i := 0;
    while i < shift
      invariant i <= shift && SecsOfDay(now) == sod % DAY && ValidTime(now)
      invariant i == 0 ==> now.year == boot.year && now.month == boot.month && now.day == boot.day
      invariant i > 0 ==> ValidDate(now)
      invariant 1 <= now.month <= 12 && 1 <= now.day && (ValidDate(boot) ==> ValidDate(now))
      invariant DaysFromCivil(now) == DaysFromCivil(boot) + i - if i > 0 then over else 0
    {
      NextDayCounts(now);
      now := NextDay(now);
      i := i + 1;
    }
  }

  /** 30 February passes the start-up check, and the clock then falls two days behind at midnight. */
  lemma FebruaryThirtieth()
    ensures var d := DateTime(0, 0, 0, 30, 2, 2026); DaysFromCivil(NextDay(d)) == DaysFromCivil(d) + 1 - 2
  {
    NextDayCounts(DateTime(0, 0, 0, 30, 2, 2026));
  }

  /** The displayed time is offset from UTC by exactly the zone, under the same condition and always backwards. */
  method ToLocal(d: DateTime, offset: int) returns (r: DateTime)
    requires 1 <= d.month <= 12 && 1 <= d.day <= 31
    ensures Seconds(r) == Seconds(d) + offset <==> ValidDate(d) || SecsOfDay(d) + offset < DAY
    ensures ValidDate(d) ==> ValidDate(r)
    ensures ValidTime(r)
  {
    hide DaysFromCivil, DaysInMonth;
    var total := SecsOfDay(d) + offset;
    var shift := total / DAY;
    r := SetTime(d, total % DAY);
    SetTimeSeconds(d, total % DAY);
    SameDay(d, r);
    ghost var over := if ValidDate(d) then 0 else d.day - DaysInMonth(d.year, d.month);
    var i := 0;
    if shift > 0 {
      while i < shift
        invariant i <= shift && SecsOfDay(r) == total % DAY && ValidTime(r)
        invariant i == 0 ==> r.year == d.year && r.month == d.month && r.day == d.day
        invariant i > 0 ==> ValidDate(r)
        invariant 1 <= r.month <= 12 && 1 <= r.day && (ValidDate(d) ==> ValidDate(r))
        invariant DaysFromCivil(r) == DaysFromCivil(d) + i - if i > 0 then over else 0
      {
        NextDayCounts(r);
        r := NextDay(r);
        i := i + 1;
      }
    } else if shift < 0 {
      while i < -shift
        invariant i <= -shift && SecsOfDay(r) == total % DAY && ValidTime(r)
        invariant 1 <= r.month <= 12 && 1 <= r.day && (ValidDate(d) ==> ValidDate(r))
        invariant DaysFromCivil(r) == DaysFromCivil(d) - i
      {
        PrevDayCounts(r);
        r := PrevDay(r);
        i := i + 1;
      }
    }
  }
}
