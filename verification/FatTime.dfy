/** The date and time words of a FAT directory entry, and Unix seconds. */
module FatTime {
  import opened Fs
  import opened Calendar

  const U32_MAX: int := 0xFFFF_FFFF

  /** The first second of 1980, which FAT dates count from. */
  const EPOCH_1980: int := 315532800

  /** A date word at midnight; 0 when absent or impossible, and never beyond 32 bits. */
  function DateToUnix(d: nat): (r: int)
    requires d < U16
    ensures 0 <= r <= U32_MAX
  {
    var year, month, day := d / 512 + 1980, d / 32 % 16, d % 32;
    if d == 0 || !(1 <= month <= 12) || day == 0 then 0
    else
      var secs := ToUnix(DateTime(0, 0, 0, day, month, if year < 2107 then year else 2107));
      var s := if secs.None? then 0 else secs.value;
      if s < 0 then 0 else if s > U32_MAX then U32_MAX else s
  }

  function TimeSecs(t: nat): nat
    requires t < U16
  {
    if t == 0 then 0 else t / 2048 % 32 * 3600 + t / 32 % 64 * 60 + t % 32 * 2
  }

  /** The time and date words for a moment; zero words outside 1980 to 2107. */
  function UnixToFat(secs: int): (r: (nat, nat))
    ensures r.0 < U16 && r.1 < U16
  {
    var dt := FromUnix(secs);
    if dt.year < 1980 || dt.year > 2107 then (0, 0) else (PackTime(dt), PackDate(dt))
  }

  /** Hours, minutes and half seconds in one word. */
  function PackTime(dt: DateTime): (r: nat)
    ensures r < U16
  {
    (dt.hour * 2048 + dt.minute * 32 + dt.second / 2) % U16
  }

  /** Years since 1980, month and day in one word. */
  function PackDate(dt: DateTime): (r: nat)
    ensures r < U16
  {
    ((dt.year - 1980) * 512 + dt.month * 32 + dt.day) % U16
  }

  /** The modification time a reader puts together from the two words. */
  function Modified(time: nat, date: nat): int
    requires time < U16 && date < U16
  {
    var sum := DateToUnix(date) + TimeSecs(time);
    if sum > U32_MAX then U32_MAX else sum
  }

  lemma TimeWord(h: nat, m: nat, s: nat)
    requires h < 24 && m < 60 && s < 60
    ensures var t := h * 2048 + m * 32 + s / 2; t < U16 && TimeSecs(t) == 3600 * h + 60 * m + s - s % 2
  {
    var t := h * 2048 + m * 32 + s / 2;
    assert t / 2048 == h;
    assert t / 32 == 64 * h + m && t % 32 == s / 2;
    MinuteField(h, m);
    assert h % 32 == h;
  }

  lemma MinuteField(h: nat, m: nat)
    requires m < 60
    ensures (64 * h + m) % 64 == m
  {
  }

  lemma DateWord(y: nat, m: nat, d: nat)
    requires 1980 <= y <= 2107 && 1 <= m <= 12 && 1 <= d <= 31
    ensures var w := (y - 1980) * 512 + m * 32 + d; 0 < w < U16 && w / 512 + 1980 == y && w / 32 % 16 == m && w % 32 == d
  {
    var w := (y - 1980) * 512 + m * 32 + d;
    assert w / 512 == y - 1980 && w / 32 == 16 * (y - 1980) + m;
  }

  lemma Years()
    ensures NewYear(1980) * DAY == EPOCH_1980 && NewYear(2107) * DAY > U32_MAX
  {
  }

  /** A moment within 32 bits: its date and time, and when its year counts for FAT. */
  lemma Moment(secs: int)
    requires 0 < secs <= U32_MAX
    ensures var dt := FromUnix(secs);
      && ValidTime(dt) && 1 <= dt.month <= 12 && 1 <= dt.day <= 31 && dt.year != 0
      && Seconds(dt) == secs
      && (secs < EPOCH_1980 <==> dt.year < 1980) && dt.year < 2107
  {
    hide DaysFromCivil, CivilFromDays, DaysInMonth, MarchFirst;
    var n := secs / DAY;
    var d := DateFits(n);
    var dt := FromUnix(secs);
    SodSplit(secs % DAY);
    assert DaysInMonth(d.year, d.month) <= 31;
    SameDay(d, dt);
    WithinYear(dt);
    Years();
    if dt.year < 1980 { NewYearGrows(dt.year + 1, 1980); } else { NewYearGrows(1980, dt.year); }
    if dt.year >= 2107 { NewYearGrows(2107, dt.year); }
  }

  /** A date word of this kind stands for its midnight. */
  lemma DateReads(dt: DateTime)
    requires 1980 <= dt.year < 2107 && 1 <= dt.month <= 12 && 1 <= dt.day <= 31 && 0 <= DaysFromCivil(dt) * DAY <= U32_MAX
    ensures DateToUnix(PackDate(dt)) == DaysFromCivil(dt) * DAY
  {
    hide DaysFromCivil, PackDate;
    PackDateIs(dt);
    DateWord(dt.year, dt.month, dt.day);
    SameDay(dt, DateTime(0, 0, 0, dt.day, dt.month, dt.year));
  }

  /**
   A moment stored in an entry and read back loses its odd second and nothing else, exactly
   from 1980 up to the last second of 32 bits, and for the first two seconds of all, which the
   zero words stand for; the 2107 the format can express is not reached.
   */
  lemma StampRoundTrip(secs: int)
    ensures Modified(UnixToFat(secs).0, UnixToFat(secs).1) == secs - secs % 2 <==> EPOCH_1980 <= secs <= U32_MAX || 0 <= secs <= 1
  {
    hide FromUnix, UnixToFat, Modified;
    if secs < EPOCH_1980 {
      StampBefore(secs);
    } else if secs <= U32_MAX {
      StampInRange(secs);
    } else {
      ModifiedFits(UnixToFat(secs).0, UnixToFat(secs).1);
    }
  }

  /** Before 1980 both words are zero, and zero words read as the start of all. */
  lemma StampBefore(secs: int)
    requires secs < EPOCH_1980
    ensures Modified(UnixToFat(secs).0, UnixToFat(secs).1) == 0
  {
    if 0 < secs {
      Moment(secs);
    }
    hide CivilFromDays, ToUnix, PackTime, PackDate;
    assert UnixToFat(secs) == (0, 0);
  }

  lemma ModifiedFits(time: nat, date: nat)
    requires time < U16 && date < U16
    ensures Modified(time, date) <= U32_MAX
  {
    hide ToUnix, TimeSecs;
  }

  lemma TimeReads(dt: DateTime)
    requires ValidTime(dt)
    ensures TimeSecs(PackTime(dt)) == SecsOfDay(dt) - dt.second % 2
  {
    hide TimeSecs, PackTime;
    PackTimeIs(dt);
    TimeWord(dt.hour, dt.minute, dt.second);
  }

  lemma PackTimeIs(dt: DateTime)
    requires ValidTime(dt)
    ensures PackTime(dt) == dt.hour * 2048 + dt.minute * 32 + dt.second / 2
  {
  }

  lemma PackDateIs(dt: DateTime)
    requires 1980 <= dt.year <= 2107 && 1 <= dt.month <= 12 && 1 <= dt.day <= 31
    ensures PackDate(dt) == (dt.year - 1980) * 512 + dt.month * 32 + dt.day
  {
  }

  lemma StampInRange(secs: int)
    requires EPOCH_1980 <= secs <= U32_MAX
    ensures Modified(UnixToFat(secs).0, UnixToFat(secs).1) == secs - secs % 2
  {
    Moment(secs);
    hide *;
    var dt := FromUnix(secs);
    MomentReads(dt, secs);
    Words(secs);
    Together(PackTime(dt), PackDate(dt), secs);
  }

  lemma Words(secs: int)
    requires 1980 <= FromUnix(secs).year <= 2107
    ensures UnixToFat(secs) == (PackTime(FromUnix(secs)), PackDate(FromUnix(secs)))
  {
    hide FromUnix, PackTime, PackDate;
  }

  lemma MomentReads(dt: DateTime, secs: int)
    requires ValidTime(dt) && 1 <= dt.month <= 12 && 1 <= dt.day <= 31 && 1980 <= dt.year < 2107
    requires Seconds(dt) == secs && EPOCH_1980 <= secs <= U32_MAX
    ensures DateToUnix(PackDate(dt)) + TimeSecs(PackTime(dt)) == secs - secs % 2
  {
    hide DaysFromCivil, TimeSecs, DateToUnix, PackTime, PackDate;
    TimeReads(dt);
    DateReads(dt);
    Parity(DaysFromCivil(dt), dt.hour, dt.minute, dt.second);
  }

  lemma Together(time: nat, date: nat, secs: int)
    requires time < U16 && date < U16 && DateToUnix(date) + TimeSecs(time) == secs - secs % 2 && secs <= U32_MAX
    ensures Modified(time, date) == secs - secs % 2
  {
    hide TimeSecs, DateToUnix;
  }

  lemma Parity(days: int, h: nat, m: nat, s: nat)
    ensures (days * DAY + 3600 * h + 60 * m + s) % 2 == s % 2
  {
    var k := 43200 * days + 1800 * h + 30 * m + s / 2;
    assert days * DAY + 3600 * h + 60 * m + s == 2 * k + s % 2;
  }
}
