// The creation timestamp of a space: seconds since the epoch to RFC 3339 text, by a constant-time
// conversion whose unsigned subtractions must never underflow (`nat` below), checked against the
// day-by-day proleptic Gregorian calendar.
module Calendar {
  import opened Text

  datatype Date = Date(year: int, month: nat, day: nat)

  // ---- the conversion, as the daemon computes it ----

  function YearOfEra(doe: nat): nat {
    var a: nat := doe - doe / 1460;
    var b: nat := a + doe / 36524 - doe / 146096;
    b / 365
  }

  function CivilFromDays(days: int): Date {
    var z := days + 719468;
    var era := z / 146097;
    var doe: nat := z - era * 146097;
    var yoe := YearOfEra(doe);
    YearOfEraBounds(doe);
    var y := yoe + era * 400;
    YearStartStep(yoe);
    var before: nat := 365 * yoe + yoe / 4 - yoe / 100;
    var doy: nat := doe - before;
    MarchDate(y, doy)
  }

  /** Month and day of the `doy`-th day of a year that begins on 1 March of year `y`. */
  function MarchDate(y: int, doy: nat): Date
    requires doy <= 365
  {
    var mp := (5 * doy + 2) / 153;
    var past: nat := doy - (153 * mp + 2) / 5;
    var d := past + 1;
    var m: nat := if mp < 10 then mp + 3 else mp - 9;
    Date(if m <= 2 then y + 1 else y, m, d)
  }

  function Rfc3339FromEpoch(secs: nat): string {
    var days := secs / 86400;
    var rem := secs % 86400;
    var date := CivilFromDays(days);
    YearBounds(secs);
    Stamp(date, rem)
  }

  function Stamp(date: Date, rem: nat): string
    requires date.year >= 0
  {
    Pad(date.year, 4) + ("-" + (Pad(date.month, 2) + ("-" + (Pad(date.day, 2) + ("T" +
    (Pad(rem / 3600, 2) + (":" + (Pad((rem % 3600) / 60, 2) + (":" + (Pad(rem % 60, 2) + "Z"))))))))))
  }

  // ---- the calendar the conversion must agree with ----

  predicate IsLeap(y: int) { y % 4 == 0 && (y % 100 != 0 || y % 400 == 0) }

  function DaysInMonth(y: int, m: nat): nat {
    if m == 2 then (if IsLeap(y) then 29 else 28)
    else if m == 4 || m == 6 || m == 9 || m == 11 then 30
    else 31
  }

  predicate IsDate(d: Date) { 1 <= d.month <= 12 && 1 <= d.day <= DaysInMonth(d.year, d.month) }

  function Tomorrow(d: Date): (r: Date)
    requires IsDate(d)
    ensures IsDate(r)
  {
    if d.day < DaysInMonth(d.year, d.month) then d.(day := d.day + 1)
    else if d.month < 12 then Date(d.year, d.month + 1, 1)
    else Date(d.year + 1, 1, 1)
  }

  predicate Earlier(a: Date, b: Date) {
    a.year < b.year || (a.year == b.year && (a.month < b.month || (a.month == b.month && a.day < b.day)))
  }

  /** Leap years in years 1..y, as a signed count. */
  function LeapsTo(y: int): int { y / 4 - y / 100 + y / 400 }

  function DaysBeforeMonth(y: int, m: nat): nat {
    if m <= 1 then 0 else DaysBeforeMonth(y, m - 1) + DaysInMonth(y, m - 1)
  }

  /** Days from 1970-01-01 to a date, counted by whole years and whole months. */
  function DayNumber(d: Date): int
  {
    365 * (d.year - 1970) + LeapsTo(d.year - 1) - LeapsTo(1969) + DaysBeforeMonth(d.year, d.month) + d.day - 1
  }

  // ---- agreement ----

  /** First day, within a 400-year era that begins on 1 March, of the era's year `y`. */
  function YearStart(y: nat): nat { 365 * y + y / 4 - y / 100 + y / 400 }

  function DayQuota(doe: nat): nat { doe - doe / 1460 + doe / 36524 - doe / 146096 }

  lemma Quotient(n: int, k: int, q: int, r: int)
    requires k == 1460 || k == 36524 || k == 146096 || k == 146097
    requires 0 <= r < k && n == k * q + r
    ensures n / k == q
  {
    if k == 1460 {
    } else if k == 36524 {
    } else if k == 146096 {
    } else {
    }
  }

  lemma DayQuotaAtYearStart(c: nat, q: nat, s: nat)
    requires c < 4 && q < 25 && s < 4
    ensures YearStart(100 * c + 4 * q + s) == 36524 * c + 1461 * q + 365 * s
    ensures DayQuota(36524 * c + 1461 * q + 365 * s) == 365 * (100 * c + 4 * q + s)
    ensures c + q + s > 0 ==>
      DayQuota(36524 * c + 1461 * q + 365 * s - 1) < 365 * (100 * c + 4 * q + s)
  {
    var y := 100 * c + 4 * q + s;
    assert y / 4 == 25 * c + q && y / 100 == c && y / 400 == 0;
    var doe := 36524 * c + 1461 * q + 365 * s;
    assert doe == 1460 * (25 * c + q) + (24 * c + q + 365 * s);
    Quotient(doe, 1460, 25 * c + q, 24 * c + q + 365 * s);
    Quotient(doe, 36524, c, 1461 * q + 365 * s);
    Quotient(doe, 146096, 0, doe);
    if c + q + s > 0 {
      Quotient(doe - 1, 1460, 25 * c + q, 24 * c + q + 365 * s - 1);
      Quotient(doe - 1, 146096, 0, doe - 1);
      if q + s > 0 {
        Quotient(doe - 1, 36524, c, 1461 * q + 365 * s - 1);
      } else {
        Quotient(doe - 1, 36524, c - 1, 36523);
      }
    }
  }

  lemma {:induction false} DayQuotaMonotone(a: nat, b: nat)
    requires a <= b
    ensures DayQuota(a) <= DayQuota(b)
    decreases b - a
  {
    if a < b {
      DayQuotaMonotone(a, b - 1);
      DayQuotaStep(b - 1);
    }
  }

  lemma DayQuotaStep(a: nat)
    ensures DayQuota(a) <= DayQuota(a + 1)
  {
    if (a + 1) % 146096 == 0 { assert (a + 1) % 36524 == 0; }
  }

  lemma DayQuotaAt(y: nat)
    requires y < 400
    ensures DayQuota(YearStart(y)) == 365 * y
    ensures y > 0 ==> YearStart(y) > 0 && DayQuota(YearStart(y) - 1) < 365 * y
  {
    var c, r := y / 100, y % 100;
    DayQuotaAtYearStart(c, r / 4, r % 4);
    assert y == 100 * c + 4 * (r / 4) + r % 4;
  }

  /** The constant-time year of the era is the year whose days contain `doe`. */
  lemma YearOfEraBounds(doe: nat)
    requires doe < 146097
    ensures YearOfEra(doe) < 400
    ensures YearStart(YearOfEra(doe)) <= doe < YearStart(YearOfEra(doe) + 1)
  {
    DayQuotaMonotone(doe, 146096);
    var y := YearOfEra(doe);
    DayQuotaAt(y);
    if doe < YearStart(y) {
      DayQuotaMonotone(doe, YearStart(y) - 1);
    }
    if y < 399 {
      DayQuotaAt(y + 1);
      if doe >= YearStart(y + 1) {
        DayQuotaMonotone(YearStart(y + 1), doe);
      }
    }
  }

  lemma YearOfEraUnique(doe: nat, y: nat)
    requires y < 400 && YearStart(y) <= doe < YearStart(y + 1)
    ensures doe < 146097 && YearOfEra(doe) == y
  {
    YearOfEraBounds(doe);
  }

  lemma DivStep(y: int, k: int)
    requires k == 4 || k == 100 || k == 400
    ensures (y + 1) / k == y / k + if (y + 1) % k == 0 then 1 else 0
  {
    if k == 4 {
    } else if k == 100 {
    } else {
    }
  }

  lemma LeapNesting(y: int)
    ensures y % 100 == 0 ==> y % 4 == 0
    ensures y % 400 == 0 ==> y % 100 == 0
  {
    assert y % 100 == 0 ==> y == 4 * (25 * (y / 100));
    assert y % 400 == 0 ==> y == 100 * (4 * (y / 400));
  }

  lemma LeapsStep(y: int)
    ensures LeapsTo(y + 1) == LeapsTo(y) + if IsLeap(y + 1) then 1 else 0
  {
    DivStep(y, 4);
    DivStep(y, 100);
    DivStep(y, 400);
    LeapNesting(y + 1);
  }

  lemma YearStartStep(y: nat)
    requires y < 400
    ensures YearStart(y) == 365 * y + y / 4 - y / 100
    ensures YearStart(y + 1) == YearStart(y) + (if IsLeap(y + 1) then 366 else 365)
  {
    LeapsStep(y);
    assert YearStart(y) == 365 * y + LeapsTo(y);
    assert YearStart(y + 1) == 365 * (y + 1) + LeapsTo(y + 1);
  }

  lemma MarchDateStep(y: int, doy: nat)
    requires doy < (if IsLeap(y + 1) then 366 else 365)
    ensures IsDate(MarchDate(y, doy))
    ensures Tomorrow(MarchDate(y, doy)) ==
      if doy + 1 < (if IsLeap(y + 1) then 366 else 365) then MarchDate(y, doy + 1) else MarchDate(y + 1, 0)
  {
    var mp := (5 * doy + 2) / 153;
    assert mp <= 11;
  }

  lemma LeapInEra(era: int, y: int)
    ensures IsLeap(y + era * 400 + 1) <==> IsLeap(y + 1)
  {
    ShiftedRemainder(y + 1, 100 * era, 4);
    ShiftedRemainder(y + 1, 4 * era, 100);
    ShiftedRemainder(y + 1, era, 400);
  }

  lemma ShiftedRemainder(y: int, n: int, k: int)
    requires k == 4 || k == 100 || k == 400
    ensures (y + n * k) % k == y % k
  {
    if k == 4 {
      assert (y + n * 4) / 4 == y / 4 + n;
    } else if k == 100 {
      assert (y + n * 100) / 100 == y / 100 + n;
    } else {
      assert (y + n * 400) / 400 == y / 400 + n;
    }
  }

  lemma CivilShape(days: int, era: int, yoe: nat, doy: nat)
    requires yoe < 400 && doy < (if IsLeap(yoe + 1) then 366 else 365)
    requires days + 719468 == era * 146097 + YearStart(yoe) + doy
    ensures CivilFromDays(days) == MarchDate(yoe + era * 400, doy)
  {
    var doe := YearStart(yoe) + doy;
    YearStartStep(yoe);
    YearOfEraUnique(doe, yoe);
    Quotient(days + 719468, 146097, era, doe);
    hide YearOfEra;
  }

  lemma CivilDecompose(days: int) returns (era: int, yoe: nat, doy: nat)
    ensures yoe < 400 && doy < (if IsLeap(yoe + 1) then 366 else 365)
    ensures days + 719468 == era * 146097 + YearStart(yoe) + doy
  {
    var z := days + 719468;
    era := z / 146097;
    var doe: nat := z - era * 146097;
    yoe := YearOfEra(doe);
    YearOfEraBounds(doe);
    YearStartStep(yoe);
    doy := doe - YearStart(yoe);
  }

  /** Every conversion result is a calendar date, and the next day converts to the next date. */
  lemma CivilFollowsCalendar(days: int)
    ensures IsDate(CivilFromDays(days))
    ensures CivilFromDays(days + 1) == Tomorrow(CivilFromDays(days))
  {
    hide CivilFromDays, YearStart;
    var era, yoe, doy := CivilDecompose(days);
    CivilShape(days, era, yoe, doy);
    YearStartStep(yoe);
    LeapInEra(era, yoe);
    MarchDateStep(yoe + era * 400, doy);
    if doy + 1 < (if IsLeap(yoe + 1) then 366 else 365) {
      CivilShape(days + 1, era, yoe, doy + 1);
    } else if yoe < 399 {
      CivilShape(days + 1, era, yoe + 1, 0);
    } else {
      EraEnds();
      CivilShape(days + 1, era + 1, 0, 0);
      assert yoe + 1 + era * 400 == (era + 1) * 400;
    }
  }

  lemma EraEnds()
    ensures YearStart(400) == 146097 && YearStart(0) == 0
  {
  }

  // ---- the inverse ----

  lemma TomorrowCounts(d: Date)
    requires IsDate(d)
    ensures DayNumber(Tomorrow(d)) == DayNumber(d) + 1
    ensures Earlier(d, Tomorrow(d))
  {
    if d.day == DaysInMonth(d.year, d.month) && d.month == 12 {
      YearLength(d.year);
    }
  }

  lemma YearLength(y: int)
    ensures DaysBeforeMonth(y, 12) == if IsLeap(y) then 335 else 334
    ensures LeapsTo(y) == LeapsTo(y - 1) + if IsLeap(y) then 1 else 0
  {
    LeapsStep(y - 1);
    assert DaysBeforeMonth(y, 4) == DaysInMonth(y, 1) + DaysInMonth(y, 2) + DaysInMonth(y, 3) by {
      assert DaysBeforeMonth(y, 2) == DaysInMonth(y, 1);
    }
    assert DaysBeforeMonth(y, 8) == DaysBeforeMonth(y, 4) + 122 by {
      assert DaysBeforeMonth(y, 6) == DaysBeforeMonth(y, 4) + 61;
    }
    assert DaysBeforeMonth(y, 12) == DaysBeforeMonth(y, 8) + 122 by {
      assert DaysBeforeMonth(y, 10) == DaysBeforeMonth(y, 8) + 61;
    }
  }

  /** Counting the days up to the converted date gives back the day number, for every day. */
  lemma {:induction false} DayNumberOfCivil(days: int)
    ensures DayNumber(CivilFromDays(days)) == days
    decreases if days < 0 then -days else days
  {
    hide CivilFromDays, DayNumber, Tomorrow;
    if days == 0 {
      CivilDayZero();
    } else if days > 0 {
      DayNumberOfCivil(days - 1);
      CivilFollowsCalendar(days - 1);
      TomorrowCounts(CivilFromDays(days - 1));
    } else {
      DayNumberOfCivil(days + 1);
      CivilFollowsCalendar(days);
      TomorrowCounts(CivilFromDays(days));
    }
  }

  lemma NewYear1970()
    ensures YearOfEra(135080) == 369 && MarchDate(1969, 306) == Date(1970, 1, 1)
  {
  }

  lemma CivilDayZero()
    ensures CivilFromDays(0) == Date(1970, 1, 1)
    ensures DayNumber(Date(1970, 1, 1)) == 0
  {
    hide YearOfEra, MarchDate;
    NewYear1970();
    assert 719468 / 146097 == 4;
  }

  lemma {:induction false} DaysBeforeMonthOrder(y: int, m: nat, n: nat)
    requires 1 <= m < n
    ensures DaysBeforeMonth(y, m) + DaysInMonth(y, m) <= DaysBeforeMonth(y, n)
  {
    if m < n - 1 { DaysBeforeMonthOrder(y, m, n - 1); }
  }

  lemma {:induction false} LeapsOrder(a: int, b: int)
    requires a <= b
    ensures LeapsTo(a) <= LeapsTo(b)
    decreases b - a
  {
    if a < b {
      LeapsOrder(a, b - 1);
      YearLength(b);
    }
  }

  lemma EarlierCounts(a: Date, b: Date)
    requires IsDate(a) && IsDate(b) && Earlier(a, b)
    ensures DayNumber(a) < DayNumber(b)
  {
    if a.year < b.year {
      YearLength(a.year);
      LeapsOrder(a.year, b.year - 1);
      if a.month < 12 { DaysBeforeMonthOrder(a.year, a.month, 12); }
    } else if a.month < b.month {
      DaysBeforeMonthOrder(a.year, a.month, b.month);
    }
  }

  /** The conversion and the day count are inverse to each other, on all days and all dates. */
  lemma CivilOfDayNumber(d: Date)
    requires IsDate(d)
    ensures CivilFromDays(DayNumber(d)) == d
  {
    var c := CivilFromDays(DayNumber(d));
    DayNumberOfCivil(DayNumber(d));
    CivilFollowsCalendar(DayNumber(d));
    if Earlier(c, d) { EarlierCounts(c, d); }
    if Earlier(d, c) { EarlierCounts(d, c); }
  }

  lemma CivilOrder(a: int, b: int)
    requires a < b
    ensures Earlier(CivilFromDays(a), CivilFromDays(b))
  {
    hide CivilFromDays, DayNumber;
    var c, d := CivilFromDays(a), CivilFromDays(b);
    DayNumberOfCivil(a);
    DayNumberOfCivil(b);
    CivilFollowsCalendar(a);
    CivilFollowsCalendar(b);
    if Earlier(d, c) { EarlierCounts(d, c); }
  }

  // ---- the text ----

  /** `date-time` of section 5.6 of RFC 3339 in UTC, leap seconds aside. */
  predicate IsDateTime(s: string) {
    && |s| == 20
    && AllDigits(s[0..4]) && s[4] == '-' && AllDigits(s[5..7]) && s[7] == '-' && AllDigits(s[8..10])
    && s[10] == 'T' && AllDigits(s[11..13]) && s[13] == ':' && AllDigits(s[14..16]) && s[16] == ':'
    && AllDigits(s[17..19]) && s[19] == 'Z'
    && IsDate(DateOf(s))
    && ReadDec(s[11..13]) < 24 && ReadDec(s[14..16]) < 60 && ReadDec(s[17..19]) < 60
  }

  function DateOf(s: string): Date
    requires |s| == 20 && AllDigits(s[0..4]) && AllDigits(s[5..7]) && AllDigits(s[8..10])
  {
    Date(ReadDec(s[0..4]), ReadDec(s[5..7]), ReadDec(s[8..10]))
  }

  /** The instant a timestamp denotes, in seconds since the epoch. */
  function EpochOf(s: string): int
    requires IsDateTime(s)
  {
    DayNumber(DateOf(s)) * 86400 + ReadDec(s[11..13]) * 3600 + ReadDec(s[14..16]) * 60 + ReadDec(s[17..19])
  }

  const YEAR_10000 := 253402300800

  lemma DayNumberOf10000()
    ensures DayNumber(Date(10000, 1, 1)) == 2932897
  {
  }

  lemma YearBounds(secs: nat)
    ensures CivilFromDays(secs / 86400).year >= 1970
    ensures secs < YEAR_10000 <==> CivilFromDays(secs / 86400).year < 10000
  {
    hide CivilFromDays, DayNumber;
    var days := secs / 86400;
    CivilDayZero();
    DayNumberOf10000();
    CivilOfDayNumber(Date(10000, 1, 1));
    CivilFollowsCalendar(days);
    if days < 2932897 { CivilOrder(days, 2932897); }
    if days > 2932897 { CivilOrder(2932897, days); }
    if days > 0 { CivilOrder(0, days); }
  }

  datatype Time = Time(hour: nat, minute: nat, second: nat)

  predicate IsTime(t: Time) { t.hour < 24 && t.minute < 60 && t.second < 60 }

  function TimeOfDay(rem: nat): (t: Time)
    requires rem < 86400
    ensures IsTime(t) && rem == t.hour * 3600 + t.minute * 60 + t.second
  {
    Time(rem / 3600, (rem % 3600) / 60, rem % 60)
  }

  /** The stamp as blocks of fixed width. */
  function Blocks(d: Date, t: Time): string
    requires d.year >= 0
  {
    Join(Digits(d.year, 4), Digits(d.month, 2), Digits(d.day, 2), Clock(t))
  }

  function Join(y: string, m: string, d: string, clock: string): string {
    y + ("-" + (m + ("-" + (d + ("T" + clock)))))
  }

  function Clock(t: Time): string { JoinClock(Digits(t.hour, 2), Digits(t.minute, 2), Digits(t.second, 2)) }

  function JoinClock(h: string, m: string, s: string): string { h + (":" + (m + (":" + (s + "Z")))) }

  lemma JoinSlices(y: string, m: string, d: string, h: string, i: string, c: string)
    requires |y| == 4 && |m| == |d| == |h| == |i| == |c| == 2
    ensures var s := Join(y, m, d, JoinClock(h, i, c));
      && |s| == 20 && s[4] == s[7] == '-' && s[10] == 'T' && s[13] == s[16] == ':' && s[19] == 'Z'
      && s[0..4] == y && s[5..7] == m && s[8..10] == d && s[11..13] == h && s[14..16] == i && s[17..19] == c
  {
    var k := JoinClock(h, i, c);
    assert k[0..2] == h && k[2] == ':' && k[3..5] == i && k[5] == ':' && k[6..8] == c && k[8] == 'Z';
    var s := Join(y, m, d, k);
    assert s[11..] == k;
    assert s[11..13] == k[0..2] && s[14..16] == k[3..5] && s[17..19] == k[6..8];
    assert s[13] == k[2] && s[16] == k[5] && s[19] == k[8];
  }

  lemma SmallPowers()
    ensures Pow10(2) == 100 && Pow10(4) == 10000
  {
    assert Pow10(3) == 1000;
  }

  lemma StampIsBlocks(d: Date, rem: nat)
    requires 0 <= d.year < 10000 && IsDate(d) && rem < 86400
    ensures Stamp(d, rem) == Blocks(d, TimeOfDay(rem))
  {
    SmallPowers();
    PadIsDigits(d.year, 4);
    PadIsDigits(d.month, 2);
    PadIsDigits(d.day, 2);
    PadIsDigits(rem / 3600, 2);
    PadIsDigits((rem % 3600) / 60, 2);
    PadIsDigits(rem % 60, 2);
  }

  lemma BlocksReadBack(d: Date, t: Time)
    requires 0 <= d.year < 10000 && IsDate(d) && IsTime(t)
    ensures IsDateTime(Blocks(d, t))
    ensures EpochOf(Blocks(d, t)) == DayNumber(d) * 86400 + t.hour * 3600 + t.minute * 60 + t.second
  {
    hide DayNumber, Join, JoinClock;
    SmallPowers();
    JoinSlices(Digits(d.year, 4), Digits(d.month, 2), Digits(d.day, 2),
               Digits(t.hour, 2), Digits(t.minute, 2), Digits(t.second, 2));
    ReadDecOfDigits(d.year, 4);
    ReadDecOfDigits(d.month, 2);
    ReadDecOfDigits(d.day, 2);
    ReadDecOfDigits(t.hour, 2);
    ReadDecOfDigits(t.minute, 2);
    ReadDecOfDigits(t.second, 2);
  }

  /** A timestamp is RFC 3339 text exactly before year 10000, and then denotes its own instant. */
  lemma TimestampIsRfc3339(secs: nat)
    ensures IsDateTime(Rfc3339FromEpoch(secs)) <==> secs < YEAR_10000
    ensures secs < YEAR_10000 ==> EpochOf(Rfc3339FromEpoch(secs)) == secs
  {
    YearBounds(secs);
    var d := CivilFromDays(secs / 86400);
    CivilFollowsCalendar(secs / 86400);
    if secs < YEAR_10000 {
      StampIsBlocks(d, secs % 86400);
      BlocksReadBack(d, TimeOfDay(secs % 86400));
      DayNumberOfCivil(secs / 86400);
    } else {
      SmallPowers();
      DecLength(d.year, 4);
    }
  }

  lemma BlockOrder(m: nat, n: nat, w: nat, t: string, u: string)
    requires m < Pow10(w) && n < Pow10(w)
    requires m < n || (m == n && StrLess(t, u))
    ensures StrLess(Digits(m, w) + t, Digits(n, w) + u)
  {
    if m < n { DigitsOrder(m, n, w); }
    StrConcat(Digits(m, w), Digits(n, w), t, u);
  }

  lemma ClockOrder(t: Time, u: Time)
    requires IsTime(t) && IsTime(u)
    requires t.hour < u.hour
      || (t.hour == u.hour && (t.minute < u.minute || (t.minute == u.minute && t.second < u.second)))
    ensures StrLess(Clock(t), Clock(u))
  {
    SmallPowers();
    var ts, us := Digits(t.second, 2) + "Z", Digits(u.second, 2) + "Z";
    var tm, um := Digits(t.minute, 2) + (":" + ts), Digits(u.minute, 2) + (":" + us);
    if t.hour == u.hour {
      if t.minute == u.minute {
        BlockOrder(t.second, u.second, 2, "Z", "Z");
        StrConcat(":", ":", ts, us);
      }
      BlockOrder(t.minute, u.minute, 2, ":" + ts, ":" + us);
      StrConcat(":", ":", tm, um);
    }
    BlockOrder(t.hour, u.hour, 2, ":" + tm, ":" + um);
  }

  lemma BlocksOrder(c: Date, d: Date, t: Time, u: Time)
    requires 0 <= c.year < 10000 && IsDate(c) && 0 <= d.year < 10000 && IsDate(d)
    requires Earlier(c, d) || (c == d && StrLess(Clock(t), Clock(u)))
    ensures StrLess(Blocks(c, t), Blocks(d, u))
  {
    SmallPowers();
    var ct, dt := "T" + Clock(t), "T" + Clock(u);
    var cd, dd := Digits(c.day, 2) + ct, Digits(d.day, 2) + dt;
    var cm, dm := Digits(c.month, 2) + ("-" + cd), Digits(d.month, 2) + ("-" + dd);
    hide Clock;
    if c.year == d.year {
      if c.month == d.month {
        if c.day == d.day { StrConcat("T", "T", Clock(t), Clock(u)); }
        BlockOrder(c.day, d.day, 2, ct, dt);
        StrConcat("-", "-", cd, dd);
      }
      BlockOrder(c.month, d.month, 2, "-" + cd, "-" + dd);
      StrConcat("-", "-", cm, dm);
    }
    BlockOrder(c.year, d.year, 4, "-" + cm, "-" + dm);
  }

  /** Up to year 10000, later timestamps are greater as text. */
  lemma TimestampOrder(a: nat, b: nat)
    requires a < b < YEAR_10000
    ensures StrLess(Rfc3339FromEpoch(a), Rfc3339FromEpoch(b))
  {
    hide CivilFromDays, Stamp, Blocks;
    var c, d := CivilFromDays(a / 86400), CivilFromDays(b / 86400);
    YearBounds(a);
    YearBounds(b);
    CivilFollowsCalendar(a / 86400);
    CivilFollowsCalendar(b / 86400);
    StampIsBlocks(c, a % 86400);
    StampIsBlocks(d, b % 86400);
    if a / 86400 < b / 86400 { CivilOrder(a / 86400, b / 86400); }
    if a / 86400 == b / 86400 { ClockOrder(TimeOfDay(a % 86400), TimeOfDay(b % 86400)); }
    BlocksOrder(c, d, TimeOfDay(a % 86400), TimeOfDay(b % 86400));
  }
}
