// Windows FILETIME values of the summary-information stream
// (crates/hwp-core/src/document/summary_information.rs): 100-nanosecond
// ticks since 1601-01-01, turned into Unix seconds and then into an ISO 8601
// string in UTC+9 by walking the Gregorian calendar from 1970.

module FileTime {
  import opened Bytes
  import opened Text

  datatype FileTime = FileTime(low: u32, high: u32)

  // The ticks between 1601-01-01 and 1970-01-01 (the arithmetic below
  // writes out the ticks per second, 10_000_000, the seconds per day, 86400,
  // and the UTC+9 offset, 32400 seconds).
  const EpochDifference: nat := 0x019DB1DED53E8000

  // The 64-bit value `(high as u64) << 32 | low as u64`.
  function Ticks(ft: FileTime): u64
  {
    ft.high * 0x1_0000_0000 + ft.low
  }

  function FileTimeOf(v: u64): (ft: FileTime)
    ensures Ticks(ft) == v
  {
    FileTime(v % 0x1_0000_0000, v / 0x1_0000_0000)
  }

  // An i64 subtraction that wraps, as in a release build; the operands of
  // to_unix_timestamp keep it within one wrap of the i64 range.
  function WrapI64(x: int): (r: i64)
    requires -0x8000_0000_0000_0000 - 0x1_0000_0000_0000_0000 <= x < 0x8000_0000_0000_0000
    ensures r % 0x1_0000_0000_0000_0000 == x % 0x1_0000_0000_0000_0000
  {
    if x < -0x8000_0000_0000_0000 then x + 0x1_0000_0000_0000_0000 else x
  }

  // Rust's `/ 10_000_000` on an i64: the quotient is rounded toward zero, so
  // the remainder has the sign of the dividend.
  function WholeSeconds(a: int): (q: int)
    ensures a >= 0 ==> 0 <= q <= a && 0 <= a - q * 10_000_000 < 10_000_000
    ensures a < 0 ==> a <= q <= 0 && -10_000_000 < a - q * 10_000_000 <= 0
  {
    if a >= 0 then a / 10_000_000 else -((-a) / 10_000_000)
  }

  // FileTime::to_unix_timestamp: the ticks reinterpreted as an i64, less
  // the epoch difference, in whole seconds rounded toward zero.
  function UnixTimestamp(ft: FileTime): (t: i64)
    ensures EpochDifference <= Ticks(ft) < 0x8000_0000_0000_0000 + EpochDifference ==>
      0 <= t && (t as int) * 10_000_000 <= Ticks(ft) - EpochDifference < (t as int + 1) * 10_000_000
    ensures Ticks(ft) < EpochDifference ==>
      t <= 0 && -(t as int) * 10_000_000 <= EpochDifference - Ticks(ft) < (1 - t as int) * 10_000_000
    ensures 0x8000_0000_0000_0000 + EpochDifference <= Ticks(ft) ==> t < 0
  {
    var v := Ticks(ft);
    var a := WrapI64(AsI64(v) - EpochDifference);
    assert v < 0x8000_0000_0000_0000 ==> a == v - EpochDifference;
    assert 0x8000_0000_0000_0000 <= v < 0x8000_0000_0000_0000 + EpochDifference ==> a == v - EpochDifference;
    assert 0x8000_0000_0000_0000 + EpochDifference <= v ==> a == v - 0x1_0000_0000_0000_0000 - EpochDifference;
    WholeSeconds(a)
  }

  // A FILETIME s seconds and r ticks after the Unix epoch gives s back.
  lemma UnixTimestampOfSeconds(s: nat, r: nat)
    requires r < 10_000_000 && s * 10_000_000 + r < 0x8000_0000_0000_0000
    ensures UnixTimestamp(FileTimeOf(EpochDifference + s * 10_000_000 + r)) == s
  {
    var t := UnixTimestamp(FileTimeOf(EpochDifference + s * 10_000_000 + r));
    assert t * 10_000_000 <= s * 10_000_000 + r < (t + 1) * 10_000_000;
  }

  // ---------------------------------------------------------------------
  // The Gregorian calendar from 1970.

  // is_leap_year.
  predicate IsLeapYear(year: int)
  {
    year % 4 == 0 && (year % 100 != 0 || year % 400 == 0)
  }

  // The Gregorian rule repeats every 400 years.
  lemma LeapYearCycle(year: int)
    ensures IsLeapYear(year + 400) == IsLeapYear(year)
  {
    assert (year + 400) % 4 == year % 4;
    assert (year + 400) % 100 == year % 100;
    assert (year + 400) % 400 == year % 400;
  }

  function DaysInYear(year: int): (n: nat)
    ensures n == 365 || n == 366
  {
    if IsLeapYear(year) then 366 else 365
  }

  // The `days_in_month` table of to_utc9_string.
  function MonthLengths(year: int): (lens: seq<nat>)
    ensures |lens| == 12
    ensures forall k :: 0 <= k < 12 ==> 28 <= lens[k] <= 31
  {
    [31, if IsLeapYear(year) then 29 else 28, 31, 30, 31, 30, 31, 31, 30, 31, 30, 31]
  }

  function SumRange(lens: seq<nat>, a: nat, b: nat): nat
    requires a <= b <= |lens|
    decreases b - a
  {
    if a == b then 0 else lens[a] + SumRange(lens, a + 1, b)
  }

  lemma MonthLengthsTotal(year: int)
    ensures SumRange(MonthLengths(year), 0, 12) == DaysInYear(year)
  {
    var l := MonthLengths(year);
    assert SumRange(l, 12, 12) == 0;
    assert SumRange(l, 11, 12) == l[11];
    assert SumRange(l, 10, 12) == l[10] + SumRange(l, 11, 12);
    assert SumRange(l, 9, 12) == l[9] + SumRange(l, 10, 12);
    assert SumRange(l, 8, 12) == l[8] + SumRange(l, 9, 12);
    assert SumRange(l, 7, 12) == l[7] + SumRange(l, 8, 12);
    assert SumRange(l, 6, 12) == l[6] + SumRange(l, 7, 12);
    assert SumRange(l, 5, 12) == l[5] + SumRange(l, 6, 12);
    assert SumRange(l, 4, 12) == l[4] + SumRange(l, 5, 12);
    assert SumRange(l, 3, 12) == l[3] + SumRange(l, 4, 12);
    assert SumRange(l, 2, 12) == l[2] + SumRange(l, 3, 12);
    assert SumRange(l, 1, 12) == l[1] + SumRange(l, 2, 12);
  }

  // The days from 1970-01-01 to the first day of a year.
  function DaysBeforeYear(year: int): nat
    requires year >= 1970
    decreases year - 1970
  {
    if year == 1970 then 0 else DaysBeforeYear(year - 1) + DaysInYear(year - 1)
  }

  // The days from 1970-01-01 to a date, the reference the calendar walk is
  // measured against.
  function DaysOf(year: int, month: int, day: int): int
    requires year >= 1970 && 1 <= month <= 12
  {
    DaysBeforeYear(year) + SumRange(MonthLengths(year), 0, month - 1) + day - 1
  }

  predicate ValidDate(year: int, month: int, day: int)
  {
    year >= 1970 && 1 <= month <= 12 && 1 <= day <= MonthLengths(year)[month - 1]
  }

  // The year loop of to_utc9_string: subtract whole years while the day
  // count reaches past the current one.
  function YearFrom(year: int, d: nat): (r: (int, nat))
    requires year >= 1970
    decreases d
  {
    if d < DaysInYear(year) then (year, d) else YearFrom(year + 1, d - DaysInYear(year))
  }

  // The month loop: subtract whole months while the day lies past the
  // current one; month k + 1 is at index k.
  function MonthFrom(lens: seq<nat>, k: nat, day: int): (r: (int, int))
    requires k <= |lens|
    decreases |lens| - k
  {
    if k == |lens| || day <= lens[k] then (k + 1, day) else MonthFrom(lens, k + 1, day - lens[k])
  }

  // The date `days` days after 1970-01-01.
  function CivilFromDays(days: nat): (int, int, int)
  {
    var (year, dayOfYear) := YearFrom(1970, days);
    var (month, day) := MonthFrom(MonthLengths(year), 0, dayOfYear + 1);
    (year, month, day)
  }

  lemma {:induction false} YearFromSpec(year: int, d: nat)
    requires year >= 1970
    ensures YearFrom(year, d).0 >= year && YearFrom(year, d).1 < DaysInYear(YearFrom(year, d).0)
    ensures DaysBeforeYear(YearFrom(year, d).0) + YearFrom(year, d).1 == DaysBeforeYear(year) + d
    decreases d
  {
    if d >= DaysInYear(year) {
      YearFromSpec(year + 1, d - DaysInYear(year));
    }
  }

  lemma {:induction false} MonthFromSpec(lens: seq<nat>, k: nat, day: int)
    requires k < |lens| && 1 <= day <= SumRange(lens, k, |lens|)
    ensures var (m, d) := MonthFrom(lens, k, day);
      k + 1 <= m <= |lens| && 1 <= d <= lens[m - 1] && SumRange(lens, k, m - 1) + d == day
    decreases |lens| - k
  {
    if day > lens[k] {
      MonthFromSpec(lens, k + 1, day - lens[k]);
      var (m, d) := MonthFrom(lens, k + 1, day - lens[k]);
      assert SumRange(lens, k, m - 1) == lens[k] + SumRange(lens, k + 1, m - 1);
    }
  }

  // The calendar walk lands on a valid date that lies `days` days after
  // 1970-01-01.
  lemma CivilFromDaysSpec(days: nat)
    ensures var (y, m, d) := CivilFromDays(days); ValidDate(y, m, d) && DaysOf(y, m, d) == days
  {
    YearFromSpec(1970, days);
    var (year, dayOfYear) := YearFrom(1970, days);
    MonthLengthsTotal(year);
    MonthFromSpec(MonthLengths(year), 0, dayOfYear + 1);
  }

  lemma {:induction false} YearFromOfDate(y: int, year: int, n: nat, d: nat)
    requires 1970 <= year <= y && d < DaysInYear(y)
    requires DaysBeforeYear(year) + n == DaysBeforeYear(y) + d
    ensures YearFrom(year, n) == (y, d)
    decreases y - year
  {
    if year < y {
      DaysBeforeYearMonotone(year, y);
      DaysBeforeYearMonotone(year + 1, y);
      YearFromOfDate(y, year + 1, n - DaysInYear(year), d);
    }
  }

  lemma {:induction false} DaysBeforeYearMonotone(a: int, b: int)
    requires 1970 <= a <= b
    ensures DaysBeforeYear(a) + (if a < b then DaysInYear(a) else 0) <= DaysBeforeYear(b)
    decreases b - a
  {
    if a + 1 < b {
      DaysBeforeYearMonotone(a, b - 1);
    }
  }

  lemma {:induction false} MonthFromOfDate(lens: seq<nat>, k: nat, m: int, d: int)
    requires k + 1 <= m <= |lens| && 1 <= d <= lens[m - 1]
    requires forall i :: 0 <= i < |lens| ==> lens[i] >= 1
    ensures MonthFrom(lens, k, SumRange(lens, k, m - 1) + d) == (m, d)
    decreases |lens| - k
  {
    if k + 1 < m {
      MonthFromOfDate(lens, k + 1, m, d);
    }
  }

  // Every valid date is reached from its own day count: the walk and
  // DaysOf are inverse.
  lemma CivilFromDaysOfDate(y: int, m: int, d: int)
    requires ValidDate(y, m, d)
    ensures DaysOf(y, m, d) >= 0 && CivilFromDays(DaysOf(y, m, d)) == (y, m, d)
  {
    var lens := MonthLengths(y);
    var doy := SumRange(lens, 0, m - 1) + d - 1;
    MonthLengthsTotal(y);
    MonthFromOfDate(lens, 0, m, d);
    SumRangeSplit(lens, 0, m - 1, 12);
    assert doy < DaysInYear(y) by {
      assert SumRange(lens, m - 1, 12) == lens[m - 1] + SumRange(lens, m, 12);
    }
    YearFromOfDate(y, 1970, DaysOf(y, m, d), doy);
  }

  lemma {:induction false} SumRangeSplit(lens: seq<nat>, a: nat, b: nat, c: nat)
    requires a <= b <= c <= |lens|
    ensures SumRange(lens, a, c) == SumRange(lens, a, b) + SumRange(lens, b, c)
    decreases b - a
  {
    if a < b {
      SumRangeSplit(lens, a + 1, b, c);
    }
  }

  // ---------------------------------------------------------------------
  // The ISO 8601 string.

  function Two(n: nat): string
  {
    ZeroPad(Decimal(n), 2)
  }

  // `format!("{:04}-{:02}-{:02}T{:02}:{:02}:{:02}+09:00", ...)`.
  function IsoUtc9(year: nat, month: nat, day: nat, hours: nat, minutes: nat, seconds: nat): string
  {
    ZeroPad(Decimal(year), 4) + IsoTail(month, day, hours, minutes, seconds)
  }

  function IsoTail(month: nat, day: nat, hours: nat, minutes: nat, seconds: nat): string
  {
    Field('-', month) + (Field('-', day) + (Field('T', hours) + (Field(':', minutes) + (Field(':', seconds) + "+09:00"))))
  }

  // A separator followed by a two-digit number.
  function Field(sep: char, n: nat): string
  {
    [sep] + Two(n)
  }

  predicate IsFieldShaped(t: string, sep: char)
  {
    |t| >= 3 && t[0] == sep && IsAsciiDigit(t[1]) && IsAsciiDigit(t[2])
  }

  // The value of the two digits after the separator.
  function FieldValue(t: string): int
    requires |t| >= 3
  {
    10 * (t[1] as int - '0' as int) + (t[2] as int - '0' as int)
  }

  // The date-and-time part after the year: "-MM-DDTHH:MM:SS+09:00".
  predicate IsTailShaped(t: string)
  {
    |t| == 21 && IsFieldShaped(t, '-') && IsFieldShaped(t[3..], '-') && IsFieldShaped(t[6..], 'T') &&
    IsFieldShaped(t[9..], ':') && IsFieldShaped(t[12..], ':') && t[15..] == "+09:00"
  }

  // An ISO string of this shape: the year is every character before the
  // last 21.
  predicate IsIsoShaped(r: string)
  {
    |r| >= 22 && AllDigits(r[..|r| - 21]) && IsTailShaped(r[|r| - 21..])
  }

  // The six numbers of an ISO string of this shape.
  function IsoFields(r: string): (f: (nat, nat, nat, nat, nat, nat))
    requires IsIsoShaped(r)
  {
    var t := r[|r| - 21..];
    (DecimalValue(r[..|r| - 21]), FieldValue(t), FieldValue(t[3..]), FieldValue(t[6..]), FieldValue(t[9..]),
     FieldValue(t[12..]))
  }

  lemma TwoDigits(n: nat)
    requires n < 100
    ensures Two(n) == [DigitChar(n / 10), DigitChar(n % 10)]
  {
    if n >= 10 {
      var q := n / 10;
      assert q < 10;
      assert Decimal(q) == [DigitChar(q)];
      assert Decimal(n) == [DigitChar(q), DigitChar(n % 10)];
    } else {
      assert Decimal(n) == [DigitChar(n)];
      assert ZeroPad([DigitChar(n)], 2) == ZeroPad(['0', DigitChar(n)], 2);
      assert DigitChar(0) == '0';
    }
  }

  lemma FieldRead(sep: char, n: nat)
    requires n < 100
    ensures |Field(sep, n)| == 3 && IsFieldShaped(Field(sep, n), sep) && FieldValue(Field(sep, n)) == n
  {
    TwoDigits(n);
    FieldOfDigits(sep, Two(n), n);
  }

  lemma FieldOfDigits(sep: char, two: string, n: nat)
    requires n < 100 && two == [DigitChar(n / 10), DigitChar(n % 10)]
    ensures |[sep] + two| == 3 && IsFieldShaped([sep] + two, sep) && FieldValue([sep] + two) == n
  {
    var t := [sep] + two;
    assert t[1] == DigitChar(n / 10) && t[2] == DigitChar(n % 10);
  }

  // Five fields and the zone suffix, whatever their contents.
  lemma TailOfFields(f1: string, f2: string, f3: string, f4: string, f5: string)
    requires |f1| == 3 && |f2| == 3 && |f3| == 3 && |f4| == 3 && |f5| == 3
    requires IsFieldShaped(f1, '-') && IsFieldShaped(f2, '-') && IsFieldShaped(f3, 'T')
    requires IsFieldShaped(f4, ':') && IsFieldShaped(f5, ':')
    ensures var t := f1 + (f2 + (f3 + (f4 + (f5 + "+09:00"))));
      IsTailShaped(t) && FieldValue(t) == FieldValue(f1) && FieldValue(t[3..]) == FieldValue(f2) &&
      FieldValue(t[6..]) == FieldValue(f3) && FieldValue(t[9..]) == FieldValue(f4) && FieldValue(t[12..]) == FieldValue(f5)
  {
    var t5 := f5 + "+09:00";
    var t4 := f4 + t5;
    var t3 := f3 + t4;
    var t2 := f2 + t3;
    var t := f1 + t2;
    assert t[3..] == t2;
    assert t[6..] == t3;
    assert t[9..] == t4;
    assert t[12..] == t5;
    assert t[15..] == "+09:00";
  }

  lemma IsoTailRead(month: nat, day: nat, hours: nat, minutes: nat, seconds: nat)
    requires month < 100 && day < 100 && hours < 100 && minutes < 100 && seconds < 100
    ensures var t := IsoTail(month, day, hours, minutes, seconds);
      IsTailShaped(t) && FieldValue(t) == month && FieldValue(t[3..]) == day && FieldValue(t[6..]) == hours &&
      FieldValue(t[9..]) == minutes && FieldValue(t[12..]) == seconds
  {
    FieldRead('-', month);
    FieldRead('-', day);
    FieldRead('T', hours);
    FieldRead(':', minutes);
    FieldRead(':', seconds);
    TailOfFields(Field('-', month), Field('-', day), Field('T', hours), Field(':', minutes), Field(':', seconds));
  }

  // The formatted string reads back as the six numbers it was made from.
  lemma IsoUtc9Read(year: nat, month: nat, day: nat, hours: nat, minutes: nat, seconds: nat)
    requires month < 100 && day < 100 && hours < 100 && minutes < 100 && seconds < 100
    ensures var r := IsoUtc9(year, month, day, hours, minutes, seconds);
      IsIsoShaped(r) && IsoFields(r) == (year, month, day, hours, minutes, seconds)
  {
    DecimalRoundTrip(year);
    ZeroPadValue(Decimal(year), 4);
    IsoTailRead(month, day, hours, minutes, seconds);
    var y := ZeroPad(Decimal(year), 4);
    var t := IsoTail(month, day, hours, minutes, seconds);
    var r := y + t;
    assert r[..|r| - 21] == y;
    assert r[|r| - 21..] == t;
  }

  const BeforeEpochString: string := "1970-01-01T00:00:00+09:00"

  // The ISO string of a count of seconds since 1970-01-01T00:00:00: the
  // date of its whole days and the time of day of the rest.
  function IsoOfSeconds(total: nat): string
  {
    var secs := total % 86400;
    var date := CivilFromDays(total / 86400);
    CivilFromDaysSpec(total / 86400);
    IsoUtc9(date.0, date.1, date.2, secs / 3600, secs % 3600 / 60, secs % 60)
  }

  // The string names a valid date and a time of day that together are
  // exactly `total` seconds after 1970-01-01T00:00:00.
  lemma IsoOfSecondsInstant(total: nat)
    ensures IsIsoShaped(IsoOfSeconds(total))
    ensures var f := IsoFields(IsoOfSeconds(total));
      ValidDate(f.0, f.1, f.2) && f.3 < 24 && f.4 < 60 && f.5 < 60 &&
      DaysOf(f.0, f.1, f.2) * 86400 + f.3 * 3600 + f.4 * 60 + f.5 == total
  {
    var secs := total % 86400;
    var days := total / 86400;
    CivilFromDaysSpec(days);
    var date := CivilFromDays(days);
    IsoUtc9Read(date.0, date.1, date.2, secs / 3600, secs % 3600 / 60, secs % 60);
    TimeOfDay(secs);
    assert days * 86400 + secs == total;
  }

  // Hours, minutes and seconds put back together give the seconds of the day.
  lemma TimeOfDay(secs: nat)
    requires secs < 86400
    ensures secs / 3600 < 24 && secs % 3600 / 60 < 60
    ensures secs / 3600 * 3600 + secs % 3600 / 60 * 60 + secs % 60 == secs
  {
    var h, rem := secs / 3600, secs % 3600;
    var m, s := rem / 60, rem % 60;
    assert secs == 3600 * h + rem;
    assert rem == 60 * m + s;
    assert secs == 60 * (60 * h + m) + s;
    DivUnique(secs, 60, 60 * h + m, s);
  }

  // FileTime::to_utc9_string: a negative timestamp gives the fixed string;
  // otherwise the time nine hours after the timestamp.
  function Utc9String(ft: FileTime): (r: string)
    ensures UnixTimestamp(ft) < 0 ==> r == BeforeEpochString
  {
    Utc9OfTimestamp(UnixTimestamp(ft))
  }

  function Utc9OfTimestamp(t: int): (r: string)
    ensures t < 0 ==> r == BeforeEpochString
  {
    if t < 0 then BeforeEpochString else IsoOfSeconds(t + 32400)
  }

  // The string of a non-negative timestamp names a valid date and time of
  // day that are exactly nine hours after the Unix time.
  lemma Utc9StringInstant(ft: FileTime)
    requires UnixTimestamp(ft) >= 0
    ensures IsIsoShaped(Utc9String(ft))
    ensures var f := IsoFields(Utc9String(ft));
      ValidDate(f.0, f.1, f.2) && f.3 < 24 && f.4 < 60 && f.5 < 60 &&
      DaysOf(f.0, f.1, f.2) * 86400 + f.3 * 3600 + f.4 * 60 + f.5 == UnixTimestamp(ft) + 32400
  {
    Utc9OfTimestampInstant(UnixTimestamp(ft));
  }

  lemma Utc9OfTimestampInstant(t: int)
    requires t >= 0
    ensures IsIsoShaped(Utc9OfTimestamp(t))
    ensures var f := IsoFields(Utc9OfTimestamp(t));
      ValidDate(f.0, f.1, f.2) && f.3 < 24 && f.4 < 60 && f.5 < 60 &&
      DaysOf(f.0, f.1, f.2) * 86400 + f.3 * 3600 + f.4 * 60 + f.5 == t + 32400
  {
    InstantOf(Utc9OfTimestamp(t), t + 32400);
  }

  // IsoOfSecondsInstant for a string known to equal IsoOfSeconds(total).
  lemma InstantOf(r: string, total: nat)
    requires r == IsoOfSeconds(total)
    ensures IsIsoShaped(r)
    ensures var f := IsoFields(r);
      ValidDate(f.0, f.1, f.2) && f.3 < 24 && f.4 < 60 && f.5 < 60 &&
      DaysOf(f.0, f.1, f.2) * 86400 + f.3 * 3600 + f.4 * 60 + f.5 == total
  {
    IsoOfSecondsInstant(total);
  }

  // to_utc9_string with its two loops.
  method ToUtc9String(ft: FileTime) returns (r: string)
    ensures r == Utc9String(ft)
  {
    var unixTimestamp := UnixTimestamp(ft);
    if unixTimestamp < 0 {
      return BeforeEpochString;
    }
    var totalSecs: nat := unixTimestamp + 32400;
    r := IsoOfSecondsLoops(totalSecs);
  }

  // The calendar part of to_utc9_string: the year loop, then the month loop.
  method IsoOfSecondsLoops(totalSecs: nat) returns (r: string)
    ensures r == IsoOfSeconds(totalSecs)
  {
    var days := totalSecs / 86400;
    var secsInDay := totalSecs % 86400;
    var hours := secsInDay / 3600;
    var minutes := secsInDay % 3600 / 60;
    var seconds := secsInDay % 60;
    var year := 1970;
    var dayOfYear: nat := days;
    while dayOfYear >= DaysInYear(year)
      invariant year >= 1970
      invariant YearFrom(year, dayOfYear) == YearFrom(1970, days)
      decreases dayOfYear
    {
      dayOfYear := dayOfYear - DaysInYear(year);
      year := year + 1;
    }
    assert YearFrom(1970, days) == (year, dayOfYear);
    var daysInMonth := MonthLengths(year);
    var month := 1;
    var day := dayOfYear + 1;
    var k := 0;
    while k < 12 && day > daysInMonth[k]
      invariant 0 <= k <= 12 && month == k + 1
      invariant MonthFrom(daysInMonth, k, day) == MonthFrom(daysInMonth, 0, dayOfYear + 1)
    {
      day := day - daysInMonth[k];
      month := month + 1;
      k := k + 1;
    }
    assert MonthFrom(daysInMonth, 0, dayOfYear + 1) == (month, day);
    assert CivilFromDays(days) == (year, month, day);
    CivilFromDaysSpec(days);
    r := IsoUtc9(year, month, day, hours, minutes, seconds);
  }
}
