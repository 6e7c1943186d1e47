/** The calendar arithmetic the seeding script borrows from Python's datetime
    module: proleptic Gregorian dates of the years 1 to 9999 numbered by their
    ordinal, the day step of `_daterange`, the fixed date-time layouts read by
    `strptime` and written by `strftime`, `_normalize_time_to_minute`, and the
    slot generator `_generate_slots_for_date`. Times are kept to the minute. */
module Calendar {
  import opened Wrappers
  import opened Text
  import opened Seqs

  /** The exceptions that escape the seeding code. `NeverReturns` stands for a
      loop that does not end. */
  datatype PyError = ValueError | OverflowError | NeverReturns

  // ---------------------------------------------------------------------
  // Dates and their ordinals
  // ---------------------------------------------------------------------

  datatype Date = Date(year: int, month: int, day: int)

  const MinYear: int := 1
  const MaxYear: int := 9999

  /** `date.max`. */
  const MaxDate: Date := Date(9999, 12, 31)

  /** `date.max.toordinal()`. */
  const MaxOrdinal: int := 3652059

  predicate IsLeapYear(y: int) {
    y % 4 == 0 && (y % 100 != 0 || y % 400 == 0)
  }

  function DaysInYear(y: int): int {
    if IsLeapYear(y) then 366 else 365
  }

  function DaysInMonth(y: int, m: int): (n: int)
    requires 1 <= m <= 12
    ensures 28 <= n <= 31
  {
    if m == 2 then (if IsLeapYear(y) then 29 else 28)
    else if m == 4 || m == 6 || m == 9 || m == 11 then 30
    else 31
  }

  /** The days of year `y` before the first of month `m`. */
  function DaysBeforeMonth(y: int, m: int): int
    requires 1 <= m <= 12
  {
    [0, 0, 31, 59, 90, 120, 151, 181, 212, 243, 273, 304, 334][m] + (if m > 2 && IsLeapYear(y) then 1 else 0)
  }

  /** The days before the first of January of year `y`, counted from 0001-01-01. */
  function DaysBeforeYear(y: int): int {
    var p := y - 1;
    p * 365 + p / 4 - p / 100 + p / 400
  }

  /** A date the `date` constructor accepts. */
  predicate ValidDate(d: Date) {
    MinYear <= d.year <= MaxYear && 1 <= d.month <= 12 && 1 <= d.day <= DaysInMonth(d.year, d.month)
  }

  /** `d.toordinal()`: 0001-01-01 is day 1. */
  function Ordinal(d: Date): int
    requires ValidDate(d)
  {
    DaysBeforeYear(d.year) + DaysBeforeMonth(d.year, d.month) + d.day
  }

  /** `a < b` on dates: year, then month, then day. */
  predicate Before(a: Date, b: Date) {
    a.year < b.year || (a.year == b.year && (a.month < b.month || (a.month == b.month && a.day < b.day)))
  }

  /** `a <= b` on dates. */
  predicate NotAfter(a: Date, b: Date) {
    a == b || Before(a, b)
  }

  lemma MaxDateOrdinal()
    ensures ValidDate(MaxDate) && Ordinal(MaxDate) == MaxOrdinal
  {
  }

  /** One step of `(x + 1) // k` against `x // k`, for the divisors of the leap-year rule. */
  lemma DivStep(x: int, k: int)
    requires x >= 0 && (k == 4 || k == 100 || k == 400)
    ensures (x + 1) / k == x / k + (if (x + 1) % k == 0 then 1 else 0)
  {
  }

  /** A year is as long as the formula for the days before a year says. */
  lemma YearLength(y: int)
    requires y >= 1
    ensures DaysBeforeYear(y + 1) == DaysBeforeYear(y) + DaysInYear(y)
  {
    var x := y - 1;
    DivStep(x, 4);
    DivStep(x, 100);
    DivStep(x, 400);
    LeapDivisors(y);
    assert DaysBeforeYear(y + 1) == y * 365 + y / 4 - y / 100 + y / 400;
    assert DaysBeforeYear(y) == x * 365 + x / 4 - x / 100 + x / 400;
  }

  /** A year divisible by 400 is divisible by 100, and one divisible by 100 by 4. */
  lemma LeapDivisors(y: int)
    ensures y % 400 == 0 ==> y % 100 == 0
    ensures y % 100 == 0 ==> y % 4 == 0
  {
    if y % 400 == 0 {
      HundredsDivide(y, 4 * (y / 400));
    }
    if y % 100 == 0 {
      FoursDivide(y, 25 * (y / 100));
    }
  }

  /** A multiple of 100 leaves no remainder when divided by 100. */
  lemma HundredsDivide(y: int, k: int)
    requires y == 100 * k
    ensures y % 100 == 0
  {
  }

  /** A multiple of 4 leaves no remainder when divided by 4. */
  lemma FoursDivide(y: int, k: int)
    requires y == 4 * k
    ensures y % 4 == 0
  {
  }

  lemma {:induction false} YearsIncrease(y: int, z: int)
    requires 1 <= y <= z
    ensures y < z ==> DaysBeforeYear(y + 1) <= DaysBeforeYear(z)
    decreases z - y
  {
    if y < z {
      YearLength(z - 1);
      if y < z - 1 {
        YearsIncrease(y, z - 1);
      }
    }
  }

  /** Month `m` ends where month `m + 1` begins, and the months fill the year. */
  lemma MonthLength(y: int, m: int)
    requires 1 <= m <= 12
    ensures m < 12 ==> DaysBeforeMonth(y, m + 1) == DaysBeforeMonth(y, m) + DaysInMonth(y, m)
    ensures m == 12 ==> DaysBeforeMonth(y, m) + DaysInMonth(y, m) == DaysInYear(y)
  {
  }

  lemma {:induction false} MonthsIncrease(y: int, m: int, n: int)
    requires 1 <= m < n <= 12
    ensures DaysBeforeMonth(y, m) + DaysInMonth(y, m) <= DaysBeforeMonth(y, n)
    decreases n - m
  {
    MonthLength(y, m);
    if m + 1 < n {
      MonthsIncrease(y, m + 1, n);
    }
  }

  /** A valid date's ordinal lies inside its year. */
  lemma OrdinalInYear(d: Date)
    requires ValidDate(d)
    ensures DaysBeforeYear(d.year) < Ordinal(d) <= DaysBeforeYear(d.year + 1)
  {
    YearLength(d.year);
    if d.month < 12 {
      MonthsIncrease(d.year, d.month, 12);
    }
    MonthLength(d.year, 12);
  }

  /** Comparing dates field by field is comparing their ordinals. */
  lemma OrdinalOrder(a: Date, b: Date)
    requires ValidDate(a) && ValidDate(b)
    ensures Before(a, b) <==> Ordinal(a) < Ordinal(b)
    ensures a == b <==> Ordinal(a) == Ordinal(b)
  {
    if Before(a, b) {
      BeforeMeansSmaller(a, b);
    } else if Before(b, a) {
      BeforeMeansSmaller(b, a);
    } else {
      assert a == b;
    }
  }

  lemma BeforeMeansSmaller(a: Date, b: Date)
    requires ValidDate(a) && ValidDate(b) && Before(a, b)
    ensures Ordinal(a) < Ordinal(b)
  {
    if a.year < b.year {
      OrdinalInYear(a);
      OrdinalInYear(b);
      YearsIncrease(a.year, b.year);
    } else if a.month < b.month {
      MonthsIncrease(a.year, a.month, b.month);
    }
  }

  /** Every valid date is at most `date.max`, which is the only date with the largest ordinal. */
  lemma OrdinalAtMostMax(d: Date)
    requires ValidDate(d)
    ensures Ordinal(d) <= MaxOrdinal
    ensures Ordinal(d) == MaxOrdinal <==> d == MaxDate
  {
    MaxDateOrdinal();
    OrdinalOrder(d, MaxDate);
  }

  /** The day after `d`, by the calendar: the next day of the month, the first
      of the next month, or New Year's Day. It is the date whose ordinal is one
      more, which is how `d + timedelta(days=1)` computes it. */
  function NextDay(d: Date): (r: Date)
    requires ValidDate(d) && d != MaxDate
    ensures ValidDate(r) && Ordinal(r) == Ordinal(d) + 1
  {
    MonthLength(d.year, d.month);
    YearLength(d.year);
    if d.day < DaysInMonth(d.year, d.month) then Date(d.year, d.month, d.day + 1)
    else if d.month < 12 then Date(d.year, d.month + 1, 1)
    else Date(d.year + 1, 1, 1)
  }

  /** `d + timedelta(days=n)` for `n >= 0`: None where Python raises
      OverflowError, past `date.max`. */
  function AddDays(d: Date, n: nat): (r: Option<Date>)
    requires ValidDate(d)
    ensures r.None? <==> Ordinal(d) + n > MaxOrdinal
    ensures r.Some? ==> ValidDate(r.value) && Ordinal(r.value) == Ordinal(d) + n
    decreases n
  {
    OrdinalAtMostMax(d);
    if n == 0 then Some(d)
    else if d == MaxDate then None
    else AddDays(NextDay(d), n - 1)
  }

  // ---------------------------------------------------------------------
  // _daterange
  // ---------------------------------------------------------------------

  /** `list(_daterange(start, end))`: every day from `start` to `end`, both
      included, and nothing when `start` is after `end`. Reaching `date.max`
      inside the range makes the step past it raise OverflowError. */
  function DateRange(start: Date, end: Date): (r: Result<seq<Date>, PyError>)
    requires ValidDate(start) && ValidDate(end)
    ensures r.Failure? <==> NotAfter(start, end) && end == MaxDate
    ensures r.Failure? ==> r.error == OverflowError
    ensures r.Success? ==> |r.value| == if NotAfter(start, end) then Ordinal(end) - Ordinal(start) + 1 else 0
    ensures r.Success? ==> forall k :: 0 <= k < |r.value| ==>
      ValidDate(r.value[k]) && Ordinal(r.value[k]) == Ordinal(start) + k
    decreases Ordinal(end) + 1 - Ordinal(start)
  {
    OrdinalOrder(start, end);
    OrdinalAtMostMax(start);
    OrdinalAtMostMax(end);
    if !NotAfter(start, end) then Success([])
    else if start == MaxDate then Failure(OverflowError)
    else
      match DateRange(NextDay(start), end)
      case Failure(e) => Failure(e)
      case Success(rest) =>
        OrdinalOrder(NextDay(start), end);
        Success([start] + rest)
  }

  /** The range starts at `start`, ends at `end`, and steps one day at a time. */
  lemma DateRangeSteps(start: Date, end: Date)
    requires ValidDate(start) && ValidDate(end) && NotAfter(start, end)
    requires DateRange(start, end).Success?
    ensures var days := DateRange(start, end).value;
      |days| > 0 && days[0] == start && days[|days| - 1] == end
      && forall k :: 0 <= k < |days| - 1 ==> days[k] != MaxDate && days[k + 1] == NextDay(days[k])
  {
    var days := DateRange(start, end).value;
    OrdinalOrder(start, end);
    OrdinalOrder(days[0], start);
    OrdinalOrder(days[|days| - 1], end);
    forall k | 0 <= k < |days| - 1
      ensures days[k] != MaxDate && days[k + 1] == NextDay(days[k])
    {
      OrdinalAtMostMax(days[k]);
      OrdinalAtMostMax(days[k + 1]);
      OrdinalOrder(days[k + 1], NextDay(days[k]));
    }
  }

  // ---------------------------------------------------------------------
  // Moments, strftime and strptime
  // ---------------------------------------------------------------------

  /** A datetime to the minute: a date and the minutes since its midnight. */
  datatype Moment = Moment(date: Date, minute: int)

  predicate ValidMoment(m: Moment) {
    ValidDate(m.date) && 0 <= m.minute < 24 * 60
  }

  /** `d.strftime("%Y-%m-%d")`. */
  function FormatDate(d: Date): string
    requires ValidDate(d)
  {
    FormatPadded(d.year, 4) + "-" + FormatPadded(d.month, 2) + "-" + FormatPadded(d.day, 2)
  }

  /** A moment written with separator `sep` between date and time, and with
      the given seconds when there are any. */
  function Render(m: Moment, sep: char, second: Option<nat>): string
    requires ValidMoment(m)
  {
    FormatDate(m.date) + [sep] + ClockText(m.minute, second)
  }

  /** `%H:%M`, followed by `:%S` when there are seconds. */
  function ClockText(minute: nat, second: Option<nat>): string {
    FormatPadded(minute / 60, 2) + ":" + FormatPadded(minute % 60, 2)
    + (match second case None => "" case Some(s) => ":" + FormatPadded(s, 2))
  }

  /** `dt.strftime("%Y-%m-%d %H:%M")`. */
  function FormatMinute(m: Moment): string
    requires ValidMoment(m)
  {
    Render(m, ' ', None)
  }

  /** The value of the decimal digits `s[at..at + width]`, or None when one of them is not a digit. */
  function FieldAt(s: string, at: nat, width: nat): (r: Option<nat>)
    requires at + width <= |s|
    ensures r.Some? ==> r.value < Pow10(width)
  {
    var f := s[at..at + width];
    if AllDigits(f) then DigitsBelow(f); Some(DigitsValue(f)) else None
  }

  lemma {:induction false} DigitsBelow(s: string)
    requires AllDigits(s)
    ensures DigitsValue(s) < Pow10(|s|)
  {
    if |s| > 0 {
      DigitsBelow(s[..|s| - 1]);
    }
  }

  /** `strptime(s, "%Y-%m-%d").date()` with every field written at full width:
      None where Python raises ValueError. */
  function ParseDate(s: string): (r: Option<Date>)
    ensures r.Some? ==> ValidDate(r.value)
  {
    if |s| != 10 || s[4] != '-' || s[7] != '-' then None
    else DateOf(FieldAt(s, 0, 4), FieldAt(s, 5, 2), FieldAt(s, 8, 2))
  }

  /** The date of three read fields: each present, and together a valid date. */
  function DateOf(y: Option<nat>, m: Option<nat>, d: Option<nat>): (r: Option<Date>)
    ensures r.Some? ==> ValidDate(r.value)
  {
    if y.Some? && m.Some? && d.Some? && ValidDate(Date(y.value, m.value, d.value)) then Some(Date(y.value, m.value, d.value))
    else None
  }

  /** A layout of `_normalize_time_to_minute`: `T` or whitespace between date
      and time, with or without seconds. */
  datatype Layout = Layout(tee: bool, seconds: bool)

  /** The layouts in the order they are tried. */
  const Layouts: seq<Layout> := [Layout(false, false), Layout(true, false), Layout(false, true), Layout(true, true)]

  /** The separator matches: `T` in either case, or whitespace where the format has a space. */
  predicate SeparatorFits(l: Layout, c: char) {
    if l.tee then c == 'T' || c == 't' else IsSpace(c)
  }

  /** `strptime(s, fmt)` for one of the layouts, to the minute: None where Python
      raises ValueError. Seconds are read and checked, then dropped. */
  function ParseMoment(s: string, l: Layout): (r: Option<Moment>)
    ensures r.Some? ==> ValidMoment(r.value)
  {
    if |s| != (if l.seconds then 19 else 16) || !SeparatorFits(l, s[10]) || s[13] != ':' then None
    else if l.seconds && (s[16] != ':' || FieldAt(s, 17, 2).None? || FieldAt(s, 17, 2).value >= 60) then None
    else MomentOf(ParseDate(s[..10]), FieldAt(s, 11, 2), FieldAt(s, 14, 2))
  }

  /** The moment of a read date, hour and minute: each present, the hour
      below 24 and the minute below 60. */
  function MomentOf(d: Option<Date>, h: Option<nat>, mi: Option<nat>): (r: Option<Moment>)
    requires d.Some? ==> ValidDate(d.value)
    ensures r.Some? ==> ValidMoment(r.value)
  {
    if d.Some? && h.Some? && mi.Some? && h.value < 24 && mi.value < 60 then Some(Moment(d.value, h.value * 60 + mi.value))
    else None
  }

  /** The first layout that reads `s`. */
  function FirstParse(s: string, layouts: seq<Layout>): (r: Option<Moment>)
    ensures r.Some? ==> ValidMoment(r.value)
  {
    if |layouts| == 0 then None
    else
      match ParseMoment(s, layouts[0])
      case Some(m) => Some(m)
      case None => FirstParse(s, layouts[1..])
  }

  /** `_normalize_time_to_minute`: an empty string gives None; otherwise the
      trimmed text is read with the first layout that fits and written back as
      `YYYY-MM-DD HH:MM`, and None when none fits. */
  function NormalizeTimeToMinute(s: string): (r: Option<string>)
    ensures |s| == 0 ==> r.None?
    ensures r.Some? ==> |r.value| == 16
  {
    if |s| == 0 then None
    else
      match FirstParse(Strip(s), Layouts)
      case None => None
      case Some(m) => RenderLength(m, ' ', None); Some(FormatMinute(m))
  }

  lemma RenderLength(m: Moment, sep: char, second: Option<nat>)
    requires ValidMoment(m)
    requires second.None? || second.value < 60
    ensures |Render(m, sep, second)| == if second.Some? then 19 else 16
    ensures NoEdgeSpace(Render(m, sep, second))
  {
    RenderSplit(m, sep, second);
    ClockShape(m.minute, second);
    FormatDateShape(m.date);
    DigitEdges(Render(m, sep, second), FormatDate(m.date), ClockText(m.minute, second));
  }

  /** A text made of a piece starting with a digit, one character, and a piece
      ending with a digit has no whitespace at either end. */
  lemma DigitEdges(r: string, a: string, t: string)
    requires 0 < |a| < |r| && r[..|a|] == a && r[|a| + 1..] == t && 0 < |t|
    requires IsDigit(a[0]) && IsDigit(t[|t| - 1])
    ensures |r| == |a| + 1 + |t| && NoEdgeSpace(r)
  {
    assert r[0] == a[0];
    assert r[|r| - 1] == t[|t| - 1];
  }

  /** A written date is ten characters long and starts with a digit. */
  lemma FormatDateShape(d: Date)
    requires ValidDate(d)
    ensures |FormatDate(d)| == 10 && IsDigit(FormatDate(d)[0])
  {
    var y := FormatPadded(d.year, 4);
    assert |y| == 4 && IsDigit(y[0]);
    assert |FormatPadded(d.month, 2)| == 2 && |FormatPadded(d.day, 2)| == 2;
    assert FormatDate(d)[0] == y[0];
  }

  /** A written moment is its date, the separator, then its clock reading. */
  lemma RenderSplit(m: Moment, sep: char, second: Option<nat>)
    requires ValidMoment(m)
    ensures |FormatDate(m.date)| == 10
    ensures Render(m, sep, second)[..10] == FormatDate(m.date)
    ensures Render(m, sep, second)[10] == sep
    ensures Render(m, sep, second)[11..] == ClockText(m.minute, second)
  {
    FormatDateShape(m.date);
    var r := Render(m, sep, second);
    assert r == FormatDate(m.date) + ([sep] + ClockText(m.minute, second));
  }

  /** The pieces of a clock reading: two-digit hour, colon, two-digit minute,
      and a colon and two-digit seconds when there are any; it ends with a digit. */
  lemma ClockFields(minute: nat, second: Option<nat>)
    requires minute < 24 * 60 && (second.None? || second.value < 60)
    ensures var t := ClockText(minute, second);
      && |t| == (if second.Some? then 8 else 5)
      && t[..2] == FormatPadded(minute / 60, 2) && t[2] == ':' && t[3..5] == FormatPadded(minute % 60, 2)
      && (second.Some? ==> t[5] == ':' && t[6..8] == FormatPadded(second.value, 2))
  {
    var h := FormatPadded(minute / 60, 2);
    var mi := FormatPadded(minute % 60, 2);
    assert |h| == 2 && |mi| == 2;
    var t := ClockText(minute, second);
    match second
    case None =>
      assert t == h + [':'] + mi;
    case Some(sv) =>
      var ss := FormatPadded(sv, 2);
      assert |ss| == 2;
      assert t == h + [':'] + mi + [':'] + ss;
  }

  /** A clock reading is five characters long, eight with seconds, and ends with a digit. */
  lemma ClockShape(minute: nat, second: Option<nat>)
    requires minute < 24 * 60 && (second.None? || second.value < 60)
    ensures var t := ClockText(minute, second);
      |t| == (if second.Some? then 8 else 5) && IsDigit(t[|t| - 1])
  {
    TwoDigits(minute / 60);
    TwoDigits(minute % 60);
    var tail := match second case None => "" case Some(sv) => ":" + FormatPadded(sv, 2);
    if second.Some? {
      TwoDigits(second.value);
    }
    PartsEndWithDigit(FormatPadded(minute / 60, 2), FormatPadded(minute % 60, 2), tail);
  }

  /** A number below 100, padded to two places, is two digits. */
  lemma TwoDigits(n: nat)
    requires n < 100
    ensures |FormatPadded(n, 2)| == 2 && IsDigit(FormatPadded(n, 2)[1])
  {
    assert Pow10(2) == 100;
  }

  /** `hh:mm` followed by nothing or by `:ss` ends with the last digit of its last part. */
  lemma PartsEndWithDigit(h: string, mi: string, tail: string)
    requires |h| == 2 && |mi| == 2 && IsDigit(mi[1])
    requires tail == "" || (|tail| == 3 && IsDigit(tail[2]))
    ensures var t := h + ":" + mi + tail;
      |t| == 5 + |tail| && IsDigit(t[|t| - 1])
  {
    var t := h + ":" + mi + tail;
    if tail == "" {
      assert t[|t| - 1] == mi[1];
    } else {
      assert t[|t| - 1] == tail[2];
    }
  }

  /** A date written by `strftime` reads back as itself. */
  lemma DateRoundTrip(d: Date)
    requires ValidDate(d)
    ensures ParseDate(FormatDate(d)) == Some(d)
  {
    var y := FormatPadded(d.year, 4);
    var mo := FormatPadded(d.month, 2);
    var dd := FormatPadded(d.day, 2);
    assert |y| == 4 && |mo| == 2 && |dd| == 2;
    var s := FormatDate(d);
    assert s[0..4] == y && s[5..7] == mo && s[8..10] == dd;
    FieldOf(s, 0, y);
    FieldOf(s, 5, mo);
    FieldOf(s, 8, dd);
  }

  /** Digits written at a position are read back there. */
  lemma FieldOf(s: string, at: nat, t: string)
    requires at + |t| <= |s| && s[at..at + |t|] == t && AllDigits(t)
    ensures FieldAt(s, at, |t|) == Some(DigitsValue(t))
  {
  }

  /** The fields of a written moment: its date, separator, hour and minute,
      and its seconds when it has any. */
  lemma RenderFields(m: Moment, c: char, sec: Option<nat>)
    requires ValidMoment(m) && (sec.None? || sec.value < 60)
    ensures var s := Render(m, c, sec);
      && |s| == (if sec.Some? then 19 else 16)
      && s[..10] == FormatDate(m.date) && s[10] == c && s[13] == ':'
      && FieldAt(s, 11, 2) == Some(m.minute / 60) && FieldAt(s, 14, 2) == Some(m.minute % 60)
      && (sec.Some? ==> s[16] == ':' && FieldAt(s, 17, 2) == Some(sec.value))
  {
    var s := Render(m, c, sec);
    var t := ClockText(m.minute, sec);
    RenderSplit(m, c, sec);
    ClockFields(m.minute, sec);
    assert s[11..13] == t[..2] && s[14..16] == t[3..5] && s[13] == t[2];
    FieldOf(s, 11, t[..2]);
    FieldOf(s, 14, t[3..5]);
    if sec.Some? {
      assert s[17..19] == t[6..8] && s[16] == t[5];
      FieldOf(s, 17, t[6..8]);
    }
  }

  /** A moment written in a layout, with any valid seconds, reads back as itself. */
  lemma RenderParses(m: Moment, l: Layout, c: char, second: nat)
    requires ValidMoment(m) && SeparatorFits(l, c) && second < 60
    ensures ParseMoment(Render(m, c, if l.seconds then Some(second) else None), l) == Some(m)
  {
    var sec := if l.seconds then Some(second) else None;
    var s := Render(m, c, sec);
    RenderFields(m, c, sec);
    DateRoundTrip(m.date);
    MomentOfParts(m);
  }

  /** A moment is the moment of its date, hour and minute. */
  lemma MomentOfParts(m: Moment)
    requires ValidMoment(m)
    ensures MomentOf(Some(m.date), Some(m.minute / 60), Some(m.minute % 60)) == Some(m)
  {
  }

  /** `_normalize_time_to_minute` reads each of its four layouts, dropping the seconds. */
  lemma NormalizeReadsLayouts(m: Moment, k: int, c: char, second: nat)
    requires ValidMoment(m) && 0 <= k < |Layouts| && SeparatorFits(Layouts[k], c) && second < 60
    ensures NormalizeTimeToMinute(Render(m, c, if Layouts[k].seconds then Some(second) else None)) == Some(FormatMinute(m))
  {
    var sec := if Layouts[k].seconds then Some(second) else None;
    RenderLength(m, c, sec);
    RenderParses(m, Layouts[k], c, second);
    NormalizeParsed(Render(m, c, sec), k);
  }

  /** Trimmed text that layout `k` reads is normalized through that layout. */
  lemma NormalizeParsed(s: string, k: int)
    requires 0 <= k < |Layouts| && |s| > 0 && NoEdgeSpace(s) && ParseMoment(s, Layouts[k]).Some?
    ensures NormalizeTimeToMinute(s) == Some(FormatMinute(ParseMoment(s, Layouts[k]).value))
  {
    StripKeepsTrimmed(s);
    forall j | 0 <= j < k
      ensures ParseMoment(s, Layouts[j]).None?
    {
      LayoutsExclusive(s, Layouts[k], Layouts[j]);
    }
    assert Layouts[k..][0] == Layouts[k];
    FirstParseSkips(s, Layouts, k);
  }

  /** No text fits two different layouts. */
  lemma LayoutsExclusive(s: string, l: Layout, other: Layout)
    requires ParseMoment(s, l).Some? && other != l
    ensures ParseMoment(s, other).None?
  {
    if other.seconds == l.seconds {
      assert SeparatorFits(l, s[10]);
    }
  }

  /** Layouts before position `k` that do not read `s` are passed over. */
  lemma {:induction false} FirstParseSkips(s: string, layouts: seq<Layout>, k: int)
    requires 0 <= k < |layouts|
    requires forall j :: 0 <= j < k ==> ParseMoment(s, layouts[j]).None?
    ensures FirstParse(s, layouts) == FirstParse(s, layouts[k..])
    decreases k
  {
    if k > 0 {
      assert ParseMoment(s, layouts[0]).None?;
      assert layouts[1..][k - 1..] == layouts[k..];
      FirstParseSkips(s, layouts[1..], k - 1);
    }
  }

  /** Normalizing a normalized time changes nothing. */
  lemma NormalizeIdempotent(s: string)
    requires NormalizeTimeToMinute(s).Some?
    ensures NormalizeTimeToMinute(NormalizeTimeToMinute(s).value) == NormalizeTimeToMinute(s)
  {
    var m := FirstParse(Strip(s), Layouts).value;
    NormalizeReadsLayouts(m, 0, ' ', 0);
  }

  /** Different moments are written differently. */
  lemma FormatMinuteInjective(a: Moment, b: Moment)
    requires ValidMoment(a) && ValidMoment(b) && FormatMinute(a) == FormatMinute(b)
    ensures a == b
  {
    RenderParses(a, Layout(false, false), ' ', 0);
    RenderParses(b, Layout(false, false), ' ', 0);
  }

  // ---------------------------------------------------------------------
  // _generate_slots_for_date
  // ---------------------------------------------------------------------

  /** `s.split(sep)` for a one-character separator: the pieces between the separators. */
  function Split(s: string, sep: char): (r: seq<string>)
    ensures |r| >= 1
    decreases |s|
  {
    match FindIndex(s, sep)
    case None => [s]
    case Some(i) => [s[..i]] + Split(s[i + 1..], sep)
  }

  lemma SplitTwo(a: string, b: string, sep: char)
    requires sep !in a && sep !in b
    ensures Split(a + [sep] + b, sep) == [a, b]
  {
    var s := a + [sep] + b;
    assert forall j :: 0 <= j < |a| ==> s[j] == a[j] && a[j] != sep;
    assert s[|a|] == sep;
    assert FindIndex(s, sep) == Some(|a|);
    assert s[..|a|] == a && s[|a| + 1..] == b;
  }

  /** `sh, sm = [int(x) for x in hm.split(":")]` followed by `time(sh, sm)`:
      the minutes since midnight, or None where Python raises ValueError. */
  function ParseClock(hm: string): (r: Option<int>)
    ensures r.Some? ==> 0 <= r.value < 24 * 60
  {
    var parts := Split(hm, ':');
    if |parts| != 2 then None else ClockValue(ParseInt(parts[0]), ParseInt(parts[1]))
  }

  /** `time(sh, sm)` in minutes: both read as integers, an hour below 24 and
      a minute below 60. */
  function ClockValue(h: Option<int>, m: Option<int>): (r: Option<int>)
    ensures r.Some? ==> 0 <= r.value < 24 * 60
  {
    if h.Some? && m.Some? && 0 <= h.value < 24 && 0 <= m.value < 60 then Some(h.value * 60 + m.value)
    else None
  }

  /** A clock reading written `HH:MM` is read as that many minutes. */
  lemma ParseClockOf(h: nat, m: nat)
    requires h < 24 && m < 60
    ensures ParseClock(FormatPadded(h, 2) + ":" + FormatPadded(m, 2)) == Some(h * 60 + m)
  {
    var hs, ms := FormatPadded(h, 2), FormatPadded(m, 2);
    var t := hs + ":" + ms;
    assert ':' !in hs by { assert forall j :: 0 <= j < |hs| ==> IsDigit(hs[j]); }
    assert ':' !in ms by { assert forall j :: 0 <= j < |ms| ==> IsDigit(ms[j]); }
    SplitTwo(hs, ms, ':');
    assert t == hs + [':'] + ms;
    ParseClockSplit(t, hs, ms);
    ParseIntDigits(hs);
    ParseIntDigits(ms);
    ClockValueOf(h, m);
  }

  lemma ClockValueOf(h: int, m: int)
    requires 0 <= h < 24 && 0 <= m < 60
    ensures ClockValue(Some(h), Some(m)) == Some(h * 60 + m)
  {
  }
  /** A reading with exactly one colon is read piece by piece. */
  lemma ParseClockSplit(hm: string, a: string, b: string)
    requires Split(hm, ':') == [a, b]
    ensures ParseClock(hm) == ClockValue(ParseInt(a), ParseInt(b))
  {
  }

  /** `timedelta(minutes=n)` stays within `timedelta`'s range of days. */
  predicate DeltaInRange(n: int) {
    -999999999 <= n / (24 * 60) <= 999999999
  }

  /** The minute of `datetime.max` rounded up: the first minute no datetime reaches. */
  const EndOfTime: int := MaxOrdinal * (24 * 60)

  /** Minutes from 0001-01-01 00:00 to the midnight that starts `d`. */
  function DayStart(d: Date): int
    requires ValidDate(d)
  {
    (Ordinal(d) - 1) * (24 * 60)
  }

  /** The loop `while cur + delta <= end: slots.append(cur); cur += delta` on
      minutes since midnight, for a positive step. */
  function SlotLoop(cur: int, end: int, step: int): seq<int>
    requires step > 0
    decreases end - cur
  {
    if cur + step <= end then [cur] + SlotLoop(cur + step, end, step) else []
  }

  /** The value of `cur + delta` at the loop test that ends the loop. */
  function LoopExit(cur: int, end: int, step: int): (x: int)
    requires step > 0
    ensures end < x
    ensures x <= (if cur <= end then end else cur) + step
    decreases end - cur
  {
    if cur + step <= end then LoopExit(cur + step, end, step) else cur + step
  }

  /** The loop yields `cur, cur + step, ...` while a whole slot still fits
      before `end`, which makes `(end - cur) // step` slots. */
  lemma SlotLoopShape(cur: int, end: int, step: int)
    requires step > 0
    ensures var r := SlotLoop(cur, end, step);
      && |r| == (if cur + step > end then 0 else (end - cur) / step)
      && (|r| > 0 ==> r[0] == cur)
      && (forall k :: 0 <= k < |r| - 1 ==> r[k + 1] == r[k] + step)
      && (forall k :: 0 <= k < |r| ==> cur <= r[k] && r[k] + step <= end)
  {
    SlotLoopLength(cur, end, step);
    SlotLoopSteps(cur, end, step);
  }

  lemma {:induction false} SlotLoopLength(cur: int, end: int, step: int)
    requires step > 0
    ensures |SlotLoop(cur, end, step)| == (if cur + step > end then 0 else (end - cur) / step)
    decreases end - cur
  {
    if cur + step <= end {
      SlotLoopLength(cur + step, end, step);
      DivDown(end - cur, step);
    }
  }

  lemma {:induction false} SlotLoopSteps(cur: int, end: int, step: int)
    requires step > 0
    ensures var r := SlotLoop(cur, end, step);
      && (|r| > 0 ==> r[0] == cur)
      && (forall k :: 0 <= k < |r| - 1 ==> r[k + 1] == r[k] + step)
      && (forall k :: 0 <= k < |r| ==> cur <= r[k] && r[k] + step <= end)
    decreases end - cur
  {
    var r := SlotLoop(cur, end, step);
    if cur + step <= end {
      var rest := SlotLoop(cur + step, end, step);
      SlotLoopSteps(cur + step, end, step);
      assert r == [cur] + rest;
      if |rest| > 0 {
        assert r[1] == rest[0];
      }
      assert forall k :: 0 < k < |r| - 1 ==> r[k] == rest[k - 1] && r[k + 1] == rest[k];
    }
  }

  /** Taking one step off a multiple of steps takes one off the quotient. */
  lemma DivDown(x: int, step: int)
    requires step > 0 && x >= step
    ensures x / step == (x - step) / step + 1
  {
    var q := (x - step) / step;
    var r := (x - step) % step;
    assert x - step == q * step + r;
    assert x == (q + 1) * step + r;
    DivUnique(x, step, q + 1, r);
  }

  /** Euclidean division has one quotient. */
  lemma DivUnique(x: int, step: int, q: int, r: int)
    requires step > 0 && 0 <= r < step && x == q * step + r
    ensures x / step == q
  {
    var q0, r0 := x / step, x % step;
    assert x == q0 * step + r0 && 0 <= r0 < step;
    assert (q0 - q) * step == r - r0;
    if q0 > q {
      MulAtLeast(q0 - q, step);
    } else if q0 < q {
      MulAtLeast(q - q0, step);
    }
  }

  lemma {:induction false} MulAtLeast(t: int, step: int)
    requires t >= 1 && step > 0
    ensures t * step >= step
    decreases t
  {
    if t > 1 {
      MulAtLeast(t - 1, step);
      assert t * step == (t - 1) * step + step;
    }
  }

  /** The slots at the given minutes of day `d`. */
  function AtMinutes(d: Date, minutes: seq<int>): (r: seq<Moment>)
    ensures |r| == |minutes|
    ensures forall k :: 0 <= k < |r| ==> r[k] == Moment(d, minutes[k])
  {
    if |minutes| == 0 then [] else [Moment(d, minutes[0])] + AtMinutes(d, minutes[1..])
  }

  /** `_generate_slots_for_date(d, start_hm, end_hm, slot_minutes)` as moments.
      Unreadable clock times raise ValueError; the rest is `Slots`. */
  function GenerateSlots(d: Date, startHm: string, endHm: string, slotMinutes: int): (r: Result<seq<Moment>, PyError>)
    requires ValidDate(d)
    ensures ParseClock(startHm).None? || ParseClock(endHm).None? ==> r == Failure(ValueError)
    ensures ParseClock(startHm).Some? && ParseClock(endHm).Some? ==>
      r == Slots(d, ParseClock(startHm).value, ParseClock(endHm).value, slotMinutes)
  {
    WindowSlots(d, ClockWindow(startHm, endHm), slotMinutes)
  }

  /** A working window: start and end minute, both within the day. */
  predicate WithinDay(w: Option<(int, int)>) {
    w.Some? ==> 0 <= w.value.0 < 24 * 60 && 0 <= w.value.1 < 24 * 60
  }

  /** Both clock times read, as the window from the first to the second;
      None when either does not read. */
  function ClockWindow(startHm: string, endHm: string): (r: Option<(int, int)>)
    ensures WithinDay(r)
  {
    var s, e := ParseClock(startHm), ParseClock(endHm);
    if s.Some? && e.Some? then Some((s.value, e.value)) else None
  }

  /** The slots of day `d` in a read window; ValueError when the clock times did not read. */
  function WindowSlots(d: Date, w: Option<(int, int)>, step: int): (r: Result<seq<Moment>, PyError>)
    requires ValidDate(d)
    ensures w.None? ==> r == Failure(ValueError)
    ensures WithinDay(w) && r.Success? ==> forall k :: 0 <= k < |r.value| ==> ValidMoment(r.value[k]) && r.value[k].date == d
  {
    match w
    case None => Failure(ValueError)
    case Some(se) =>
      var r := Slots(d, se.0, se.1, step);
      if WithinDay(w) && step > 0 && r.Success? then
        SlotsShape(d, se.0, se.1, step);
        r
      else
        r
  }

  /** The slots of day `d` from minute `s` to minute `e`: a step outside
      `timedelta`'s range, or a loop test that steps past `datetime.max` (or,
      for a negative step, eventually below `datetime.min`) raises
      OverflowError; a zero step with the start not after the end never returns. */
  function Slots(d: Date, s: int, e: int, step: int): (r: Result<seq<Moment>, PyError>)
    requires ValidDate(d)
    ensures !DeltaInRange(step) ==> r == Failure(OverflowError)
    ensures step <= 0 && DeltaInRange(step) ==>
      (r == Success([]) <==> e < s + step)
      && (r.Failure? ==> r.error == if step == 0 then NeverReturns else OverflowError)
      && (r.Success? ==> r.value == [])
  {
    if !DeltaInRange(step) then Failure(OverflowError)
    else if step > 0 then
      if DayStart(d) + LoopExit(s, e, step) >= EndOfTime then Failure(OverflowError)
      else Success(AtMinutes(d, SlotLoop(s, e, step)))
    else if step == 0 then
      if s <= e then Failure(NeverReturns) else Success([])
    else if s + step <= e then Failure(OverflowError)
    else Success([])
  }

  /** With a positive step the slots of day `d` start at the start time and
      follow each other `slot_minutes` apart, each ending by the end time;
      there are `(end - start) // slot_minutes` of them, none when a single
      slot does not fit. */
  lemma SlotsShape(d: Date, s: int, e: int, step: int)
    requires ValidDate(d) && 0 <= s < 24 * 60 && 0 <= e < 24 * 60 && step > 0
    requires Slots(d, s, e, step).Success?
    ensures var slots := Slots(d, s, e, step).value;
      && |slots| == (if s + step > e then 0 else (e - s) / step)
      && (|slots| > 0 ==> slots[0].minute == s)
      && (forall k :: 0 <= k < |slots| - 1 ==> slots[k + 1].minute == slots[k].minute + step)
      && (forall k :: 0 <= k < |slots| ==>
            ValidMoment(slots[k]) && slots[k].date == d && slots[k].minute + step <= e)
  {
    SlotLoopShape(s, e, step);
  }

  /** On any day but the last one, a step of at most a day never overflows. */
  lemma SlotsFitBeforeMaxDate(d: Date, s: int, e: int, step: int)
    requires ValidDate(d) && d != MaxDate && 0 < step <= 24 * 60
    requires 0 <= s < 24 * 60 && 0 <= e < 24 * 60
    ensures Slots(d, s, e, step).Success?
  {
    var x := LoopExit(s, e, step);
    OrdinalAtMostMax(d);
    assert DayStart(d) + x < EndOfTime;
  }
}
