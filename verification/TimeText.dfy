/**
 Timestamps as text. Every due test and every ordering of the repository compares the strings
 that to_db_time stores, byte by byte; these strings have two lengths, because isoformat leaves
 out a fraction of zero.
 */
module TimeText {
  import opened Tables

  // A UTC datetime.
  datatype DateTime = DateTime(
    year: nat, month: nat, day: nat, hour: nat, minute: nat, second: nat, micro: nat)

  predicate IsLeap(year: nat) {
    year % 4 == 0 && (year % 100 != 0 || year % 400 == 0)
  }

  function DaysInMonth(year: nat, month: nat): nat {
    if month == 2 then (if IsLeap(year) then 29 else 28)
    else if month == 4 || month == 6 || month == 9 || month == 11 then 30
    else 31
  }

  predicate IsDateTime(d: DateTime) {
    && 1 <= d.year <= 9999 && 1 <= d.month <= 12 && 1 <= d.day <= DaysInMonth(d.year, d.month)
    && d.hour < 24 && d.minute < 60 && d.second < 60 && d.micro < 1_000_000
  }

  // ---------------------------------------------------------------- instants

  function DaysBeforeMonth(year: nat, month: nat): nat {
    if month <= 1 then 0 else DaysBeforeMonth(year, month - 1) + DaysInMonth(year, month - 1)
  }

  function DaysBeforeYear(year: nat): nat {
    if year <= 1 then 0 else DaysBeforeYear(year - 1) + DaysBeforeMonth(year - 1, 13)
  }

  function DayNumber(d: DateTime): nat {
    DaysBeforeYear(d.year) + DaysBeforeMonth(d.year, d.month) + d.day
  }

  function SecondNumber(d: DateTime): nat {
    (d.hour * 60 + d.minute) * 60 + d.second
  }

  // Microseconds since the beginning of the calendar.
  function Instant(d: DateTime): Time {
    (DayNumber(d) * 86400 + SecondNumber(d)) * 1_000_000 + d.micro
  }

  // The order of the fields, most significant first.
  predicate Earlier(a: DateTime, b: DateTime) {
    || a.year < b.year
    || (a.year == b.year &&
        (a.month < b.month || (a.month == b.month &&
        (a.day < b.day || (a.day == b.day &&
        (a.hour < b.hour || (a.hour == b.hour &&
        (a.minute < b.minute || (a.minute == b.minute &&
        (a.second < b.second || (a.second == b.second && a.micro < b.micro)))))))))))
  }

  lemma {:induction false} MonthsGrow(year: nat, m: nat, n: nat)
    requires 1 <= m < n
    ensures DaysBeforeMonth(year, m) + DaysInMonth(year, m) <= DaysBeforeMonth(year, n)
    decreases n
  {
    if m + 1 < n {
      MonthsGrow(year, m, n - 1);
    }
  }

  lemma {:induction false} YearsGrow(y: nat, z: nat)
    requires 1 <= y < z
    ensures DaysBeforeYear(y) + DaysBeforeMonth(y, 13) <= DaysBeforeYear(z)
    decreases z
  {
    if y + 1 < z {
      YearsGrow(y, z - 1);
    }
  }

  lemma YearLength(y: nat)
    ensures DaysBeforeMonth(y, 13) == if IsLeap(y) then 366 else 365
  {
    assert DaysBeforeMonth(y, 2) == 31;
    assert DaysBeforeMonth(y, 3) == 31 + DaysInMonth(y, 2);
    assert DaysBeforeMonth(y, 5) == DaysBeforeMonth(y, 3) + 61;
    assert DaysBeforeMonth(y, 7) == DaysBeforeMonth(y, 5) + 61;
    assert DaysBeforeMonth(y, 9) == DaysBeforeMonth(y, 7) + 62;
    assert DaysBeforeMonth(y, 11) == DaysBeforeMonth(y, 9) + 61;
    assert DaysBeforeMonth(y, 13) == DaysBeforeMonth(y, 11) + 61;
  }

  // The leap days up to the year y.
  function LeapDays(y: nat): int {
    y / 4 - y / 100 + y / 400
  }

  lemma FourthYears(y: nat)
    requires y > 0
    ensures y / 4 == (y - 1) / 4 + (if y % 4 == 0 then 1 else 0)
  {
  }

  lemma Fours(n: nat, q: nat, r: nat)
    requires r < 4 && n == 4 * q + r
    ensures n / 4 == q && n % 4 == r
  {
  }

  lemma Hundreds(n: nat, q: nat, r: nat)
    requires r < 100 && n == 100 * q + r
    ensures n / 100 == q && n % 100 == r
  {
    var d := n / 100 - q;
    assert 100 * d == r - n % 100;
  }

  lemma HundredthYears(y: nat)
    requires y > 0
    ensures y / 100 == (y - 1) / 100 + (if y % 100 == 0 then 1 else 0)
    ensures y % 100 == 0 ==> y % 4 == 0
  {
    var (q, r) := ((y - 1) / 100, (y - 1) % 100);
    assert y == 100 * q + r + 1;
    if r < 99 {
      Hundreds(y, q, r + 1);
    } else {
      Hundreds(y, q + 1, 0);
      Fours(y, 25 * (q + 1), 0);
    }
  }

  lemma FourHundredthYears(y: nat)
    requires y > 0
    ensures y / 400 == (y - 1) / 400 + (if y % 400 == 0 then 1 else 0)
    ensures y % 400 == 0 ==> y % 100 == 0
  {
    var (q, r) := ((y - 1) / 400, (y - 1) % 400);
    assert y == 400 * q + r + 1;
    if r < 399 {
      FourHundreds(y, q, r + 1);
    } else {
      FourHundreds(y, q + 1, 0);
      Hundreds(y, 4 * (q + 1), 0);
    }
  }

  lemma FourHundreds(n: nat, q: nat, r: nat)
    requires r < 400 && n == 400 * q + r
    ensures n / 400 == q && n % 400 == r
  {
    var d := n / 400 - q;
    assert 400 * d == r - n % 400;
  }

  lemma LeapDaysGrow(y: nat)
    requires y > 0
    ensures LeapDays(y) == LeapDays(y - 1) + (if IsLeap(y) then 1 else 0)
  {
    FourthYears(y);
    HundredthYears(y);
    FourHundredthYears(y);
  }

  lemma {:induction false} DaysAndLeapDays(y: nat)
    ensures DaysBeforeYear(y + 1) == 365 * y + LeapDays(y)
  {
    if y > 0 {
      DaysAndLeapDays(y - 1);
      YearLength(y);
      LeapDaysGrow(y);
    }
  }

  /** The calendar is the Gregorian one: a day more in every fourth year, none in the hundredth,
      one in the four hundredth. */
  lemma DaysAreGregorian(y: nat)
    ensures DaysBeforeYear(y + 1) == 365 * y + y / 4 - y / 100 + y / 400
  {
    DaysAndLeapDays(y);
  }

  lemma EarlierDay(a: DateTime, b: DateTime)
    requires IsDateTime(a) && IsDateTime(b)
    requires a.year < b.year || (a.year == b.year && a.month < b.month)
    ensures DayNumber(a) < DayNumber(b)
  {
    if a.year < b.year {
      YearsGrow(a.year, b.year);
      MonthsGrow(a.year, a.month, 13);
    } else {
      MonthsGrow(a.year, a.month, b.month);
    }
  }

  lemma EarlierInstant(a: DateTime, b: DateTime)
    requires IsDateTime(a) && IsDateTime(b) && Earlier(a, b)
    ensures Instant(a) < Instant(b)
  {
    if a.year != b.year || a.month != b.month {
      EarlierDay(a, b);
    }
    assert SecondNumber(a) < 86400 && SecondNumber(b) < 86400;
  }

  lemma FieldsAreComparable(a: DateTime, b: DateTime)
    ensures Earlier(a, b) || Earlier(b, a) || a == b
  {
  }

  /** Comparing the fields is comparing the instants. */
  lemma FieldOrderIsTimeOrder(a: DateTime, b: DateTime)
    requires IsDateTime(a) && IsDateTime(b)
    ensures Earlier(a, b) <==> Instant(a) < Instant(b)
  {
    FieldsAreComparable(a, b);
    if Earlier(a, b) {
      EarlierInstant(a, b);
    } else if Earlier(b, a) {
      EarlierInstant(b, a);
    }
  }

  // ---------------------------------------------------------------- strings

  // Byte-wise comparison; the strings are ASCII.
  predicate Less(s: string, t: string) {
    t != [] && (s == [] || s[0] < t[0] || (s[0] == t[0] && Less(s[1..], t[1..])))
  }

  lemma {:induction false} LessAfterPrefix(p: string, s: string, t: string)
    ensures Less(p + s, p + t) <==> Less(s, t)
  {
    if p == [] {
      assert p + s == s && p + t == t;
    } else {
      LessAfterPrefix(p[1..], s, t);
      assert (p + s)[1..] == p[1..] + s && (p + t)[1..] == p[1..] + t;
    }
  }

  lemma {:induction false} LessByHead(a: string, b: string, s: string, t: string)
    requires |a| == |b| && a != b
    ensures Less(a + s, b + t) <==> Less(a, b)
    decreases |a|
  {
    if a[0] == b[0] {
      assert a == [a[0]] + a[1..] && b == [b[0]] + b[1..];
      LessByHead(a[1..], b[1..], s, t);
      assert (a + s)[1..] == a[1..] + s && (b + t)[1..] == b[1..] + t;
    }
  }

  function Digit(d: nat): char
    requires d < 10
  {
    '0' + d as char
  }

  function Pow10(w: nat): nat {
    if w == 0 then 1 else 10 * Pow10(w - 1)
  }

  // `n` in `w` decimal digits, with leading zeros.
  function Pad(n: nat, w: nat): (s: string)
    ensures |s| == w
  {
    if w == 0 then "" else Pad(n / 10, w - 1) + [Digit(n % 10)]
  }

  lemma {:induction false} PadOrder(n: nat, m: nat, w: nat)
    requires n < Pow10(w) && m < Pow10(w)
    ensures Less(Pad(n, w), Pad(m, w)) <==> n < m
    ensures Pad(n, w) == Pad(m, w) <==> n == m
    decreases w
  {
    if w > 0 {
      var (a, b) := (Pad(n / 10, w - 1), Pad(m / 10, w - 1));
      PadOrder(n / 10, m / 10, w - 1);
      assert Pad(n, w)[..w - 1] == a && Pad(m, w)[..w - 1] == b;
      if n / 10 == m / 10 {
        LessAfterPrefix(a, [Digit(n % 10)], [Digit(m % 10)]);
        assert Pad(n, w)[w - 1] == Digit(n % 10) && Pad(m, w)[w - 1] == Digit(m % 10);
      } else {
        LessByHead(a, b, [Digit(n % 10)], [Digit(m % 10)]);
      }
    }
  }

  // A fixed-width field decides the comparison unless it is equal in both strings.
  lemma FieldDecides(n: nat, m: nat, w: nat, s: string, t: string)
    requires n < Pow10(w) && m < Pow10(w)
    ensures Less(Pad(n, w) + s, Pad(m, w) + t) <==> n < m || (n == m && Less(s, t))
  {
    PadOrder(n, m, w);
    if n == m {
      LessAfterPrefix(Pad(n, w), s, t);
    } else {
      LessByHead(Pad(n, w), Pad(m, w), s, t);
    }
  }

  // ---------------------------------------------------------------- to_db_time

  const UTC := "+00:00"

  // isoformat writes no fraction when there are no microseconds.
  function Fraction(d: DateTime): string {
    (if d.micro == 0 then "" else "." + Pad(d.micro, 6)) + UTC
  }

  function FromSecond(d: DateTime): string { Pad(d.second, 2) + Fraction(d) }
  function FromMinute(d: DateTime): string { Pad(d.minute, 2) + (":" + FromSecond(d)) }
  function FromHour(d: DateTime): string { Pad(d.hour, 2) + (":" + FromMinute(d)) }
  function FromDay(d: DateTime): string { Pad(d.day, 2) + ("T" + FromHour(d)) }
  function FromMonth(d: DateTime): string { Pad(d.month, 2) + ("-" + FromDay(d)) }

  // YYYY-MM-DDTHH:MM:SS[.ffffff]+00:00
  function ToDbTime(d: DateTime): string { Pad(d.year, 4) + ("-" + FromMonth(d)) }

  /** The two lengths, and the marks at their places. */
  lemma TextShape(d: DateTime)
    requires IsDateTime(d)
    ensures var s := ToDbTime(d);
            && |s| == (if d.micro == 0 then 25 else 32)
            && s[4] == '-' && s[7] == '-' && s[10] == 'T' && s[13] == ':' && s[16] == ':'
            && s[19] == (if d.micro == 0 then '+' else '.')
            && s[|s| - 6..] == "+00:00"
  {
  }

  // A string without a fraction comes first, because '+' sorts before '.'.
  lemma FractionOrder(a: DateTime, b: DateTime)
    requires IsDateTime(a) && IsDateTime(b)
    ensures Less(Fraction(a), Fraction(b)) <==> a.micro < b.micro
  {
    assert Pow10(6) == 1_000_000;
    if a.micro == 0 || b.micro == 0 {
      LessAfterPrefix(UTC, "", "");
      assert UTC + "" == UTC;
      assert a.micro == 0 ==> Fraction(a) == UTC;
      assert b.micro == 0 ==> Fraction(b) == UTC;
      assert a.micro != 0 ==> Fraction(a)[0] == '.';
      assert b.micro != 0 ==> Fraction(b)[0] == '.';
      assert UTC[0] == '+' && '+' < '.';
    } else {
      assert Fraction(a) == "." + (Pad(a.micro, 6) + UTC);
      assert Fraction(b) == "." + (Pad(b.micro, 6) + UTC);
      LessAfterPrefix(".", Pad(a.micro, 6) + UTC, Pad(b.micro, 6) + UTC);
      FieldDecides(a.micro, b.micro, 6, UTC, UTC);
      LessAfterPrefix(UTC, "", "");
      assert UTC + "" == UTC;
    }
  }

  lemma ClockOrder(a: DateTime, b: DateTime)
    requires IsDateTime(a) && IsDateTime(b)
    ensures Less(FromHour(a), FromHour(b)) <==>
            (a.hour < b.hour || (a.hour == b.hour &&
            (a.minute < b.minute || (a.minute == b.minute &&
            (a.second < b.second || (a.second == b.second && a.micro < b.micro))))))
  {
    assert Pow10(2) == 100;
    FractionOrder(a, b);
    FieldDecides(a.second, b.second, 2, Fraction(a), Fraction(b));
    LessAfterPrefix(":", FromSecond(a), FromSecond(b));
    FieldDecides(a.minute, b.minute, 2, ":" + FromSecond(a), ":" + FromSecond(b));
    LessAfterPrefix(":", FromMinute(a), FromMinute(b));
    FieldDecides(a.hour, b.hour, 2, ":" + FromMinute(a), ":" + FromMinute(b));
  }

  lemma TextOrderIsFieldOrder(a: DateTime, b: DateTime)
    requires IsDateTime(a) && IsDateTime(b)
    ensures Less(ToDbTime(a), ToDbTime(b)) <==> Earlier(a, b)
  {
    assert Pow10(2) == 100 && Pow10(4) == 10000;
    ClockOrder(a, b);
    LessAfterPrefix("T", FromHour(a), FromHour(b));
    FieldDecides(a.day, b.day, 2, "T" + FromHour(a), "T" + FromHour(b));
    LessAfterPrefix("-", FromDay(a), FromDay(b));
    FieldDecides(a.month, b.month, 2, "-" + FromDay(a), "-" + FromDay(b));
    LessAfterPrefix("-", FromMonth(a), FromMonth(b));
    FieldDecides(a.year, b.year, 4, "-" + FromMonth(a), "-" + FromMonth(b));
  }

  /** Text order is time order, for all UTC datetimes of the years 1 to 9999 and although the
      strings differ in length. */
  lemma TextOrderIsTimeOrder(a: DateTime, b: DateTime)
    requires IsDateTime(a) && IsDateTime(b)
    ensures Less(ToDbTime(a), ToDbTime(b)) <==> Instant(a) < Instant(b)
  {
    TextOrderIsFieldOrder(a, b);
    FieldOrderIsTimeOrder(a, b);
  }

  lemma {:induction false} NotLessThanItself(s: string)
    ensures !Less(s, s)
  {
    if s != [] {
      NotLessThanItself(s[1..]);
    }
  }

  /** Equal texts are equal instants: a unique index on the text is one on the time. */
  lemma EqualTextIsEqualTime(a: DateTime, b: DateTime)
    requires IsDateTime(a) && IsDateTime(b)
    ensures ToDbTime(a) == ToDbTime(b) <==> Instant(a) == Instant(b)
  {
    TextOrderIsTimeOrder(a, b);
    TextOrderIsTimeOrder(b, a);
    NotLessThanItself(ToDbTime(a));
    if Instant(a) == Instant(b) {
      FieldsAreComparable(a, b);
      FieldOrderIsTimeOrder(a, b);
      FieldOrderIsTimeOrder(b, a);
    }
  }

  // ---------------------------------------------------------------- parse_db_time

  predicate IsDigit(c: char) {
    '0' <= c <= '9'
  }

  // The first `w` characters of `s` as a number, and the rest.
  function ReadField(s: string, w: nat): Option<(nat, string)> {
    if |s| < w then None
    else if w == 0 then Some((0, s))
    else
      var init := ReadField(s[..w - 1], w - 1);
      if init.None? || !IsDigit(s[w - 1]) then None
      else Some((10 * init.value.0 + (s[w - 1] - '0') as nat, s[w..]))
  }

  function ReadMark(s: Option<(nat, string)>, c: char): Option<string> {
    if s.Some? && |s.value.1| > 0 && s.value.1[0] == c then Some(s.value.1[1..]) else None
  }

  // The strings that isoformat writes for UTC; a field out of range is refused.
  function ParseDbTime(s: string): (r: Option<DateTime>)
    ensures r.Some? ==> IsDateTime(r.value)
  {
    var year := ReadField(s, 4);
    var s1 := ReadMark(year, '-');
    if s1.None? then None else
    var month := ReadField(s1.value, 2);
    var s2 := ReadMark(month, '-');
    if s2.None? then None else
    var day := ReadField(s2.value, 2);
    var s3 := ReadMark(day, 'T');
    if s3.None? then None else
    var hour := ReadField(s3.value, 2);
    var s4 := ReadMark(hour, ':');
    if s4.None? then None else
    var minute := ReadField(s4.value, 2);
    var s5 := ReadMark(minute, ':');
    if s5.None? then None else
    var second := ReadField(s5.value, 2);
    if second.None? then None else
    var tail := ReadTail(second.value.1);
    if tail.None? then None else
    var d := DateTime(year.value.0, month.value.0, day.value.0, hour.value.0, minute.value.0, second.value.0, tail.value);
    if IsDateTime(d) then Some(d) else None
  }

  // "[.ffffff]+00:00"
  function ReadTail(s: string): Option<nat> {
    if s == UTC then Some(0)
    else
      var s1 := ReadMark(Some((0, s)), '.');
      if s1.None? then None else
      var micro := ReadField(s1.value, 6);
      if micro.Some? && micro.value.1 == UTC then Some(micro.value.0) else None
  }

  lemma {:induction false} ReadPad(n: nat, w: nat, t: string)
    requires n < Pow10(w)
    ensures ReadField(Pad(n, w) + t, w) == Some((n, t))
    decreases w
  {
    if w > 0 {
      var s := Pad(n, w) + t;
      ReadPad(n / 10, w - 1, "");
      assert s[..w - 1] == Pad(n / 10, w - 1) + "";
      assert s[w - 1] == Digit(n % 10);
      assert s[w..] == t;
    } else {
      assert Pad(n, 0) + t == t;
    }
  }

  lemma ReadMarked(n: nat, w: nat, c: char, t: string)
    requires n < Pow10(w)
    ensures ReadField(Pad(n, w) + ([c] + t), w) == Some((n, [c] + t))
    ensures ReadMark(ReadField(Pad(n, w) + ([c] + t), w), c) == Some(t)
  {
    ReadPad(n, w, [c] + t);
  }

  lemma TailRoundTrip(d: DateTime)
    requires IsDateTime(d)
    ensures ReadTail(Fraction(d)) == Some(d.micro)
  {
    assert Pow10(6) == 1_000_000;
    if d.micro == 0 {
      assert Fraction(d) == UTC;
    } else {
      assert Fraction(d) == "." + (Pad(d.micro, 6) + UTC);
      ReadPad(d.micro, 6, UTC);
      assert Fraction(d)[0] == '.' && UTC[0] == '+';
      assert Fraction(d)[1..] == Pad(d.micro, 6) + UTC;
    }
  }

  /** parse_db_time undoes to_db_time. */
  lemma RoundTrip(d: DateTime)
    requires IsDateTime(d)
    ensures ParseDbTime(ToDbTime(d)) == Some(d)
  {
    assert Pow10(2) == 100 && Pow10(4) == 10000;
    ReadMarked(d.year, 4, '-', FromMonth(d));
    ReadMarked(d.month, 2, '-', FromDay(d));
    ReadMarked(d.day, 2, 'T', FromHour(d));
    ReadMarked(d.hour, 2, ':', FromMinute(d));
    ReadMarked(d.minute, 2, ':', FromSecond(d));
    ReadPad(d.second, 2, Fraction(d));
    TailRoundTrip(d);
  }

  // ---------------------------------------------------------------- what the SQL compares

  // The time `t` of the model is stored as the text of `d`.
  predicate Stores(t: Time, d: DateTime) {
    IsDateTime(d) && Instant(d) == t
  }

  // run_at <= now on the stored strings.
  predicate DueText(job: Job, runAt: string, now: string) {
    job.status == Queued && !Less(now, runAt)
  }

  // ORDER BY priority DESC, run_at ASC, created_at ASC on the stored strings.
  predicate BeforeText(a: Job, runA: string, createdA: string, b: Job, runB: string, createdB: string) {
    a.priority > b.priority
    || (a.priority == b.priority && (Less(runA, runB) || (runA == runB && Less(createdA, createdB))))
  }

  /** So the filters and orderings of the SQL select what comparing instants would. */
  lemma FilterIsOnInstants(job: Job, runAt: DateTime, now: Time, nowDt: DateTime)
    requires Stores(job.runAt, runAt) && Stores(now, nowDt)
    ensures DueText(job, ToDbTime(runAt), ToDbTime(nowDt)) <==> Due(job, now)
  {
    TextOrderIsTimeOrder(nowDt, runAt);
  }

  lemma OrderingIsOnInstants(a: Job, runA: DateTime, createdA: DateTime, b: Job, runB: DateTime, createdB: DateTime)
    requires Stores(a.runAt, runA) && Stores(a.createdAt, createdA)
    requires Stores(b.runAt, runB) && Stores(b.createdAt, createdB)
    ensures BeforeText(a, ToDbTime(runA), ToDbTime(createdA), b, ToDbTime(runB), ToDbTime(createdB)) <==> Before(a, b)
  {
    TextOrderIsTimeOrder(runA, runB);
    EqualTextIsEqualTime(runA, runB);
    TextOrderIsTimeOrder(createdA, createdB);
  }
}
