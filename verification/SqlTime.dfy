/** The text every timestamp is stored in (internal/storage/sqlite.go:34-39) and the bucket
    strings the roll-up derives from it. SQL compares these strings byte by byte; the main
    theorem says that this decides real time order. */
module SqlTime {
  import opened Arithmetic
  import opened Decimal

  // ---- the calendar: UTC instants of years 0000 to 9999 ----

  datatype Civil = Civil(year: nat, month: nat, day: nat, hour: nat, minute: nat, second: nat, milli: nat)

  predicate IsLeap(y: nat) {
    y % 4 == 0 && (y % 100 != 0 || y % 400 == 0)
  }

  function DaysInYear(y: nat): nat {
    if IsLeap(y) then 366 else 365
  }

  function DaysInMonth(y: nat, m: nat): nat {
    if m == 2 then (if IsLeap(y) then 29 else 28)
    else if m in {4, 6, 9, 11} then 30
    else 31
  }

  /** Days from year 0 to year y: of every 400 years 97 are leap years, year 0 among them. */
  function DaysBeforeYear(y: nat): int {
    365 * y + (y + 3) / 4 - (y + 99) / 100 + (y + 399) / 400
  }

  lemma NextYear(y: nat)
    ensures DaysBeforeYear(y + 1) == DaysBeforeYear(y) + DaysInYear(y)
  {
    var q := y / 400;
    var r := y - 400 * q;
    LeapSteps(y, q, r);
  }

  /** How the three quotients of DaysBeforeYear step from y to y + 1. */
  lemma LeapSteps(y: nat, q: nat, r: nat)
    requires y == 400 * q + r && r < 400
    ensures (y + 4) / 4 == (y + 3) / 4 + if y % 4 == 0 then 1 else 0
    ensures (y + 100) / 100 == (y + 99) / 100 + if y % 100 == 0 then 1 else 0
    ensures (y + 400) / 400 == (y + 399) / 400 + if y % 400 == 0 then 1 else 0
    ensures y % 400 == 0 ==> y % 100 == 0
    ensures y % 100 == 0 ==> y % 4 == 0
  {}

  function DaysBeforeMonth(y: nat, m: nat): nat {
    if m <= 1 then 0 else DaysBeforeMonth(y, m - 1) + DaysInMonth(y, m - 1)
  }

  predicate Valid(c: Civil) {
    && c.year <= 9999 && 1 <= c.month <= 12 && 1 <= c.day <= DaysInMonth(c.year, c.month)
    && c.hour < 24 && c.minute < 60 && c.second < 60 && c.milli < 1000
  }

  function DayNumber(c: Civil): int {
    DaysBeforeYear(c.year) + DaysBeforeMonth(c.year, c.month) + c.day - 1
  }

  /** Milliseconds since 0000-01-01 00:00:00. */
  function Millis(c: Civil): int {
    (((DayNumber(c) * 24 + c.hour) * 60 + c.minute) * 60 + c.second) * 1000 + c.milli
  }

  /** Instants, in milliseconds, that the text can hold. */
  ghost predicate InRange(ms: int) {
    0 <= ms < DaysBeforeYear(10_000) * 86_400_000
  }

  lemma {:induction false} YearsGrow(a: nat, b: nat)
    requires a < b
    ensures DaysBeforeYear(a) + DaysInYear(a) <= DaysBeforeYear(b)
  {
    NextYear(b - 1);
    if a < b - 1 { YearsGrow(a, b - 1); }
  }

  lemma {:induction false} MonthsGrow(y: nat, a: nat, b: nat)
    requires 1 <= a < b
    ensures DaysBeforeMonth(y, a) + DaysInMonth(y, a) <= DaysBeforeMonth(y, b)
  {
    if a < b - 1 { MonthsGrow(y, a, b - 1); }
  }

  lemma YearHolds(y: nat)
    ensures DaysBeforeMonth(y, 12) + DaysInMonth(y, 12) == DaysInYear(y)
  {
    assert DaysBeforeMonth(y, 2) == 31;
    assert DaysBeforeMonth(y, 4) == 62 + DaysInMonth(y, 2);
    assert DaysBeforeMonth(y, 6) == 123 + DaysInMonth(y, 2);
    assert DaysBeforeMonth(y, 8) == 184 + DaysInMonth(y, 2);
    assert DaysBeforeMonth(y, 10) == 245 + DaysInMonth(y, 2);
  }

  lemma DayInYear(c: Civil)
    requires Valid(c)
    ensures DaysBeforeYear(c.year) <= DayNumber(c) < DaysBeforeYear(c.year) + DaysInYear(c.year)
  {
    YearHolds(c.year);
    if c.month < 12 { MonthsGrow(c.year, c.month, 12); }
  }

  /** Field-by-field order of two civil times. */
  predicate Earlier(a: Civil, b: Civil) {
    if a.year != b.year then a.year < b.year
    else if a.month != b.month then a.month < b.month
    else if a.day != b.day then a.day < b.day
    else if a.hour != b.hour then a.hour < b.hour
    else if a.minute != b.minute then a.minute < b.minute
    else if a.second != b.second then a.second < b.second
    else a.milli < b.milli
  }

  lemma EarlierDay(a: Civil, b: Civil)
    requires Valid(a) && Valid(b)
    requires a.year < b.year || (a.year == b.year && (a.month < b.month || (a.month == b.month && a.day < b.day)))
    ensures DayNumber(a) < DayNumber(b)
  {
    if a.year < b.year {
      DayInYear(a); DayInYear(b);
      YearsGrow(a.year, b.year);
    } else if a.month < b.month {
      MonthsGrow(a.year, a.month, b.month);
    }
  }

  lemma EarlierIsBefore(a: Civil, b: Civil)
    requires Valid(a) && Valid(b) && Earlier(a, b)
    ensures Millis(a) < Millis(b)
  {
    if a.year != b.year || a.month != b.month || a.day != b.day { EarlierDay(a, b); }
  }

  /** The calendar is an order isomorphism. */
  lemma EarlierIffBefore(a: Civil, b: Civil)
    requires Valid(a) && Valid(b)
    ensures Earlier(a, b) <==> Millis(a) < Millis(b)
    ensures a == b <==> Millis(a) == Millis(b)
  {
    if Earlier(a, b) { EarlierIsBefore(a, b); }
    else if a != b { EarlierIsBefore(b, a); }
  }

  function FindYear(day: nat, y: nat): (r: nat)
    requires DaysBeforeYear(y) <= day && y <= 9999 && day < DaysBeforeYear(10_000)
    ensures y <= r <= 9999 && DaysBeforeYear(r) <= day < DaysBeforeYear(r) + DaysInYear(r)
    decreases 9999 - y
  {
    NextYear(y);
    if day < DaysBeforeYear(y + 1) then y else FindYear(day, y + 1)
  }

  function FindMonth(y: nat, day: nat, m: nat): (r: nat)
    requires 1 <= m <= 12 && DaysBeforeMonth(y, m) <= day < DaysInYear(y)
    ensures m <= r <= 12 && DaysBeforeMonth(y, r) <= day < DaysBeforeMonth(y, r) + DaysInMonth(y, r)
    decreases 12 - m
  {
    if m == 12 then YearHolds(y); 12
    else if day < DaysBeforeMonth(y, m + 1) then m
    else FindMonth(y, day, m + 1)
  }

  /** The civil time of an instant. */
  function CivilOf(ms: int): (c: Civil)
    requires InRange(ms)
    ensures Valid(c) && Millis(c) == ms
  {
    var seconds := ms / 1000;
    var minutes := seconds / 60;
    var hours := minutes / 60;
    var day := hours / 24;
    var y := FindYear(day, 0);
    var m := FindMonth(y, day - DaysBeforeYear(y), 1);
    Civil(y, m, day - DaysBeforeYear(y) - DaysBeforeMonth(y, m) + 1, hours % 24, minutes % 60, seconds % 60, ms % 1000)
  }

  // ---- the text ----

  function Pad2(n: nat): string
    requires n < 100
  {
    [DigitChar(n / 10), DigitChar(n % 10)]
  }

  function Pad4(n: nat): string
    requires n < 10_000
  {
    Pad2(n / 100) + Pad2(n % 100)
  }

  /** ".999": up to three digits, trailing zeros and a bare dot dropped. */
  function Fraction(milli: nat): string
    requires milli < 1000
  {
    if milli == 0 then ""
    else if milli % 100 == 0 then ['.', DigitChar(milli / 100)]
    else if milli % 10 == 0 then ['.'] + Pad2(milli / 10)
    else ['.', DigitChar(milli / 100)] + Pad2(milli % 100)
  }

  function FromSecond(c: Civil): string
    requires Valid(c)
  {
    Pad2(c.second) + Fraction(c.milli)
  }

  function FromHour(c: Civil): string
    requires Valid(c)
  {
    Pad2(c.hour) + (":" + (Pad2(c.minute) + (":" + FromSecond(c))))
  }

  /** 2006-01-02 15:04:05.999 */
  function Text(c: Civil): string
    requires Valid(c)
  {
    Pad4(c.year) + ("-" + (Pad2(c.month) + ("-" + (Pad2(c.day) + (" " + FromHour(c))))))
  }

  /** sqlTime of an instant in nanoseconds. */
  function SqlTime(ns: int): string
    requires InRange(ns / 1_000_000)
  {
    Text(CivilOf(ns / 1_000_000))
  }

  // ---- byte order ----

  /** memcmp, then length: SQLite's order on text. */
  predicate Less(a: string, b: string) {
    if |b| == 0 then false
    else if |a| == 0 then true
    else if a[0] != b[0] then a[0] < b[0]
    else Less(a[1..], b[1..])
  }

  lemma {:induction false} LessAppend(p: string, q: string, x: string, y: string)
    requires |p| == |q|
    ensures Less(p + x, q + y) <==> Less(p, q) || (p == q && Less(x, y))
  {
    if |p| == 0 {
      assert p + x == x && q + y == y;
    } else {
      assert (p + x)[1..] == p[1..] + x && (q + y)[1..] == q[1..] + y;
      assert p == [p[0]] + p[1..] && q == [q[0]] + q[1..];
      LessAppend(p[1..], q[1..], x, y);
    }
  }

  lemma DigitOrder(m: nat, n: nat)
    requires m < 10 && n < 10
    ensures DigitChar(m) < DigitChar(n) <==> m < n
    ensures DigitChar(m) == DigitChar(n) <==> m == n
  {}

  lemma LessStep(a: string, b: string)
    requires |a| > 0 && |b| > 0
    ensures Less(a, b) <==> a[0] < b[0] || (a[0] == b[0] && Less(a[1..], b[1..]))
  {}

  lemma LessThree(a: string, b: string)
    requires 1 <= |a| <= 3 && 1 <= |b| <= 3
    ensures Less(a, b) <==>
            || a[0] < b[0]
            || (a[0] == b[0] && |b| > 1
                && (|a| == 1 || a[1] < b[1] || (a[1] == b[1] && |b| > 2 && (|a| == 2 || a[2] < b[2]))))
  {
    LessStep(a, b);
    if |a| > 1 && |b| > 1 {
      LessStep(a[1..], b[1..]);
      assert a[1..][1..] == a[2..] && b[1..][1..] == b[2..];
      if |a| > 2 && |b| > 2 {
        LessStep(a[2..], b[2..]);
        assert a[2..][1..] == [] && b[2..][1..] == [];
      }
    }
  }

  lemma Pad2Order(m: nat, n: nat)
    requires m < 100 && n < 100
    ensures Less(Pad2(m), Pad2(n)) <==> m < n
    ensures Pad2(m) == Pad2(n) <==> m == n
  {
    LessThree(Pad2(m), Pad2(n));
    DigitOrder(m / 10, n / 10);
    DigitOrder(m % 10, n % 10);
    if Pad2(m) == Pad2(n) { assert Pad2(m)[0] == Pad2(n)[0] && Pad2(m)[1] == Pad2(n)[1]; }
  }

  lemma FieldOrder(m: nat, n: nat, x: string, y: string)
    requires m < 100 && n < 100
    ensures Less(Pad2(m) + x, Pad2(n) + y) <==> m < n || (m == n && Less(x, y))
  {
    Pad2Order(m, n);
    LessAppend(Pad2(m), Pad2(n), x, y);
  }

  lemma SeparatorOrder(c: char, x: string, y: string)
    ensures Less([c] + x, [c] + y) <==> Less(x, y)
  {
    LessAppend([c], [c], x, y);
    assert [c][1..] == [];
  }

  /** The kept digits of d0 d1 d2, as Fraction keeps them after the dot. */
  function Trimmed(d0: nat, d1: nat, d2: nat): string
    requires d0 < 10 && d1 < 10 && d2 < 10
  {
    if d1 == 0 && d2 == 0 then [DigitChar(d0)]
    else if d2 == 0 then [DigitChar(d0), DigitChar(d1)]
    else [DigitChar(d0), DigitChar(d1), DigitChar(d2)]
  }

  lemma FractionTrims(d0: nat, d1: nat, d2: nat)
    requires d0 < 10 && d1 < 10 && d2 < 10 && 0 < d0 + d1 + d2
    ensures Fraction(100 * d0 + 10 * d1 + d2) == "." + Trimmed(d0, d1, d2)
  {
    var n := 100 * d0 + 10 * d1 + d2;
    assert n / 100 == d0 && n % 100 == 10 * d1 + d2;
    assert n / 10 == 10 * d0 + d1 && n % 10 == d2;
  }

  /** Dropping trailing zeros keeps the order. */
  lemma TrimmedOrder(a0: nat, a1: nat, a2: nat, b0: nat, b1: nat, b2: nat)
    requires a0 < 10 && a1 < 10 && a2 < 10 && b0 < 10 && b1 < 10 && b2 < 10
    ensures Less(Trimmed(a0, a1, a2), Trimmed(b0, b1, b2)) <==>
            a0 < b0 || (a0 == b0 && (a1 < b1 || (a1 == b1 && a2 < b2)))
  {
    LessThree(Trimmed(a0, a1, a2), Trimmed(b0, b1, b2));
    DigitOrder(a0, b0);
    DigitOrder(a1, b1);
    DigitOrder(a2, b2);
  }

  lemma FractionEmpty(m: nat)
    requires m < 1000
    ensures Fraction(m) == "" <==> m == 0
  {
    hide Pad2;
  }

  lemma LessEmpty(a: string)
    ensures Less("", a) <==> a != ""
    ensures !Less(a, "")
  {}

  lemma FractionOrder(m: nat, n: nat)
    requires m < 1000 && n < 1000
    ensures Less(Fraction(m), Fraction(n)) <==> m < n
  {
    hide Fraction, Less;
    FractionEmpty(m);
    FractionEmpty(n);
    LessEmpty(Fraction(m));
    LessEmpty(Fraction(n));
    if m > 0 && n > 0 {
      DecimalDigits(m);
      DecimalDigits(n);
      TrimmedFractions(m / 100, m / 10 % 10, m % 10, n / 100, n / 10 % 10, n % 10);
    }
  }

  lemma TrimmedFractions(m0: nat, m1: nat, m2: nat, n0: nat, n1: nat, n2: nat)
    requires m0 < 10 && m1 < 10 && m2 < 10 && 0 < m0 + m1 + m2
    requires n0 < 10 && n1 < 10 && n2 < 10 && 0 < n0 + n1 + n2
    ensures var m, n := 100 * m0 + 10 * m1 + m2, 100 * n0 + 10 * n1 + n2;
            Less(Fraction(m), Fraction(n)) <==> m < n
  {
    hide Fraction, Trimmed, Less;
    FractionTrims(m0, m1, m2);
    FractionTrims(n0, n1, n2);
    SeparatorOrder('.', Trimmed(m0, m1, m2), Trimmed(n0, n1, n2));
    TrimmedOrder(m0, m1, m2, n0, n1, n2);
  }

  lemma DecimalDigits(n: nat)
    requires n < 1000
    ensures n / 100 < 10 && n == 100 * (n / 100) + 10 * (n / 10 % 10) + n % 10
  {}

  lemma YearOrder(m: nat, n: nat, x: string, y: string)
    requires m < 10_000 && n < 10_000
    ensures Less(Pad4(m) + x, Pad4(n) + y) <==> m < n || (m == n && Less(x, y))
  {
    FieldOrder(m / 100, n / 100, Pad2(m % 100) + x, Pad2(n % 100) + y);
    FieldOrder(m % 100, n % 100, x, y);
    assert Pad4(m) + x == Pad2(m / 100) + (Pad2(m % 100) + x);
    assert Pad4(n) + y == Pad2(n / 100) + (Pad2(n % 100) + y);
  }

  lemma TextOrder(a: Civil, b: Civil)
    requires Valid(a) && Valid(b)
    ensures Less(Text(a), Text(b)) <==> Earlier(a, b)
  {
    FractionOrder(a.milli, b.milli);
    FieldOrder(a.second, b.second, Fraction(a.milli), Fraction(b.milli));
    var s0, s1 := FromSecond(a), FromSecond(b);
    SeparatorOrder(':', s0, s1);
    FieldOrder(a.minute, b.minute, ":" + s0, ":" + s1);
    var m0, m1 := Pad2(a.minute) + (":" + s0), Pad2(b.minute) + (":" + s1);
    SeparatorOrder(':', m0, m1);
    FieldOrder(a.hour, b.hour, ":" + m0, ":" + m1);
    SeparatorOrder(' ', FromHour(a), FromHour(b));
    FieldOrder(a.day, b.day, " " + FromHour(a), " " + FromHour(b));
    var d0, d1 := Pad2(a.day) + (" " + FromHour(a)), Pad2(b.day) + (" " + FromHour(b));
    SeparatorOrder('-', d0, d1);
    FieldOrder(a.month, b.month, "-" + d0, "-" + d1);
    var n0, n1 := Pad2(a.month) + ("-" + d0), Pad2(b.month) + ("-" + d1);
    SeparatorOrder('-', n0, n1);
    YearOrder(a.year, b.year, "-" + n0, "-" + n1);
  }

  lemma {:induction false} LessIrreflexive(a: string)
    ensures !Less(a, a)
  {
    if |a| == 0 {
    } else {
      LessIrreflexive(a[1..]);
    }
  }

  /** sqlTime is an order embedding: byte order of the texts is the order of the instants
      truncated to milliseconds, and equal texts are equal truncated instants. Hence every
      SQL <, <= and >= on stored timestamps decides time order. */
  lemma SqlTimeOrder(a: int, b: int)
    requires InRange(a / 1_000_000) && InRange(b / 1_000_000)
    ensures Less(SqlTime(a), SqlTime(b)) <==> a / 1_000_000 < b / 1_000_000
    ensures SqlTime(a) == SqlTime(b) <==> a / 1_000_000 == b / 1_000_000
  {
    var x, y := CivilOf(a / 1_000_000), CivilOf(b / 1_000_000);
    TextOrder(x, y);
    TextOrder(y, x);
    EarlierIffBefore(x, y);
    EarlierIffBefore(y, x);
    LessIrreflexive(SqlTime(a));
  }

  // ---- bucket strings ----

  /** The minute and the five minutes an instant lies in. */
  function MinuteFloor(ms: int): int {
    ms / 60_000 * 60_000
  }

  function FiveFloor(ms: int): int {
    ms / 300_000 * 300_000
  }

  /** (minute / 5) * 5 */
  function FiveField(minute: nat): (m: nat)
    ensures m <= minute
  {
    minute / 5 * 5
  }

  /** strftime('%Y-%m-%d %H:%M:00', text): everything up to the minute, then ":00". */
  function MinuteBucket(text: string): string
    requires |text| >= 16
  {
    text[..16] + ":00"
  }

  /** CAST(strftime('%M', text) AS INTEGER) */
  function MinuteField(text: string): nat
    requires |text| >= 16 && IsDigit(text[14]) && IsDigit(text[15])
  {
    DigitValue(text[14]) * 10 + DigitValue(text[15])
  }

  /** strftime('%Y-%m-%d %H:', text) || printf('%02d', minute / 5 * 5) || ':00' */
  function FiveBucket(text: string): string
    requires |text| >= 16 && IsDigit(text[14]) && IsDigit(text[15])
  {
    text[..14] + Pad2(FiveField(MinuteField(text))) + ":00"
  }

  /** The fixed-width part of the text, up to the hour's colon. */
  function Head(c: Civil): string
    requires Valid(c)
  {
    Pad4(c.year) + "-" + Pad2(c.month) + "-" + Pad2(c.day) + " " + Pad2(c.hour) + ":"
  }

  lemma TextShape(c: Civil)
    requires Valid(c)
    ensures |Head(c)| == 14
    ensures Text(c) == Head(c) + Pad2(c.minute) + ":" + FromSecond(c)
  {
    assert Text(c) == Head(c) + (Pad2(c.minute) + (":" + FromSecond(c)));
  }

  lemma TextParts(c: Civil)
    requires Valid(c)
    ensures var t := Text(c);
            |t| >= 16 && t[..14] == Head(c) && t[..16] == Head(c) + Pad2(c.minute)
            && IsDigit(t[14]) && IsDigit(t[15]) && MinuteField(t) == c.minute
  {
    TextShape(c);
    var t := Text(c);
    assert t[14] == Pad2(c.minute)[0] && t[15] == Pad2(c.minute)[1];
  }

  /** Cutting a civil time to a whole minute, or to a minute divisible by five. */
  lemma FloorCivil(c: Civil, m: nat)
    requires Valid(c) && m <= c.minute
    ensures var f := c.(minute := m, second := 0, milli := 0);
            Valid(f) && Millis(f) == Millis(c) - (c.minute - m) * 60_000 - c.second * 1000 - c.milli
  {}

  lemma FloorMillis(c: Civil)
    requires Valid(c)
    ensures MinuteFloor(Millis(c)) == Millis(c) - c.second * 1000 - c.milli
    ensures FiveFloor(Millis(c)) == Millis(c) - (c.minute - FiveField(c.minute)) * 60_000 - c.second * 1000 - c.milli
  {
    var hours, fives := DayNumber(c) * 24 + c.hour, c.minute / 5;
    FloorMinutes(hours * 60 + c.minute, c.second * 1000 + c.milli);
    FloorFives(hours * 12 + fives, (c.minute - fives * 5) * 60_000 + c.second * 1000 + c.milli);
  }

  lemma FlooredText(c: Civil, m: nat)
    requires Valid(c) && m < 60
    ensures Text(c.(minute := m, second := 0, milli := 0)) == Head(c) + Pad2(m) + ":00"
  {
    var f := c.(minute := m, second := 0, milli := 0);
    TextShape(f);
    assert FromSecond(f) == "00";
    assert Head(f) + Pad2(m) + ":" + "00" == Head(f) + Pad2(m) + ":00";
  }

  lemma CivilOfMillis(f: Civil)
    requires Valid(f) && InRange(Millis(f))
    ensures CivilOf(Millis(f)) == f
  {
    EarlierIffBefore(f, CivilOf(Millis(f)));
  }

  lemma RangeBelow(a: int, b: int)
    requires InRange(b) && 0 <= a <= b
    ensures InRange(a)
  {}

  lemma FloorInstant(c: Civil, m: nat)
    requires Valid(c) && InRange(Millis(c)) && m <= c.minute
    ensures var f := c.(minute := m, second := 0, milli := 0);
            Valid(f) && InRange(Millis(f)) && CivilOf(Millis(f)) == f
  {
    var f := c.(minute := m, second := 0, milli := 0);
    FloorCivil(c, m);
    EarlierIffBefore(f, c);
    assert 0 <= Millis(f) by { DayInYear(f); }
    RangeBelow(Millis(f), Millis(c));
    CivilOfMillis(f);
  }

  /** The instants of the two floors are the instants of the cut civil times. */
  lemma CivilFloors(c: Civil)
    requires Valid(c) && InRange(Millis(c))
    ensures var ms := Millis(c);
            && InRange(MinuteFloor(ms)) && InRange(FiveFloor(ms))
            && CivilOf(MinuteFloor(ms)) == c.(second := 0, milli := 0)
            && CivilOf(FiveFloor(ms)) == c.(minute := FiveField(c.minute), second := 0, milli := 0)
  {
    hide Millis, CivilOf, InRange, MinuteFloor, FiveFloor, FiveField;
    FloorInstant(c, c.minute);
    FloorInstant(c, FiveField(c.minute));
    FloorsAre(c);
  }

  lemma FloorsAre(c: Civil)
    requires Valid(c)
    ensures MinuteFloor(Millis(c)) == Millis(c.(minute := c.minute, second := 0, milli := 0))
    ensures FiveFloor(Millis(c)) == Millis(c.(minute := FiveField(c.minute), second := 0, milli := 0))
  {
    hide Millis, MinuteFloor, FiveFloor, FiveField;
    FloorMillis(c);
    FloorCivil(c, c.minute);
    FloorCivil(c, FiveField(c.minute));
  }

  lemma FiveBucketText(c: Civil)
    requires Valid(c)
    ensures |Text(c)| >= 16
    ensures var bucket := MinuteBucket(Text(c));
            && |bucket| >= 16 && IsDigit(bucket[14]) && IsDigit(bucket[15])
            && FiveBucket(bucket) == Head(c) + Pad2(FiveField(c.minute)) + ":00"
  {
    TextParts(c);
    hide Text, Head;
    var bucket := MinuteBucket(Text(c));
    assert bucket[..14] == Text(c)[..14];
    assert bucket[14] == Text(c)[14] && bucket[15] == Text(c)[15];
  }

  /** The bucket string of a stored timestamp is the stored form of the minute it lies in. */
  lemma MinuteBucketIsFloor(ns: int)
    requires InRange(ns / 1_000_000)
    ensures |SqlTime(ns)| >= 16
    ensures InRange(MinuteFloor(ns / 1_000_000))
    ensures MinuteBucket(SqlTime(ns)) == Text(CivilOf(MinuteFloor(ns / 1_000_000)))
  {
    hide CivilOf, InRange, Head, Pad2, Text, Millis, MinuteFloor, FiveFloor, FiveField;
    var c := CivilOf(ns / 1_000_000);
    CivilFloors(c);
    TextParts(c);
    FlooredText(c, c.minute);
  }

  /** The five-minute bucket string the second fold makes of a minute bucket string is the
      stored form of the five minutes the original timestamp lies in. */
  lemma FiveBucketIsFloor(ns: int)
    requires InRange(ns / 1_000_000)
    ensures |SqlTime(ns)| >= 16
    ensures var bucket := MinuteBucket(SqlTime(ns));
            && |bucket| >= 16 && IsDigit(bucket[14]) && IsDigit(bucket[15])
            && InRange(FiveFloor(ns / 1_000_000))
            && FiveBucket(bucket) == Text(CivilOf(FiveFloor(ns / 1_000_000)))
  {
    hide CivilOf, InRange, Head, Text, FiveBucket, MinuteBucket, Millis, MinuteFloor, FiveFloor, FiveField, Pad2;
    var c := CivilOf(ns / 1_000_000);
    CivilFloors(c);
    FiveBucketText(c);
    FlooredText(c, FiveField(c.minute));
  }
}
