/** The stored text says the right time: the calendar is the Gregorian one, the text reads back
    as the fields of the time, and the comparisons and buckets of the tiers are those of the
    stored texts. */
module Calendar {
  import opened Arithmetic
  import opened Common
  import opened Decimal
  import opened Retention
  import opened SqlTime
  import Storage

  // ---- the Gregorian calendar in closed form ----

  /** Days since 0000-03-01, with the year counted from March: leap days fall at its end, and
      five months from March on have 153 days. */
  function MarchDay(year: int, month: int, day: int): int {
    var y, m := if month <= 2 then year - 1 else year, if month <= 2 then month + 9 else month - 3;
    365 * y + y / 4 - y / 100 + y / 400 + (153 * m + 2) / 5 + day - 1
  }

  /** The first of the next month. */
  function NextMonth(year: int, month: int): (int, int) {
    if month == 12 then (year + 1, 1) else (year, month + 1)
  }

  lemma MonthsBefore(y: nat, m: nat)
    requires 1 <= m <= 12
    ensures DaysBeforeMonth(y, m) ==
            if m <= 2 then 31 * (m - 1) else 59 + (if IsLeap(y) then 1 else 0) + (153 * (m - 3) + 2) / 5
  {
    hide IsLeap;
    assert DaysBeforeMonth(y, 2) == 31;
    assert DaysBeforeMonth(y, 3) == 31 + DaysInMonth(y, 2);
    if m > 3 { MonthsBefore(y, m - 1); }
  }

  /** Leap years so far, by the three quotients. */
  lemma YearsBefore(y: nat)
    ensures DaysBeforeYear(y) == 365 * y + y / 4 - y / 100 + y / 400 + (if IsLeap(y) then 0 else 1)
    ensures DaysBeforeYear(y + 1) == 365 * y + y / 4 - y / 100 + y / 400 + 366
  {
    NextQuotients(y);
    NextYear(y);
    hide IsLeap;
  }

  lemma NextQuotients(y: nat)
    ensures (y + 4) / 4 == y / 4 + 1
    ensures (y + 100) / 100 == y / 100 + 1
    ensures (y + 400) / 400 == y / 400 + 1
  {}

  /** Day numbers are those of the Gregorian calendar. */
  lemma DayNumberIsGregorian(c: Civil)
    requires Valid(c)
    ensures DayNumber(c) == MarchDay(c.year, c.month, c.day) + 60
  {
    MonthsBefore(c.year, c.month);
    YearsBefore(c.year);
    if c.month <= 2 {
      if c.year > 0 { YearsBefore(c.year - 1); }
      hide IsLeap, DaysBeforeYear, DaysBeforeMonth;
    }
  }

  /** The valid dates of a month are those before the first of the next. */
  lemma ValidDays(year: nat, month: nat, day: nat)
    requires 1 <= month <= 12
    ensures var next := NextMonth(year, month);
            day <= DaysInMonth(year, month) <==> MarchDay(year, month, day) < MarchDay(next.0, next.1, 1)
  {
    MonthsBefore(year, month);
    if month < 12 { MonthsBefore(year, month + 1); }
    LeapQuotients(year);
  }

  /** The step of the quotients into a leap year. */
  lemma LeapQuotients(y: nat)
    ensures var x := y - 1;
            y / 4 - y / 100 + y / 400 == x / 4 - x / 100 + x / 400 + if IsLeap(y) then 1 else 0
  {
    if y > 0 {
      YearsBefore(y);
      YearsBefore(y - 1);
    }
  }

  /** The civil time of an instant is its Gregorian date and time of day, and there is no other
      valid one. */
  lemma CivilOfIsGregorian(ms: int)
    requires InRange(ms)
    ensures var c := CivilOf(ms);
            && 1 <= c.month <= 12 && 1 <= c.day
            && MarchDay(c.year, c.month, c.day) < MarchDay(NextMonth(c.year, c.month).0, NextMonth(c.year, c.month).1, 1)
            && MarchDay(c.year, c.month, c.day) + 60 == ms / 86_400_000
            && c.hour == ms / 3_600_000 % 24 && c.minute == ms / 60_000 % 60 && c.second == ms / 1000 % 60 && c.milli == ms % 1000
  {
    var c := CivilOf(ms);
    ValidDays(c.year, c.month, c.day);
    DayNumberIsGregorian(c);
    Quotients(ms);
    hide DaysInMonth, MarchDay, DaysBeforeYear, DaysBeforeMonth;
  }

  lemma Quotients(ms: int)
    ensures ms / 1000 / 60 == ms / 60_000
    ensures ms / 60_000 / 60 == ms / 3_600_000
    ensures ms / 3_600_000 / 24 == ms / 86_400_000
  {}

  // ---- the text reads back ----

  lemma Pad2Value(n: nat)
    requires n < 100
    ensures |Pad2(n)| == 2 && AllDigits(Pad2(n)) && Value(Pad2(n)) == n
  {
    TwoDigits(Pad2(n));
  }

  lemma TwoDigits(s: string)
    requires |s| == 2 && AllDigits(s)
    ensures Value(s) == DigitValue(s[0]) * 10 + DigitValue(s[1])
  {
    assert s[..1][..0] == [];
    assert Value(s[..1]) == DigitValue(s[0]);
  }

  lemma {:induction false} ValueAppend(a: string, b: string)
    requires AllDigits(a) && AllDigits(b) && |b| == 2
    ensures AllDigits(a + b) && Value(a + b) == Value(a) * 100 + Value(b)
  {
    TwoDigits(b);
    var s := a + b;
    assert s[..|s|-1] == a + b[..1] && (a + b[..1])[..|a|] == a;
  }

  /** The digits of s from i to j stand for n. */
  predicate Shows(s: string, i: nat, j: nat, n: nat) {
    i <= j <= |s| && AllDigits(s[i..j]) && Value(s[i..j]) == n
  }

  lemma PadShows(s: string, i: nat, n: nat)
    requires n < 100 && i + 2 <= |s| && s[i..i+2] == Pad2(n)
    ensures Shows(s, i, i + 2, n)
  {
    Pad2Value(n);
  }

  /** ".5", ".25", ".125": tenths, hundredths or thousandths, without a trailing zero. */
  predicate ShowsFraction(s: string, milli: nat) {
    if milli == 0 then s == ""
    else
      && 2 <= |s| <= 4 && s[0] == '.' && s[|s|-1] != '0'
      && Shows(s, 1, |s|, milli / (if |s| == 2 then 100 else if |s| == 3 then 10 else 1))
      && (|s| == 2 ==> milli % 100 == 0) && (|s| == 3 ==> milli % 10 == 0)
  }

  lemma FractionShows(milli: nat)
    requires milli < 1000
    ensures ShowsFraction(Fraction(milli), milli)
  {
    if milli > 0 {
      if milli % 100 == 0 { TenthsShow(milli); }
      else if milli % 10 == 0 { HundredthsShow(milli); }
      else { ThousandthsShow(milli); }
    }
  }

  lemma OneDigit(n: nat)
    requires n < 10
    ensures AllDigits([DigitChar(n)]) && Value([DigitChar(n)]) == n && (DigitChar(n) == '0' <==> n == 0)
  {
    assert [DigitChar(n)][..0] == [];
  }

  lemma TenthsShow(milli: nat)
    requires 0 < milli < 1000 && milli % 100 == 0
    ensures ShowsFraction(Fraction(milli), milli)
  {
    OneDigit(milli / 100);
    assert Fraction(milli)[1..2] == [DigitChar(milli / 100)];
    hide Value, AllDigits;
  }

  lemma HundredthsShow(milli: nat)
    requires 0 < milli < 1000 && milli % 10 == 0 && milli % 100 != 0
    ensures ShowsFraction(Fraction(milli), milli)
  {
    OneDigit(milli / 10 % 10);
    Pad2Value(milli / 10);
    assert Fraction(milli)[1..3] == Pad2(milli / 10);
    hide Value, AllDigits;
  }

  lemma ThousandthsShow(milli: nat)
    requires 0 < milli < 1000 && milli % 10 != 0
    ensures ShowsFraction(Fraction(milli), milli)
  {
    var d, rest := [DigitChar(milli / 100)], Pad2(milli % 100);
    OneDigit(milli / 100);
    OneDigit(milli % 100 % 10);
    Pad2Value(milli % 100);
    ValueAppend(d, rest);
    assert Fraction(milli) == "." + (d + rest);
    assert Fraction(milli)[1..4] == d + rest;
    hide Value, AllDigits;
  }

  /** The text of a time is its fields, each at its place: 2006-01-02 15:04:05.999 */
  lemma TextReadsBack(c: Civil)
    requires Valid(c)
    ensures var t := Text(c);
            && |t| >= 19
            && Shows(t, 0, 4, c.year) && t[4] == '-' && Shows(t, 5, 7, c.month) && t[7] == '-' && Shows(t, 8, 10, c.day)
            && t[10] == ' ' && Shows(t, 11, 13, c.hour) && t[13] == ':' && Shows(t, 14, 16, c.minute)
            && t[16] == ':' && Shows(t, 17, 19, c.second) && ShowsFraction(t[19..], c.milli)
  {
    var t := Text(c);
    Places(c);
    YearShows(c.year);
    FractionShows(c.milli);
    PadShows(t, 5, c.month);
    PadShows(t, 8, c.day);
    PadShows(t, 11, c.hour);
    PadShows(t, 14, c.minute);
    PadShows(t, 17, c.second);
    hide Text, Value, AllDigits, Pad2;
  }

  lemma YearShows(y: nat)
    requires y < 10_000
    ensures |Pad4(y)| == 4 && AllDigits(Pad4(y)) && Value(Pad4(y)) == y
  {
    Pad2Value(y / 100);
    Pad2Value(y % 100);
    ValueAppend(Pad2(y / 100), Pad2(y % 100));
  }

  lemma Places(c: Civil)
    requires Valid(c)
    ensures var t := Text(c);
            && |t| >= 19 && t[0..4] == Pad4(c.year) && t[4] == '-' && t[5..7] == Pad2(c.month) && t[7] == '-'
            && t[8..10] == Pad2(c.day) && t[10] == ' ' && t[11..13] == Pad2(c.hour) && t[13] == ':'
            && t[14..16] == Pad2(c.minute) && t[16] == ':' && t[17..19] == Pad2(c.second) && t[19..] == Fraction(c.milli)
  {
    hide Pad4, Pad2, Fraction;
    PadLengths(c);
    PlacesOf(Pad4(c.year), Pad2(c.month), Pad2(c.day), Pad2(c.hour), Pad2(c.minute), Pad2(c.second), Fraction(c.milli));
  }

  lemma PadLengths(c: Civil)
    requires Valid(c)
    ensures |Pad4(c.year)| == 4 && |Pad2(c.month)| == |Pad2(c.day)| == |Pad2(c.hour)| == |Pad2(c.minute)| == |Pad2(c.second)| == 2
  {}

  lemma PlacesOf(y: string, mo: string, d: string, h: string, mi: string, s: string, f: string)
    requires |y| == 4 && |mo| == |d| == |h| == |mi| == |s| == 2
    ensures var t := y + ("-" + (mo + ("-" + (d + (" " + (h + (":" + (mi + (":" + (s + f))))))))));
            && |t| >= 19 && t[0..4] == y && t[4] == '-' && t[5..7] == mo && t[7] == '-' && t[8..10] == d && t[10] == ' '
            && t[11..13] == h && t[13] == ':' && t[14..16] == mi && t[16] == ':' && t[17..19] == s && t[19..] == f
  {
    var time := h + (":" + (mi + (":" + (s + f))));
    TimePlaces(h, mi, s, f);
    DatePlaces(y, mo, d, " " + time);
    var t := y + ("-" + (mo + ("-" + (d + (" " + time)))));
    assert t[10..] == " " + time;
    Further(t, 10, " " + time, time);
  }

  lemma Further(t: string, n: nat, rest: string, time: string)
    requires n <= |t| && t[n..] == rest == " " + time && |time| >= 8
    ensures t[n] == ' ' && |t| == n + 1 + |time|
    ensures t[n+1..n+3] == time[0..2] && t[n+3] == time[2] && t[n+4..n+6] == time[3..5] && t[n+6] == time[5]
    ensures t[n+7..n+9] == time[6..8] && t[n+9..] == time[8..]
  {
    assert forall i :: 0 <= i < |rest| ==> t[n+i] == rest[i];
    assert forall i :: 0 <= i < |time| ==> rest[1+i] == time[i];
  }

  lemma DatePlaces(y: string, mo: string, d: string, rest: string)
    requires |y| == 4 && |mo| == |d| == 2
    ensures var t := y + ("-" + (mo + ("-" + (d + rest))));
            && |t| == 10 + |rest| && t[0..4] == y && t[4] == '-' && t[5..7] == mo && t[7] == '-' && t[8..10] == d && t[10..] == rest
  {
    var t := y + ("-" + (mo + ("-" + (d + rest))));
    assert t == y + "-" + mo + "-" + d + rest;
  }

  lemma TimePlaces(h: string, mi: string, s: string, f: string)
    requires |h| == |mi| == |s| == 2
    ensures var t := h + (":" + (mi + (":" + (s + f))));
            |t| >= 8 && t[0..2] == h && t[2] == ':' && t[3..5] == mi && t[5] == ':' && t[6..8] == s && t[8..] == f
  {
    var t := h + (":" + (mi + (":" + (s + f))));
    assert t == h + ":" + mi + ":" + s + f;
  }

  // ---- the tiers' times and the stored texts ----

  /** 1970-01-01: the tiers count milliseconds from there, the calendar from year 0. */
  const EPOCH := 719_528 * 86_400_000

  lemma EpochIs()
    ensures Valid(Civil(1970, 1, 1, 0, 0, 0, 0)) && Millis(Civil(1970, 1, 1, 0, 0, 0, 0)) == EPOCH
  {}

  ghost predicate Storable(ms: int) {
    InRange(EPOCH + ms)
  }

  /** The text of a time of the tiers. */
  function Stored(ms: int): string
    requires Storable(ms)
  {
    Text(CivilOf(EPOCH + ms))
  }

  lemma StoredOrder(a: int, b: int)
    requires Storable(a) && Storable(b)
    ensures Less(Stored(a), Stored(b)) <==> a < b
  {
    TextOrder(CivilOf(EPOCH + a), CivilOf(EPOCH + b));
    EarlierIffBefore(CivilOf(EPOCH + a), CivilOf(EPOCH + b));
    hide Text, Earlier, CivilOf, Valid;
  }

  /** What the WHERE clauses of a pass compare are the ages the statements are modelled with. */
  lemma OlderIsLess(x: Sample, cutoff: int)
    requires x.timestamp.Some? && Storable(x.timestamp.value) && Storable(cutoff)
    ensures Older(x, cutoff) <==> Less(Stored(x.timestamp.value), Stored(cutoff))
  {
    StoredOrder(x.timestamp.value, cutoff);
  }

  /** And the bucket strings the folds make are the texts of the buckets' starts. */
  lemma BucketsAreStored(x: Sample)
    requires x.timestamp.Some? && Storable(x.timestamp.value) && Storable(Start(KeyOf(FiveMinute, x)))
    ensures Storable(Start(KeyOf(Minute, x)))
    ensures var ms, text := x.timestamp.value, Stored(x.timestamp.value);
            && |text| >= 16 && MinuteBucket(text) == Stored(Start(KeyOf(Minute, x)))
            && var bucket := MinuteBucket(text);
               && |bucket| >= 16 && IsDigit(bucket[14]) && IsDigit(bucket[15])
               && FiveBucket(bucket) == Stored(Start(KeyOf(FiveMinute, x)))
  {
    hide Text, CivilOf, MinuteBucket, FiveBucket, MinuteFloor, FiveFloor, KeyOf, Start, InRange;
    BucketStarts(x);
    BucketTexts(EPOCH + x.timestamp.value);
  }

  lemma BucketStarts(x: Sample)
    requires x.timestamp.Some?
    ensures EPOCH + Start(KeyOf(Minute, x)) == MinuteFloor(EPOCH + x.timestamp.value)
    ensures EPOCH + Start(KeyOf(FiveMinute, x)) == FiveFloor(EPOCH + x.timestamp.value)
  {
    EpochFloors(x.timestamp.value);
    hide MinuteFloor, FiveFloor;
  }

  lemma BucketTexts(ms: int)
    requires InRange(ms)
    ensures InRange(MinuteFloor(ms)) && InRange(FiveFloor(ms))
    ensures var text := Text(CivilOf(ms));
            && |text| >= 16 && MinuteBucket(text) == Text(CivilOf(MinuteFloor(ms)))
            && var bucket := MinuteBucket(text);
               && |bucket| >= 16 && IsDigit(bucket[14]) && IsDigit(bucket[15])
               && FiveBucket(bucket) == Text(CivilOf(FiveFloor(ms)))
  {
    var ns := ms * 1_000_000;
    assert ns / 1_000_000 == ms;
    hide Text, CivilOf, MinuteBucket, FiveBucket, MinuteFloor, FiveFloor, InRange;
    MinuteBucketIsFloor(ns);
    FiveBucketIsFloor(ns);
  }

  lemma EpochFloors(ms: int)
    ensures MinuteFloor(EPOCH + ms) == EPOCH + ms / 60_000 * 60_000
    ensures FiveFloor(EPOCH + ms) == EPOCH + ms / 300_000 * 300_000
  {}

  // ---- the ages at which data leaves a tier ----

  /** A raw sample leaves when it is more than rawHours old, a row when its start is more than
      minuteDays or fiveMinuteDays old. */
  lemma CutoffsAreAges(p: Storage.RetentionPolicy, now: int, x: Sample, k: Key)
    ensures var c := Storage.CutoffsOf(p, now);
            && (Older(x, c.raw) <==> x.timestamp.Some? && p.rawHours * (60 * 60 * 1000) < now - x.timestamp.value)
            && (Start(k) < CutoffOf(k.resolution, c) <==>
                  (if k.resolution == Minute then p.minuteDays else p.fiveMinuteDays) * (24 * 60 * 60 * 1000) < now - Start(k))
  {}

  /** In the calendar: the same time of day, so many days before. */
  lemma CutoffDates(p: Storage.RetentionPolicy, now: int, r: Resolution)
    requires Storable(now) && Storable(CutoffOf(r, Storage.CutoffsOf(p, now)))
    ensures var a, b := CivilOf(EPOCH + CutoffOf(r, Storage.CutoffsOf(p, now))), CivilOf(EPOCH + now);
            && DayNumber(a) == DayNumber(b) - (if r.Minute? then p.minuteDays else p.fiveMinuteDays)
            && a.hour == b.hour && a.minute == b.minute && a.second == b.second && a.milli == b.milli
  {
    var then', n := EPOCH + CutoffOf(r, Storage.CutoffsOf(p, now)), EPOCH + now;
    var days := if r.Minute? then p.minuteDays else p.fiveMinuteDays;
    assert then' == n - days * 86_400_000;
    CivilOfIsGregorian(then');
    CivilOfIsGregorian(n);
    DayNumberIsGregorian(CivilOf(then'));
    DayNumberIsGregorian(CivilOf(n));
    hide CivilOf, MarchDay, DayNumber, Valid;
    DaysEarlier(n, days);
  }

  lemma DaysEarlier(ms: int, days: int)
    ensures var then' := ms - days * 86_400_000;
            && then' / 86_400_000 == ms / 86_400_000 - days
            && then' / 3_600_000 % 24 == ms / 3_600_000 % 24 && then' / 60_000 % 60 == ms / 60_000 % 60
            && then' / 1000 % 60 == ms / 1000 % 60 && then' % 1000 == ms % 1000
  {
    WholeDays(ms, days);
    Wraps(ms / 3_600_000, ms / 60_000, ms / 1000, days);
  }

  lemma WholeDays(ms: int, days: int)
    ensures (ms - days * 86_400_000) / 86_400_000 == ms / 86_400_000 - days
    ensures (ms - days * 86_400_000) / 3_600_000 == ms / 3_600_000 - 24 * days
    ensures (ms - days * 86_400_000) / 60_000 == ms / 60_000 - 1440 * days
    ensures (ms - days * 86_400_000) / 1000 == ms / 1000 - 86_400 * days
    ensures (ms - days * 86_400_000) % 1000 == ms % 1000
  {}

  lemma Wraps(h: int, m: int, s: int, days: int)
    ensures (h - 24 * days) % 24 == h % 24
    ensures (m - 1440 * days) % 60 == m % 60
    ensures (s - 86_400 * days) % 60 == s % 60
  {}
}
