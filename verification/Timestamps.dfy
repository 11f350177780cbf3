/** Timestamps in UTC, the instants they stand for, and how far the order of the strings is the order of the instants. */
module Timestamps {
  import opened Text

  // ---------- instants ----------

  predicate IsLeap(year: nat) {
    year % 4 == 0 && (year % 100 != 0 || year % 400 == 0)
  }

  function DaysInYear(year: nat): nat {
    if IsLeap(year) then 366 else 365
  }

  /** Days from the start of year 0 to the start of a year. */
  function DaysBefore(year: nat): (n: nat)
    ensures n <= 366 * year
  {
    if year == 0 then 0 else DaysBefore(year - 1) + DaysInYear(year - 1)
  }

  function DaysInMonth(year: nat, month: nat): nat {
    if month == 2 then if IsLeap(year) then 29 else 28
    else if month == 4 || month == 6 || month == 9 || month == 11 then 30 else 31
  }

  /** Days from the start of a year to the start of a month, counted from 1. */
  function DaysBeforeMonth(year: nat, month: nat): nat {
    if month <= 1 then 0 else DaysBeforeMonth(year, month - 1) + DaysInMonth(year, month - 1)
  }

  datatype Fields = Fields(year: nat, month: nat, day: nat, hour: nat, minute: nat, second: nat)

  predicate OnCalendar(f: Fields) {
    && 1 <= f.month <= 12 && 1 <= f.day <= DaysInMonth(f.year, f.month)
    && f.hour < 24 && f.minute < 60 && f.second < 60
  }

  function DayOf(f: Fields): nat {
    DaysBefore(f.year) + DaysBeforeMonth(f.year, f.month) + f.day
  }

  function SecondsOf(f: Fields): nat {
    ((DayOf(f) * 24 + f.hour) * 60 + f.minute) * 60 + f.second
  }

  /** The order of calendars: year, then month, and so on. */
  predicate Earlier(f: Fields, g: Fields) {
    || f.year < g.year
    || (f.year == g.year && (f.month < g.month
        || (f.month == g.month && (f.day < g.day
            || (f.day == g.day && (f.hour < g.hour
                || (f.hour == g.hour && (f.minute < g.minute
                    || (f.minute == g.minute && f.second < g.second)))))))))
  }

  lemma {:induction false} YearsAreOrdered(y: nat, z: nat)
    requires y < z
    ensures DaysBefore(y) + DaysInYear(y) <= DaysBefore(z)
  {
    if y < z - 1 {
      YearsAreOrdered(y, z - 1);
    }
  }

  lemma {:induction false} MonthsAreOrdered(year: nat, m: nat, n: nat)
    requires 1 <= m < n
    ensures DaysBeforeMonth(year, m) + DaysInMonth(year, m) <= DaysBeforeMonth(year, n)
  {
    if m < n - 1 {
      MonthsAreOrdered(year, m, n - 1);
    }
  }

  lemma {:induction false} MonthsFillYear(year: nat)
    ensures DaysBeforeMonth(year, 12) + DaysInMonth(year, 12) == DaysInYear(year)
  {
    assert DaysBeforeMonth(year, 1) == 0;
    assert DaysBeforeMonth(year, 2) == 31;
    assert DaysBeforeMonth(year, 3) == 31 + DaysInMonth(year, 2);
    assert DaysBeforeMonth(year, 4) == DaysBeforeMonth(year, 3) + 31;
    assert DaysBeforeMonth(year, 5) == DaysBeforeMonth(year, 4) + 30;
    assert DaysBeforeMonth(year, 6) == DaysBeforeMonth(year, 5) + 31;
    assert DaysBeforeMonth(year, 7) == DaysBeforeMonth(year, 6) + 30;
    assert DaysBeforeMonth(year, 8) == DaysBeforeMonth(year, 7) + 31;
    assert DaysBeforeMonth(year, 9) == DaysBeforeMonth(year, 8) + 31;
    assert DaysBeforeMonth(year, 10) == DaysBeforeMonth(year, 9) + 30;
    assert DaysBeforeMonth(year, 11) == DaysBeforeMonth(year, 10) + 31;
    assert DaysBeforeMonth(year, 12) == DaysBeforeMonth(year, 11) + 30;
  }

  lemma {:induction false} DayInYear(f: Fields)
    requires OnCalendar(f)
    ensures DaysBeforeMonth(f.year, f.month) + f.day <= DaysInYear(f.year)
  {
    MonthsFillYear(f.year);
    if f.month < 12 {
      MonthsAreOrdered(f.year, f.month, 12);
    }
  }

  lemma {:induction false} DaysAreOrdered(f: Fields, g: Fields)
    requires OnCalendar(f) && OnCalendar(g)
    ensures f.year < g.year ==> DayOf(f) < DayOf(g)
    ensures f.year == g.year && f.month < g.month ==> DayOf(f) < DayOf(g)
  {
    hide DaysBefore, DaysBeforeMonth, DaysInYear, DaysInMonth;
    DayInYear(f);
    if f.year < g.year {
      YearsAreOrdered(f.year, g.year);
    } else if f.year == g.year && f.month < g.month {
      MonthsAreOrdered(f.year, f.month, g.month);
    }
  }

  /** Earlier on the calendar is earlier in time. */
  lemma {:induction false} EarlierIsBefore(f: Fields, g: Fields)
    requires OnCalendar(f) && OnCalendar(g) && Earlier(f, g)
    ensures SecondsOf(f) < SecondsOf(g)
  {
    hide DayOf;
    DaysAreOrdered(f, g);
    assert f.year == g.year && f.month == g.month ==> DayOf(f) - f.day == DayOf(g) - g.day by { SameMonth(f, g); }
  }

  lemma {:induction false} SameMonth(f: Fields, g: Fields)
    ensures f.year == g.year && f.month == g.month ==> DayOf(f) - f.day == DayOf(g) - g.day
  {
  }

  // ---------- their text ----------

  predicate IsDigit(c: char) {
    '0' <= c <= '9'
  }

  function Digit(c: char): nat {
    if IsDigit(c) then (c - '0') as nat else 0
  }

  function Two(s: string, i: nat): nat
    requires i + 2 <= |s|
  {
    10 * Digit(s[i]) + Digit(s[i + 1])
  }

  /** What stands at place i of YYYY-MM-DDTHH:MM:SS.mmmZ, with '0' for any digit. */
  function SeparatorAt(i: nat): char {
    if i == 4 || i == 7 then '-' else if i == 10 then 'T' else if i == 13 || i == 16 then ':'
    else if i == 19 then '.' else if i == 23 then 'Z' else '0'
  }

  predicate FitsAt(s: string, i: nat)
    requires i < |s|
  {
    if SeparatorAt(i) == '0' then IsDigit(s[i]) else s[i] == SeparatorAt(i)
  }

  function FieldsOf(s: string): Fields
    requires |s| >= 19
  {
    Fields(100 * Two(s, 0) + Two(s, 2), Two(s, 5), Two(s, 8), Two(s, 11), Two(s, 14), Two(s, 17))
  }

  /** YYYY-MM-DDTHH:MM:SSZ, or the same with three digits of milliseconds before the Z, and a day that exists. */
  predicate IsUtc(s: string) {
    && (|s| == 20 || |s| == 24)
    && (forall i | 0 <= i < |s| - 1 :: FitsAt(s, i)) && s[|s| - 1] == 'Z'
    && OnCalendar(FieldsOf(s))
  }

  predicate HasMillis(s: string) {
    |s| == 24
  }

  function MillisPart(s: string): (n: nat)
    requires IsUtc(s)
    ensures n < 1000
  {
    if HasMillis(s) then
      assert FitsAt(s, 20) && FitsAt(s, 21) && FitsAt(s, 22);
      10 * Two(s, 20) + Digit(s[22])
    else 0
  }

  const EPOCH := Fields(1970, 1, 1, 0, 0, 0)

  /** The instant, in milliseconds from the start of 1970 (section 21.4.1 of ECMA-262). */
  function InstantOf(s: string): int
    requires IsUtc(s)
  {
    1000 * (SecondsOf(FieldsOf(s)) - SecondsOf(EPOCH)) + MillisPart(s)
  }

  // ---------- the order of the strings ----------

  lemma {:induction false} LexAtDifference(a: string, b: string, k: nat)
    requires k < |a| && k < |b| && a[..k] == b[..k] && a[k] != b[k]
    ensures LexLeq(a, b) <==> a[k] < b[k]
  {
    if k > 0 {
      assert a[0] == a[..k][0] && b[0] == b[..k][0];
      assert a[1..][..k - 1] == a[..k][1..] && b[1..][..k - 1] == b[..k][1..];
      LexAtDifference(a[1..], b[1..], k - 1);
    }
  }

  lemma {:induction false} FirstDifference(a: string, b: string, n: nat) returns (k: nat)
    requires n <= |a| && n <= |b|
    ensures k <= n && a[..k] == b[..k] && (k < n ==> a[k] != b[k])
  {
    k := 0;
    while k < n && a[k] == b[k]
      invariant k <= n && a[..k] == b[..k]
    {
      k := k + 1;
    }
  }

  /** The first place where two timestamps differ, if it is before the fraction, orders them on the calendar. */
  lemma {:induction false} DifferenceOrders(a: string, b: string, k: nat)
    requires IsUtc(a) && IsUtc(b) && k < 19 && a[..k] == b[..k] && a[k] < b[k]
    ensures Earlier(FieldsOf(a), FieldsOf(b))
  {
    hide OnCalendar, LexLeq;
    assert FitsAt(a, k) && FitsAt(b, k);
    forall i | 0 <= i < k ensures a[i] == b[i] { assert a[i] == a[..k][i]; }
    DigitsOrder(a, b, 0, k);
    DigitsOrder(a, b, 2, k);
    DigitsOrder(a, b, 5, k);
    DigitsOrder(a, b, 8, k);
    DigitsOrder(a, b, 11, k);
    DigitsOrder(a, b, 14, k);
    DigitsOrder(a, b, 17, k);
  }

  lemma {:induction false} DigitsOrder(a: string, b: string, i: nat, k: nat)
    requires |a| >= 19 && |b| >= 19 && i + 2 <= 19 && k < 19 && FitsAt(a, k) && FitsAt(b, k)
    requires SeparatorAt(i) == '0' && SeparatorAt(i + 1) == '0' && FitsAt(a, i + 1) && FitsAt(b, i + 1)
    requires (forall j | 0 <= j < k :: a[j] == b[j]) && a[k] < b[k]
    ensures i + 2 <= k ==> Two(a, i) == Two(b, i)
    ensures i <= k < i + 2 ==> Two(a, i) < Two(b, i)
  {
  }

  lemma {:induction false} MillisOrder(a: string, b: string, k: nat)
    requires IsUtc(a) && IsUtc(b) && HasMillis(a) && HasMillis(b) && 19 <= k < 24 && a[..k] == b[..k] && a[k] < b[k]
    ensures MillisPart(a) < MillisPart(b)
  {
    hide OnCalendar, LexLeq;
    assert FitsAt(a, 19) && FitsAt(b, 19);
    assert FitsAt(a, 20) && FitsAt(b, 20) && FitsAt(a, 21) && FitsAt(b, 21) && FitsAt(a, 22) && FitsAt(b, 22);
    forall i | 0 <= i < k ensures a[i] == b[i] { assert a[i] == a[..k][i]; }
  }
  /** A fraction that one of two timestamps of the same second has and the other does not. */
  predicate AddsFraction(a: string, b: string)
    requires IsUtc(a) && IsUtc(b)
  {
    HasMillis(a) && !HasMillis(b) && a[..19] == b[..19] && MillisPart(a) > 0
  }

  lemma {:induction false} SamePrefixSameFields(a: string, b: string)
    requires |a| >= 19 && |b| >= 19 && a[..19] == b[..19]
    ensures FieldsOf(a) == FieldsOf(b)
  {
    forall i | 0 <= i < 19 ensures a[i] == b[i] { assert a[i] == a[..19][i]; }
  }

  lemma {:induction false} AtFraction(a: string)
    requires IsUtc(a)
    ensures |a| > 19 && a[19] == if HasMillis(a) then '.' else 'Z'
  {
    if HasMillis(a) { assert FitsAt(a, 19); }
  }

  lemma {:induction false} DifferentSeconds(a: string, b: string, k: nat)
    requires IsUtc(a) && IsUtc(b) && k < 19 && a[..k] == b[..k] && a[k] != b[k]
    ensures LexLeq(a, b) <==> InstantOf(a) <= InstantOf(b)
  {
    hide IsUtc, OnCalendar, FieldsOf, SecondsOf, LexLeq;
    OnTheCalendar(a);
    OnTheCalendar(b);
    LexAtDifference(a, b, k);
    if a[k] < b[k] {
      DifferenceOrders(a, b, k);
      EarlierIsBefore(FieldsOf(a), FieldsOf(b));
    } else {
      DifferenceOrders(b, a, k);
      EarlierIsBefore(FieldsOf(b), FieldsOf(a));
    }
  }

  lemma {:induction false} OnTheCalendar(a: string)
    requires IsUtc(a)
    ensures |a| >= 19 && OnCalendar(FieldsOf(a))
  {
  }

  lemma {:induction false} SameSecond(a: string, b: string, k: nat)
    requires IsUtc(a) && IsUtc(b) && |a| == |b| && 19 <= k < |a| && a[..k] == b[..k] && a[k] != b[k]
    ensures LexLeq(a, b) <==> InstantOf(a) <= InstantOf(b)
  {
    hide OnCalendar, LexLeq, FieldsOf, SecondsOf;
    assert HasMillis(a);
    assert a[..19] == a[..k][..19] == b[..k][..19] == b[..19];
    SamePrefixSameFields(a, b);
    LexAtDifference(a, b, k);
    if a[k] < b[k] { MillisOrder(a, b, k); } else { MillisOrder(b, a, k); }
  }

  /** Timestamps of one form are ordered as strings exactly as their instants are ordered. */
  lemma {:induction false} SameFormIsChronological(a: string, b: string)
    requires IsUtc(a) && IsUtc(b) && HasMillis(a) == HasMillis(b)
    ensures LexLeq(a, b) <==> InstantOf(a) <= InstantOf(b)
  {
    hide IsUtc, LexLeq, InstantOf;
    UtcLength(a);
    UtcLength(b);
    var k := FirstDifference(a, b, |a|);
    if k < 19 {
      DifferentSeconds(a, b, k);
    } else if k < |a| {
      SameSecond(a, b, k);
    } else {
      assert a == b;
      LexReflexive(a);
    }
  }

  lemma {:induction false} UtcLength(a: string)
    requires IsUtc(a)
    ensures |a| == if HasMillis(a) then 24 else 20
  {
  }

  /** A timestamp that is not later as a string is not later in time, unless it adds a fraction to the very second
      of the other: "…00.500Z" comes before "…00Z" as a string. */
  lemma {:induction false} LexIsChronological(a: string, b: string)
    requires IsUtc(a) && IsUtc(b) && LexLeq(a, b)
    ensures InstantOf(a) <= InstantOf(b) <==> !AddsFraction(a, b)
  {
    hide OnCalendar, LexLeq, FieldsOf, SecondsOf;
    if HasMillis(a) == HasMillis(b) {
      SameFormIsChronological(a, b);
    } else {
      var k := FirstDifference(a, b, 19);
      if k < 19 {
        DifferentSeconds(a, b, k);
        assert a[k] == a[..19][k] && b[k] == b[..19][k];
      } else {
        SamePrefixSameFields(a, b);
        AtFraction(a);
        AtFraction(b);
        LexAtDifference(a, b, 19);
      }
    }
  }

  // ---------- the calendar, against the closed form of ECMA-262 ----------

  /** Days from the start of 1970 to the start of a year (section 21.4.1 of ECMA-262). */
  function DayFromYear(year: int): int {
    365 * (year - 1970) + (year - 1969) / 4 - (year - 1901) / 100 + (year - 1601) / 400
  }

  /** The day within a year on which each month of a common year starts, from the same section. */
  const MONTH_STARTS: seq<int> := [0, 31, 59, 90, 120, 151, 181, 212, 243, 273, 304, 334]

  const MONTH_LENGTHS: seq<int> := [31, 28, 31, 30, 31, 30, 31, 31, 30, 31, 30, 31]

  lemma {:induction false} OnCalendarIff(f: Fields)
    ensures OnCalendar(f)
       <==> && 1 <= f.month <= 12 && f.hour <= 23 && f.minute <= 59 && f.second <= 59
            && 1 <= f.day <= MONTH_LENGTHS[f.month - 1] + if f.month == 2 && IsLeap(f.year) then 1 else 0
  {
    hide IsLeap;
  }

  lemma {:induction false} YearStarts(year: nat)
    ensures DaysBefore(year) == DayFromYear(year) - DayFromYear(0)
  {
    hide DayFromYear, DaysInYear;
    if year > 0 {
      YearStarts(year - 1);
      YearLength(year - 1);
    }
  }

  lemma {:induction false} YearLength(year: nat)
    ensures DayFromYear(year + 1) - DayFromYear(year) == DaysInYear(year)
  {
    Quarters(year);
    Centuries(year);
    FourCenturies(year);
  }

  /** When a count of years of one kind goes up. */
  lemma {:induction false} Quarters(y: int)
    ensures (y + 1 - 1969) / 4 - (y - 1969) / 4 == if y % 4 == 0 then 1 else 0
  {
  }

  lemma {:induction false} Centuries(y: int)
    ensures (y + 1 - 1901) / 100 - (y - 1901) / 100 == if y % 100 == 0 then 1 else 0
    ensures y % 100 == 0 ==> y % 4 == 0
  {
    var q, r := y / 100, y % 100;
    assert y + 1 - 1901 == 100 * (q - 19) + r;
    assert y - 1901 == 100 * (q - 20) + (r + 99);
  }

  lemma {:induction false} FourCenturies(y: int)
    ensures (y + 1 - 1601) / 400 - (y - 1601) / 400 == if y % 400 == 0 then 1 else 0
    ensures y % 400 == 0 ==> y % 100 == 0
  {
    var q, r := y / 400, y % 400;
    assert y + 1 - 1601 == 400 * (q - 4) + r;
    assert y - 1601 == 400 * (q - 5) + (r + 399);
  }

  lemma {:induction false} MonthStarts(year: nat, month: nat)
    requires 1 <= month <= 12
    ensures DaysBeforeMonth(year, month) == MONTH_STARTS[month - 1] + if month > 2 && IsLeap(year) then 1 else 0
  {
    hide IsLeap;
    if month > 1 {
      MonthStarts(year, month - 1);
    }
  }

  function Number(s: string): int {
    if s == [] then 0 else 10 * Number(s[..|s| - 1]) + (s[|s| - 1] as int - '0' as int)
  }

  /** What the instant is: the number that is written in each field, in its place. */
  lemma {:induction false} InstantIs(s: string)
    requires IsUtc(s)
    ensures var year, month := Number(s[..4]), Number(s[5..7]);
            && 1 <= month <= 12
            && var leap := year % 4 == 0 && (year % 100 != 0 || year % 400 == 0);
               var day := DayFromYear(year) + MONTH_STARTS[month - 1] + (if month > 2 && leap then 1 else 0)
                          + Number(s[8..10]) - 1;
               InstantOf(s) == 86_400_000 * day + 3_600_000 * Number(s[11..13]) + 60_000 * Number(s[14..16])
                               + 1000 * Number(s[17..19]) + if |s| == 24 then Number(s[20..23]) else 0
  {
    hide DaysBefore, DaysBeforeMonth, Number;
    var f := FieldsOf(s);
    FieldNumbers(s);
    YearStarts(f.year);
    YearStarts(1970);
    MonthStarts(f.year, f.month);
    MonthStarts(1970, 1);
  }

  lemma {:induction false} FieldNumbers(s: string)
    requires IsUtc(s)
    ensures var f := FieldsOf(s);
            && f.year == Number(s[..4]) && f.month == Number(s[5..7]) && f.day == Number(s[8..10])
            && f.hour == Number(s[11..13]) && f.minute == Number(s[14..16]) && f.second == Number(s[17..19])
    ensures MillisPart(s) == if |s| == 24 then Number(s[20..23]) else 0
  {
    hide OnCalendar;
    assert s[..4] == s[0..4];
    TwoIs(s, 0);
    TwoIs(s, 2);
    Pairs(s[0..2], s[2..4], s[0..4]);
    TwoIs(s, 5);
    TwoIs(s, 8);
    TwoIs(s, 11);
    TwoIs(s, 14);
    TwoIs(s, 17);
    if |s| == 24 {
      TwoIs(s, 20);
      assert FitsAt(s, 22);
      assert s[20..23][..2] == s[20..22];
    }
  }

  lemma {:induction false} TwoIs(s: string, i: nat)
    requires IsUtc(s) && i in {0, 2, 5, 8, 11, 14, 17, 20} && (i == 20 ==> |s| == 24)
    ensures i + 2 <= |s| && Two(s, i) == Number(s[i..i + 2])
  {
    hide OnCalendar, Number, FieldsOf;
    assert FitsAt(s, i) && FitsAt(s, i + 1);
    SliceOfTwo(s, i);
    PairIs(s[i], s[i + 1]);
  }

  lemma {:induction false} SliceOfTwo<T>(s: seq<T>, i: nat)
    requires i + 2 <= |s|
    ensures s[i..i + 2] == [s[i], s[i + 1]]
  {
  }

  lemma {:induction false} PairIs(c: char, d: char)
    requires IsDigit(c) && IsDigit(d)
    ensures Number([c, d]) == 10 * Digit(c) + Digit(d)
  {
    assert [c, d][..1] == [c] && [c][..0] == [];
    assert Number([c]) == 10 * Number([c][..0]) + (c as int - '0' as int);
  }

  lemma {:induction false} Pairs(a: string, b: string, both: string)
    requires |a| == 2 && |b| == 2 && both == a + b
    ensures Number(both) == 100 * Number(a) + Number(b)
  {
    assert both[..3][..2] == a && b[..1][..0] == [];
    assert Number(both) == 10 * Number(both[..3]) + (b[1] as int - '0' as int);
    assert Number(b) == 10 * Number(b[..1]) + (b[1] as int - '0' as int);
  }
}
