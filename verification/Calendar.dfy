/**
 Calendar days and their canonical `YYYY-MM-DD` text (full-date, section 5.6 of RFC 3339).
 The programs key, deduplicate and sort periods by that text; the main result here is that
 the order of the text is the order of the days.
 */
module Calendar {
  import opened Ordering
  import opened Wrappers

  datatype Date = Date(year: nat, month: nat, day: nat)

  predicate IsLeap(year: nat) {
    year % 4 == 0 && (year % 100 != 0 || year % 400 == 0)
  }

  function DaysInMonth(year: nat, month: nat): nat {
    if month == 2 then (if IsLeap(year) then 29 else 28)
    else if month in {4, 6, 9, 11} then 30
    else 31
  }

  predicate IsDay(d: Date) {
    1 <= d.year <= 9999 && 1 <= d.month <= 12 && 1 <= d.day <= DaysInMonth(d.year, d.month)
  }

  function DaysBeforeMonth(year: nat, month: nat): nat {
    if month <= 1 then 0 else DaysBeforeMonth(year, month - 1) + DaysInMonth(year, month - 1)
  }

  function DaysBeforeYear(year: nat): nat {
    if year <= 1 then 0 else DaysBeforeYear(year - 1) + if IsLeap(year - 1) then 366 else 365
  }

  /** `date.toordinal`: 1 January of year 1 is day 1. */
  function Ordinal(d: Date): nat {
    DaysBeforeYear(d.year) + DaysBeforeMonth(d.year, d.month) + d.day
  }

  predicate Before(a: Date, b: Date) {
    || a.year < b.year
    || (a.year == b.year && (a.month < b.month || (a.month == b.month && a.day < b.day)))
  }

  lemma {:induction false} MonthsGrow(year: nat, m: nat, n: nat)
    requires 1 <= m < n
    ensures DaysBeforeMonth(year, m) + DaysInMonth(year, m) <= DaysBeforeMonth(year, n)
  {
    if m + 1 < n { MonthsGrow(year, m, n - 1); }
  }

  /** Where the months of a year start; `leap` is the day that a leap year has more. */
  lemma MonthStarts(year: nat)
    requires year >= 1
    ensures var leap := DaysBeforeYear(year + 1) - DaysBeforeYear(year) - 365;
            && DaysBeforeMonth(year, 1) == 0 && DaysBeforeMonth(year, 2) == 31
            && DaysBeforeMonth(year, 3) == 59 + leap && DaysBeforeMonth(year, 4) == 90 + leap
            && DaysBeforeMonth(year, 5) == 120 + leap && DaysBeforeMonth(year, 6) == 151 + leap
            && DaysBeforeMonth(year, 7) == 181 + leap && DaysBeforeMonth(year, 8) == 212 + leap
            && DaysBeforeMonth(year, 9) == 243 + leap && DaysBeforeMonth(year, 10) == 273 + leap
            && DaysBeforeMonth(year, 11) == 304 + leap && DaysBeforeMonth(year, 12) == 334 + leap
            && DaysBeforeMonth(year, 13) == 365 + leap
  {
    assert DaysBeforeMonth(year, 3) == 31 + DaysInMonth(year, 2) by { assert DaysBeforeMonth(year, 2) == 31; }
    assert DaysBeforeMonth(year, 5) == DaysBeforeMonth(year, 3) + 61 by { assert DaysBeforeMonth(year, 4) == DaysBeforeMonth(year, 3) + 31; }
    assert DaysBeforeMonth(year, 7) == DaysBeforeMonth(year, 5) + 61 by { assert DaysBeforeMonth(year, 6) == DaysBeforeMonth(year, 5) + 31; }
    assert DaysBeforeMonth(year, 9) == DaysBeforeMonth(year, 7) + 62 by { assert DaysBeforeMonth(year, 8) == DaysBeforeMonth(year, 7) + 31; }
    assert DaysBeforeMonth(year, 11) == DaysBeforeMonth(year, 9) + 61 by { assert DaysBeforeMonth(year, 10) == DaysBeforeMonth(year, 9) + 30; }
    assert DaysBeforeMonth(year, 13) == DaysBeforeMonth(year, 11) + 61 by { assert DaysBeforeMonth(year, 12) == DaysBeforeMonth(year, 11) + 30; }
  }

  lemma YearEnds(d: Date)
    requires IsDay(d)
    ensures Ordinal(d) <= DaysBeforeYear(d.year + 1)
  {
    MonthsGrow(d.year, d.month, 13);
    MonthStarts(d.year);
  }

  lemma {:induction false} YearsGrow(x: nat, y: nat)
    requires 1 <= x <= y
    ensures DaysBeforeYear(x) <= DaysBeforeYear(y)
  {
    if x < y { YearsGrow(x, y - 1); }
  }

  lemma OrdinalFollowsDays(a: Date, b: Date)
    requires IsDay(a) && IsDay(b)
    ensures Before(a, b) <==> Ordinal(a) < Ordinal(b)
    ensures a == b <==> Ordinal(a) == Ordinal(b)
  {
    if Before(a, b) {
      BeforeIsSmaller(a, b);
    } else if a != b {
      BeforeIsSmaller(b, a);
    }
  }

  lemma BeforeIsSmaller(a: Date, b: Date)
    requires IsDay(a) && IsDay(b) && Before(a, b)
    ensures Ordinal(a) < Ordinal(b)
  {
    if a.year < b.year {
      YearEnds(a);
      YearsGrow(a.year + 1, b.year);
    } else if a.month < b.month {
      MonthsGrow(a.year, a.month, b.month);
    }
  }

  // ---- the Gregorian calendar, by counting days

  lemma CenturiesOneMore(n: nat)
    ensures (n + 1) / 4 == n / 4 + if (n + 1) % 4 == 0 then 1 else 0
    ensures (n + 1) / 100 == n / 100 + if (n + 1) % 100 == 0 then 1 else 0
    ensures (n + 1) / 400 == n / 400 + if (n + 1) % 400 == 0 then 1 else 0
    ensures (n + 1) % 400 == 0 ==> (n + 1) % 100 == 0
    ensures (n + 1) % 100 == 0 ==> (n + 1) % 4 == 0
  {
  }

  /** One leap day every four years, but none in a century year that is not the fourth. */
  lemma {:induction false} DaysBeforeYearClosed(year: nat)
    requires year >= 1
    ensures var n := year - 1; DaysBeforeYear(year) == 365 * n + n / 4 - n / 100 + n / 400
  {
    if year > 1 {
      DaysBeforeYearClosed(year - 1);
      CenturiesOneMore(year - 2);
    }
  }

  ghost predicate IsLastDay(d: Date) { d.year == 9999 && d.month == 12 && d.day == 31 }

  lemma LastDay(d: Date)
    requires IsLastDay(d)
    ensures IsDay(d) && Ordinal(d) == 3_652_059
  {
    MonthStarts(d.year);
    DaysBeforeYearClosed(d.year + 1);
    assert d == Date(d.year, 12, 31);
  }

  /** No day is left out: each but the last has one with the next number. */
  lemma EveryDayHasANext(d: Date) returns (next: Date)
    requires IsDay(d) && !IsLastDay(d)
    ensures IsDay(next) && Ordinal(next) == Ordinal(d) + 1
  {
    if d.day < DaysInMonth(d.year, d.month) {
      next := d.(day := d.day + 1);
    } else if d.month < 12 {
      next := Date(d.year, d.month + 1, 1);
    } else {
      MonthStarts(d.year);
      next := Date(d.year + 1, 1, 1);
    }
  }

  /** So every number from 1 to 3652059 is that of a day. */
  lemma {:induction false} EveryNumberIsADay(n: nat) returns (d: Date)
    requires 1 <= n <= 3_652_059
    ensures IsDay(d) && Ordinal(d) == n
  {
    if n == 1 {
      d := Date(1, 1, 1);
    } else {
      d := EveryNumberIsADay(n - 1);
      if IsLastDay(d) { LastDay(d); }
      d := EveryDayHasANext(d);
    }
  }

  // ---- digits

  predicate IsDigit(c: char) { '0' <= c <= '9' }

  function DigitChar(n: nat): (c: char)
    requires n < 10
    ensures IsDigit(c)
  {
    '0' + n as char
  }

  function DigitValue(c: char): (n: nat)
    requires IsDigit(c)
    ensures n < 10
  {
    c as int - '0' as int
  }

  predicate AllDigits(s: string) { forall i :: 0 <= i < |s| ==> IsDigit(s[i]) }

  /** The decimal value of a run of digits. */
  function Value(s: string): nat
    requires AllDigits(s)
  {
    if s == [] then 0 else 10 * Value(s[..|s| - 1]) + DigitValue(s[|s| - 1])
  }

  function Pow10(k: nat): (p: nat)
    ensures p > 0
  {
    if k == 0 then 1 else 10 * Pow10(k - 1)
  }

  /** `n` in exactly `width` digits. */
  function Padded(n: nat, width: nat): (s: string)
    ensures |s| == width && AllDigits(s)
  {
    if width == 0 then [] else Padded(n / 10, width - 1) + [DigitChar(n % 10)]
  }

  lemma {:induction false} PaddedValue(n: nat, width: nat)
    requires n < Pow10(width)
    ensures Value(Padded(n, width)) == n
  {
    if width > 0 {
      PaddedValue(n / 10, width - 1);
      assert Padded(n, width)[..width - 1] == Padded(n / 10, width - 1);
    }
  }

  lemma {:induction false} ValuePadded(s: string)
    requires AllDigits(s)
    ensures Value(s) < Pow10(|s|) && Padded(Value(s), |s|) == s
  {
    if s != [] {
      ValuePadded(s[..|s| - 1]);
      assert s == s[..|s| - 1] + [s[|s| - 1]];
    }
  }

  /** Two texts whose fronts have one length compare by the front first. */
  lemma {:induction false} CompareBlocks(a: string, a': string, b: string, b': string)
    requires |a| == |b|
    ensures TextLeq(a + a', b + b') <==> if a == b then TextLeq(a', b') else TextLeq(a, b)
  {
    if a == [] {
      assert a + a' == a' && b + b' == b';
    } else {
      CompareBlocks(a[1..], a', b[1..], b');
      assert (a + a')[1..] == a[1..] + a' && (b + b')[1..] == b[1..] + b';
      assert a == [a[0]] + a[1..] && b == [b[0]] + b[1..];
    }
  }

  lemma {:induction false} PaddedOrder(m: nat, n: nat, width: nat)
    requires m < Pow10(width) && n < Pow10(width)
    ensures TextLeq(Padded(m, width), Padded(n, width)) <==> m <= n
    ensures Padded(m, width) == Padded(n, width) <==> m == n
  {
    PaddedValue(m, width);
    PaddedValue(n, width);
    if width > 0 {
      PaddedOrder(m / 10, n / 10, width - 1);
      CompareBlocks(Padded(m / 10, width - 1), [DigitChar(m % 10)], Padded(n / 10, width - 1), [DigitChar(n % 10)]);
    }
  }

  // ---- canonical text

  /** `date.isoformat` */
  function IsoFormat(d: Date): string {
    Padded(d.year, 4) + (['-'] + (Padded(d.month, 2) + (['-'] + Padded(d.day, 2))))
  }

  /** The day a canonical text names; anything else, also another ISO 8601 spelling of a day, names none. */
  function ParseDay(text: string): Option<Date> {
    if |text| == 10 && text[4] == '-' && text[7] == '-'
       && AllDigits(text[..4]) && AllDigits(text[5..7]) && AllDigits(text[8..]) then
      var d := Date(Value(text[..4]), Value(text[5..7]), Value(text[8..]));
      if IsDay(d) then Some(d) else None
    else None
  }

  predicate IsCanonicalDay(text: string) { ParseDay(text).Some? }

  function DayNumber(text: string): nat
    requires IsCanonicalDay(text)
  {
    Ordinal(ParseDay(text).value)
  }

  lemma ParseOfFormat(d: Date)
    requires IsDay(d)
    ensures ParseDay(IsoFormat(d)) == Some(d)
  {
    var text := IsoFormat(d);
    assert text[..4] == Padded(d.year, 4) && text[5..7] == Padded(d.month, 2) && text[8..] == Padded(d.day, 2);
    assert Pow10(4) == 10000 && Pow10(2) == 100;
    PaddedValue(d.year, 4);
    PaddedValue(d.month, 2);
    PaddedValue(d.day, 2);
  }

  /** A text is canonical exactly when it is the format of a day, and then of one day only. */
  lemma CanonicalIsRoundTrip(text: string, d: Date)
    ensures ParseDay(text) == Some(d) <==> IsDay(d) && IsoFormat(d) == text
  {
    if IsDay(d) { ParseOfFormat(d); }
    if ParseDay(text) == Some(d) {
      ValuePadded(text[..4]);
      ValuePadded(text[5..7]);
      ValuePadded(text[8..]);
      assert text == text[..4] + (['-'] + (text[5..7] + (['-'] + text[8..])));
    }
  }

  lemma FormatOrder(a: Date, b: Date)
    requires IsDay(a) && IsDay(b)
    ensures TextLeq(IsoFormat(a), IsoFormat(b)) <==> a == b || Before(a, b)
  {
    assert Pow10(4) == 10000 && Pow10(2) == 100;
    PaddedOrder(a.year, b.year, 4);
    PaddedOrder(a.month, b.month, 2);
    PaddedOrder(a.day, b.day, 2);
    var dayA, dayB := ['-'] + Padded(a.day, 2), ['-'] + Padded(b.day, 2);
    CompareBlocks(['-'], Padded(a.day, 2), ['-'], Padded(b.day, 2));
    CompareBlocks(Padded(a.month, 2), dayA, Padded(b.month, 2), dayB);
    CompareBlocks(['-'], Padded(a.month, 2) + dayA, ['-'], Padded(b.month, 2) + dayB);
    CompareBlocks(Padded(a.year, 4), ['-'] + (Padded(a.month, 2) + dayA), Padded(b.year, 4), ['-'] + (Padded(b.month, 2) + dayB));
  }

  /** The main result: canonical texts sort as text in day order, and equal days have equal text. */
  lemma CanonicalTextSortsInDayOrder(a: string, b: string)
    requires IsCanonicalDay(a) && IsCanonicalDay(b)
    ensures TextLeq(a, b) <==> DayNumber(a) <= DayNumber(b)
    ensures a == b <==> DayNumber(a) == DayNumber(b)
  {
    var p, q := ParseDay(a).value, ParseDay(b).value;
    CanonicalIsRoundTrip(a, p);
    CanonicalIsRoundTrip(b, q);
    FormatOrder(p, q);
    OrdinalFollowsDays(p, q);
  }
}
