/**
 Nordic option rows: a row is read as a call only if its full name, its expiry and strike
 fields and its native symbol all encode one contract. Strikes are compared as exact decimals.
 */
module NordicContracts {
  import opened Calendar
  import opened Wrappers

  // ---- exact decimals

  function DotAt(s: string): (n: nat)
    ensures n <= |s| && '.' !in s[..n] && (n < |s| ==> s[n] == '.')
  {
    if s == [] || s[0] == '.' then 0
    else
      var n := DotAt(s[1..]);
      assert s[..n + 1] == [s[0]] + s[1..][..n];
      n + 1
  }

  function Whole(s: string): string { s[..DotAt(s)] }

  function Fraction(s: string): string { if DotAt(s) < |s| then s[DotAt(s) + 1..] else [] }

  predicate IsDecimal(s: string) { AllDigits(Whole(s)) && AllDigits(Fraction(s)) }

  /** `Decimal(text)` */
  function DecimalValue(s: string): real
    requires IsDecimal(s)
  {
    Value(Whole(s) + Fraction(s)) as real / Pow10(|Fraction(s)|) as real
  }

  predicate HasFraction(s: string, least: nat, most: nat) { DotAt(s) == |s| || least <= |Fraction(s)| <= most }

  predicate IsPlainWhole(w: string) { w == "0" || (w != [] && w[0] != '0') }

  /** A strike in a native symbol: no leading zero, at most six digits and four decimals. */
  predicate IsStrikeText(s: string) {
    IsDecimal(s) && IsPlainWhole(Whole(s)) && |Whole(s)| <= 6 && HasFraction(s, 1, 4)
  }

  /** A strike in a full name, which may have leading zeros. */
  predicate IsNameStrike(s: string) {
    IsDecimal(s) && 1 <= |Whole(s)| <= 6 && HasFraction(s, 1, 4)
  }

  predicate IsCanonicalDecimal(s: string) {
    IsDecimal(s) && IsPlainWhole(Whole(s)) && HasFraction(s, 1, |s|)
  }

  /** Digits, and after a point more digits, if there are any. */
  ghost predicate IsNumber(s: string, whole: string, fraction: string) {
    && AllDigits(whole) && AllDigits(fraction) && |whole| > 0
    && (s == if |fraction| == 0 then whole else whole + ['.'] + fraction)
  }

  lemma {:induction false} NoPointInDigits(whole: string, rest: string)
    requires AllDigits(whole) && (rest == [] || rest[0] == '.')
    ensures DotAt(whole + rest) == |whole|
  {
    if whole == [] {
      assert whole + rest == rest;
    } else {
      NoPointInDigits(whole[1..], rest);
      assert (whole + rest)[1..] == whole[1..] + rest;
    }
  }

  lemma PartsOfANumber(s: string, whole: string, fraction: string)
    requires IsNumber(s, whole, fraction)
    ensures Whole(s) == whole && Fraction(s) == fraction && (DotAt(s) == |s| <==> |fraction| == 0)
  {
    if |fraction| == 0 {
      assert s == whole + [];
      NoPointInDigits(whole, []);
    } else {
      assert s == whole + (['.'] + fraction);
      NoPointInDigits(whole, ['.'] + fraction);
      assert s[|whole| + 1..] == fraction;
    }
  }

  lemma NumberOfItsParts(s: string)
    requires IsDecimal(s) && |Whole(s)| > 0 && (DotAt(s) < |s| ==> |Fraction(s)| > 0)
    ensures IsNumber(s, Whole(s), Fraction(s))
  {
    if DotAt(s) < |s| { assert s == Whole(s) + ['.'] + Fraction(s); }
  }

  /** No leading zero, up to six digits, and up to four decimals. */
  ghost predicate IsNativeStrike(s: string, whole: string, fraction: string) {
    IsNumber(s, whole, fraction) && |whole| <= 6 && |fraction| <= 4 && (|whole| > 1 ==> whole[0] != '0')
  }

  lemma StrikeTextIff(s: string)
    ensures IsStrikeText(s) <==> exists whole, fraction :: IsNativeStrike(s, whole, fraction)
  {
    if IsStrikeText(s) {
      NumberOfItsParts(s);
      assert IsNativeStrike(s, Whole(s), Fraction(s));
    }
    if whole, fraction :| IsNativeStrike(s, whole, fraction) { PartsOfANumber(s, whole, fraction); }
  }

  /** In a full name leading zeros are allowed. */
  ghost predicate IsNamedStrike(s: string, whole: string, fraction: string) {
    IsNumber(s, whole, fraction) && |whole| <= 6 && |fraction| <= 4
  }

  lemma NameStrikeIff(s: string)
    ensures IsNameStrike(s) <==> exists whole, fraction :: IsNamedStrike(s, whole, fraction)
  {
    if IsNameStrike(s) {
      NumberOfItsParts(s);
      assert IsNamedStrike(s, Whole(s), Fraction(s));
    }
    if whole, fraction :| IsNamedStrike(s, whole, fraction) { PartsOfANumber(s, whole, fraction); }
  }

  /** In a field any number of digits and decimals, without a leading zero. */
  ghost predicate IsFieldNumber(s: string, whole: string, fraction: string) {
    IsNumber(s, whole, fraction) && (|whole| > 1 ==> whole[0] != '0')
  }

  lemma CanonicalDecimalIff(s: string)
    ensures IsCanonicalDecimal(s) <==> exists whole, fraction :: IsFieldNumber(s, whole, fraction)
  {
    if IsCanonicalDecimal(s) {
      NumberOfItsParts(s);
      assert IsFieldNumber(s, Whole(s), Fraction(s));
    }
    if whole, fraction :| IsFieldNumber(s, whole, fraction) { PartsOfANumber(s, whole, fraction); }
  }

  // ---- native symbols

  datatype Native = Native(yearDigit: nat, month: nat, day: Option<nat>, strike: real)

  const TAG := 'Y'

  predicate IsWeekly(suffix: string) { |suffix| > 4 && AllDigits(suffix[2..4]) && suffix[4] == TAG }

  function StrikePart(suffix: string): string
    requires |suffix| >= 2
  {
    if IsWeekly(suffix) then suffix[5..] else suffix[2..]
  }

  /** Year digit, call-month letter, for a weekly series the day and its tag, strike. */
  function ParseNative(suffix: string): Option<Native> {
    if |suffix| >= 2 && IsDigit(suffix[0]) && 'A' <= suffix[1] <= 'L' && IsStrikeText(StrikePart(suffix)) then
      Some(Native(DigitValue(suffix[0]), suffix[1] as int - 'A' as int + 1,
                  if IsWeekly(suffix) then Some(Value(suffix[2..4])) else None, DecimalValue(StrikePart(suffix))))
    else None
  }

  predicate NativeMatches(symbol: string, root: string, expiry: Date, strike: real) {
    && root <= symbol
    && var n := ParseNative(symbol[|root|..]);
       n.Some? && n.value.yearDigit == expiry.year % 10 && n.value.month == expiry.month
       && (n.value.day.Some? ==> n.value.day.value == expiry.day) && n.value.strike == strike
  }

  /** A symbol that matches one contract of a root matches another exactly when they agree on the year's last digit, the month, the
      exact strike and, for a weekly series, the day. */
  lemma OneSymbolTwoContracts(symbol: string, root: string, a: Date, s: real, b: Date, t: real)
    requires NativeMatches(symbol, root, a, s)
    ensures NativeMatches(symbol, root, b, t) <==>
            a.year % 10 == b.year % 10 && a.month == b.month && s == t && (IsWeekly(symbol[|root|..]) ==> a.day == b.day)
  {
  }

  /** A symbol matches contracts of one root only. */
  lemma OneSymbolOneRoot(symbol: string, root: string, other: string, a: Date, s: real, b: Date, t: real)
    requires NativeMatches(symbol, root, a, s) && NativeMatches(symbol, other, b, t)
    ensures root == other
  {
    if |root| < |other| {
      LongerRootCannotMatch(symbol, root, other);
    } else if |other| < |root| {
      LongerRootCannotMatch(symbol, other, root);
    }
  }

  /** The month letter that the longer root would need stands where the shorter one's suffix has digits or the weekly tag. */
  lemma LongerRootCannotMatch(symbol: string, root: string, other: string)
    requires root <= symbol && other <= symbol && |root| < |other|
    ensures ParseNative(symbol[|root|..]).None? || ParseNative(symbol[|other|..]).None?
  {
    var suffix, gap := symbol[|root|..], |other| - |root|;
    assert symbol[|other|..] == suffix[gap..];
    if ParseNative(suffix).Some? && |suffix| >= gap + 2 {
      OneMonthLetter(suffix, gap + 1);
      assert suffix[gap + 1] == suffix[gap..][1];
    }
  }

  lemma OneMonthLetter(suffix: string, i: nat)
    requires ParseNative(suffix).Some? && 2 <= i < |suffix|
    ensures !('A' <= suffix[i] <= 'L')
  {
    var from := if IsWeekly(suffix) then 5 else 2;
    if i < from {
      assert i < 4 ==> suffix[2..4][i - 2] == suffix[i];
    } else {
      assert StrikePart(suffix)[i - from] == suffix[i];
      StrikeHasNoLetter(StrikePart(suffix), i - from);
    }
  }

  lemma StrikeHasNoLetter(s: string, i: nat)
    requires IsDecimal(s) && i < |s|
    ensures IsDigit(s[i]) || s[i] == '.'
  {
    var n := DotAt(s);
    if i < n { assert s[i] == Whole(s)[i]; }
    if i > n { assert s[i] == Fraction(s)[i - n - 1]; }
  }

  // ---- full names

  function MonthName(m: nat): string {
    match m
    case 1 => "JAN" case 2 => "FEB" case 3 => "MAR" case 4 => "APR" case 5 => "MAY" case 6 => "JUN"
    case 7 => "JUL" case 8 => "AUG" case 9 => "SEP" case 10 => "OCT" case 11 => "NOV" case _ => "DEC"
  }

  /** The month up to `m` with this name. */
  function MonthUpTo(text: string, m: nat): Option<nat> {
    if m == 0 then None else if text == MonthName(m) then Some(m) else MonthUpTo(text, m - 1)
  }

  function MonthOf(text: string): Option<nat> { MonthUpTo(text, 12) }

  lemma MonthNamesDiffer(m: nat, n: nat)
    requires 1 <= m < n <= 12
    ensures MonthName(m) != MonthName(n)
  {
    var a, b := MonthName(m), MonthName(n);
    assert a[0] != b[0] || a[1] != b[1] || a[2] != b[2];
  }

  lemma {:induction false} MonthIsFound(m: nat, n: nat)
    requires 1 <= m <= n <= 12
    ensures MonthUpTo(MonthName(m), n) == Some(m) && |MonthName(m)| == 3
  {
    if m < n {
      MonthIsFound(m, n - 1);
      MonthNamesDiffer(m, n);
    }
  }

  predicate IsRoot(root: string) {
    1 <= |root| <= 12 && forall i :: 0 <= i < |root| ==> IsDigit(root[i]) || 'A' <= root[i] <= 'Z'
  }

  datatype Contract = Contract(expiry: Date, strike: real)

  /** What follows the root and its blank: day, month, year, a blank, strike, and the letter of a call. */
  function ParseNameBody(body: string): Option<Contract> {
    if |body| >= 10 && AllDigits(body[..2]) && body[0] <= '3' && AllDigits(body[5..7]) && body[7] == ' ' && body[|body| - 1] == 'C'
       && IsNameStrike(body[8..|body| - 1]) && MonthOf(body[2..5]).Some? then
      var expiry := Date(2000 + Value(body[5..7]), MonthOf(body[2..5]).value, Value(body[..2]));
      if IsDay(expiry) then Some(Contract(expiry, DecimalValue(body[8..|body| - 1]))) else None
    else None
  }

  function ParseName(name: string, root: string): Option<Contract> {
    if IsRoot(root) && root <= name && |name| > |root| && name[|root|] == ' ' then ParseNameBody(name[|root| + 1..]) else None
  }

  lemma TwelveMonths()
    ensures MonthOf("JAN") == Some(1) && MonthOf("FEB") == Some(2) && MonthOf("MAR") == Some(3) && MonthOf("APR") == Some(4)
    ensures MonthOf("MAY") == Some(5) && MonthOf("JUN") == Some(6) && MonthOf("JUL") == Some(7) && MonthOf("AUG") == Some(8)
    ensures MonthOf("SEP") == Some(9) && MonthOf("OCT") == Some(10) && MonthOf("NOV") == Some(11) && MonthOf("DEC") == Some(12)
  {
    forall m | 1 <= m <= 12 ensures MonthOf(MonthName(m)) == Some(m) { MonthIsFound(m, 12); }
    assert MonthName(1) == "JAN" && MonthName(2) == "FEB" && MonthName(3) == "MAR" && MonthName(4) == "APR";
    assert MonthName(5) == "MAY" && MonthName(6) == "JUN" && MonthName(7) == "JUL" && MonthName(8) == "AUG";
    assert MonthName(9) == "SEP" && MonthName(10) == "OCT" && MonthName(11) == "NOV" && MonthName(12) == "DEC";
  }

  lemma RootIff(root: string)
    ensures IsRoot(root) <==> 0 < |root| < 13 && forall c :: c in root ==> '0' <= c <= '9' || 'A' <= c <= 'Z'
  {
    if forall c :: c in root ==> '0' <= c <= '9' || 'A' <= c <= 'Z' {
      forall i | 0 <= i < |root| ensures IsDigit(root[i]) || 'A' <= root[i] <= 'Z' { assert root[i] in root; }
    }
  }

  lemma {:induction false} MonthFound(text: string, m: nat)
    requires MonthUpTo(text, m).Some?
    ensures 1 <= MonthUpTo(text, m).value <= m && text == MonthName(MonthUpTo(text, m).value)
  {
    if text != MonthName(m) { MonthFound(text, m - 1); }
  }

  lemma BodyIsComposed(body: string, c: Contract)
    requires ParseNameBody(body) == Some(c)
    ensures 1 <= c.expiry.month <= 12
    ensures body == body[..2] + MonthName(c.expiry.month) + body[5..7] + [' '] + body[8..|body| - 1] + ['C']
  {
    MonthFound(body[2..5], 12);
    assert body[7..8] == [' '] && body[|body| - 1..] == ['C'];
    assert body == body[..2] + body[2..5] + body[5..7] + body[7..8] + body[8..|body| - 1] + body[|body| - 1..];
  }

  lemma NameParts(name: string, root: string)
    requires ParseName(name, root).Some?
    ensures name == root + [' '] + name[|root| + 1..] && IsRoot(root)
    ensures ParseNameBody(name[|root| + 1..]) == ParseName(name, root)
  {
    assert name == root + name[|root|..|root| + 1] + name[|root| + 1..];
  }

  /** A name that is read is the root, a blank, two digits of the day, the month, two of the year, a blank, a strike and the letter C. */
  lemma NameIsComposed(name: string, root: string, c: Contract) returns (day: string, year: string, strike: string)
    requires ParseName(name, root) == Some(c)
    ensures IsRoot(root) && |day| == 2 && AllDigits(day) && |year| == 2 && AllDigits(year) && IsNameStrike(strike)
    ensures 1 <= c.expiry.month <= 12
    ensures name == root + [' '] + (day + MonthName(c.expiry.month) + year + [' '] + strike + ['C'])
    ensures c.expiry.day == Value(day) && c.expiry.year == 2000 + Value(year) && c.strike == DecimalValue(strike)
  {
    NameParts(name, root);
    var body := name[|root| + 1..];
    BodyIsComposed(body, c);
    day, year, strike := body[..2], body[5..7], body[8..|body| - 1];
  }

  // ---- rows

  datatype StrikeField = WholeNumber(n: int) | DecimalText(text: string) | OtherStrike

  datatype Row = NotAnObject
               | Row(isOption: bool, fullName: Option<string>, strike: StrikeField, expiration: Option<string>, symbol: Option<string>)

  function StrikeValue(f: StrikeField): Option<real> {
    match f
    case WholeNumber(n) => Some(n as real)
    case DecimalText(t) => if |t| <= 16 && IsCanonicalDecimal(t) then Some(DecimalValue(t)) else None
    case OtherStrike => None
  }

  datatype Reading = Ignore | Malformed | Call(expiryText: string, days: int, strike: real)

  predicate EndsWith(text: string, suffix: string) { |suffix| <= |text| && text[|text| - |suffix|..] == suffix }

  function ExpiryOf(row: Row, fromIso: string -> Option<Date>): Option<Date>
    requires row.Row?
  {
    if row.expiration.Some? && |row.expiration.value| == 10 then fromIso(row.expiration.value) else None
  }

  /** What the full name and the two fields say has to agree, and the native symbol has to match it. */
  function Agreed(row: Row, root: string, today: Date, named: Option<Contract>, strike: Option<real>, expiry: Option<Date>): Reading
    requires row.Row? && (expiry.Some? ==> row.expiration.Some?)
  {
    if named.None? || strike.None? || expiry.None? then Malformed
    else if expiry.value != named.value.expiry || strike.value <= 0.0 || strike.value != named.value.strike then Malformed
    else if row.symbol.None? || !NativeMatches(row.symbol.value, root, expiry.value, strike.value) then Malformed
    else Call(row.expiration.value, Ordinal(expiry.value) - Ordinal(today), strike.value)
  }

  /** `fromIso` is `date.fromisoformat`, which reads more than the canonical text of a day. */
  function ReadRow(row: Row, root: string, today: Date, fromIso: string -> Option<Date>): Reading {
    if row.NotAnObject? then Malformed
    else if !row.isOption then Ignore
    else if row.fullName.None? then Malformed
    else if !EndsWith(row.fullName.value, "C") || EndsWith(row.fullName.value, "FUTC") then Ignore
    else Agreed(row, root, today, ParseName(row.fullName.value, root), StrikeValue(row.strike), ExpiryOf(row, fromIso))
  }

  /** The full name, the expiry and strike fields and the native symbol all encode the contract. */
  ghost predicate AllEncode(row: Row, root: string, fromIso: string -> Option<Date>, c: Contract) {
    && row.Row? && row.isOption && c.strike > 0.0
    && row.fullName.Some? && ParseName(row.fullName.value, root) == Some(c)
    && ExpiryOf(row, fromIso) == Some(c.expiry) && StrikeValue(row.strike) == Some(c.strike)
    && row.symbol.Some? && NativeMatches(row.symbol.value, root, c.expiry, c.strike)
  }

  lemma NotFutures(name: string)
    requires |name| >= 2 && name[|name| - 1] == 'C' && name[|name| - 2] != 'T'
    ensures EndsWith(name, "C") && !EndsWith(name, "FUTC")
  {
    if |name| >= 4 { assert name[|name| - 4..][2] == name[|name| - 2]; }
  }

  lemma BodyEndsInCall(body: string)
    requires ParseNameBody(body).Some?
    ensures |body| >= 10 && body[|body| - 1] == 'C' && body[|body| - 2] != 'T'
  {
    var strike := body[8..|body| - 1];
    assert body[|body| - 2] == strike[|strike| - 1];
    StrikeHasNoLetter(strike, |strike| - 1);
  }

  lemma NamesEndInCall(name: string, root: string)
    requires ParseName(name, root).Some?
    ensures EndsWith(name, "C") && !EndsWith(name, "FUTC")
  {
    var body := name[|root| + 1..];
    BodyEndsInCall(body);
    assert name[|name| - 1] == body[|body| - 1] && name[|name| - 2] == body[|body| - 2];
    NotFutures(name);
  }

  lemma AgreeingPartsAreRead(row: Row, root: string, today: Date, c: Contract)
    requires row.Row? && row.expiration.Some? && c.strike > 0.0
    requires row.symbol.Some? && NativeMatches(row.symbol.value, root, c.expiry, c.strike)
    ensures Agreed(row, root, today, Some(c), Some(c.strike), Some(c.expiry))
            == Call(row.expiration.value, Ordinal(c.expiry) - Ordinal(today), c.strike)
  {
  }

  lemma EncodedRowIsRead(row: Row, root: string, today: Date, fromIso: string -> Option<Date>, c: Contract)
    ensures AllEncode(row, root, fromIso, c) ==>
              ReadRow(row, root, today, fromIso) == Call(row.expiration.value, Ordinal(c.expiry) - Ordinal(today), c.strike)
  {
    if AllEncode(row, root, fromIso, c) {
      NamesEndInCall(row.fullName.value, root);
      AgreeingPartsAreRead(row, root, today, c);
    }
  }

  /** A row is read as a call exactly when all four encode one contract, which is then the one read. */
  lemma CallIffAllEncode(row: Row, root: string, today: Date, fromIso: string -> Option<Date>)
    ensures ReadRow(row, root, today, fromIso).Call? <==> exists c :: AllEncode(row, root, fromIso, c)
    ensures forall c :: AllEncode(row, root, fromIso, c) ==>
              ReadRow(row, root, today, fromIso) == Call(row.expiration.value, Ordinal(c.expiry) - Ordinal(today), c.strike)
  {
    if ReadRow(row, root, today, fromIso).Call? {
      assert AllEncode(row, root, fromIso, ParseName(row.fullName.value, root).value);
    }
    forall c | AllEncode(row, root, fromIso, c)
      ensures ReadRow(row, root, today, fromIso) == Call(row.expiration.value, Ordinal(c.expiry) - Ordinal(today), c.strike)
    {
      EncodedRowIsRead(row, root, today, fromIso, c);
    }
  }

  ghost predicate IsOtherName(name: string) {
    |name| == 0 || name[|name| - 1] != 'C' || (|name| >= 4 && name[|name| - 4..] == ['F', 'U', 'T', 'C'])
  }

  /** A row is passed over exactly when it is no option, or has a name that does not end in C or ends in FUTC. */
  lemma IgnoredIff(row: Row, root: string, today: Date, fromIso: string -> Option<Date>)
    ensures ReadRow(row, root, today, fromIso) == Ignore <==>
            row.Row? && (!row.isOption || (row.fullName.Some? && IsOtherName(row.fullName.value)))
  {
    if row.Row? && row.fullName.Some? && |row.fullName.value| > 0 {
      var name := row.fullName.value;
      assert name[|name| - 1..] == [name[|name| - 1]];
    }
  }

  /** A strike field is read when it is a number, or a text of up to sixteen characters that is one. */
  lemma StrikeFieldIff(f: StrikeField)
    ensures StrikeValue(f).Some? <==>
            match f
            case WholeNumber(_) => true
            case DecimalText(t) => |t| < 17 && exists whole, fraction :: IsFieldNumber(t, whole, fraction)
            case OtherStrike => false
  {
    if f.DecimalText? { CanonicalDecimalIff(f.text); }
  }

  // ---- printing a contract

  /** A number without leading zeros. */
  function Digits(n: nat): (s: string)
    ensures AllDigits(s) && IsPlainWhole(s)
  {
    if n < 10 then [DigitChar(n)] else Digits(n / 10) + [DigitChar(n % 10)]
  }

  lemma {:induction false} DigitsValue(n: nat, width: nat)
    requires n < Pow10(width) && width > 0
    ensures Value(Digits(n)) == n && |Digits(n)| <= width
  {
    if n >= 10 {
      assert width > 1 by { assert Pow10(1) == 10 by { assert Pow10(0) == 1; } }
      DigitsValue(n / 10, width - 1);
      assert Digits(n)[..|Digits(n)| - 1] == Digits(n / 10);
    } else {
      assert Value([DigitChar(n)]) == 10 * Value([]) + n by { assert [DigitChar(n)][..0] == []; }
    }
  }

  lemma {:induction false} ValueOfPadded(front: string, n: nat, width: nat)
    requires AllDigits(front) && n < Pow10(width)
    ensures Value(front + Padded(n, width)) == Value(front) * Pow10(width) + n
  {
    if width == 0 {
      assert front + Padded(n, width) == front;
    } else {
      var all, shorter := front + Padded(n, width), front + Padded(n / 10, width - 1);
      ValueOfPadded(front, n / 10, width - 1);
      assert all[..|all| - 1] == shorter && all[|all| - 1] == DigitChar(n % 10);
      ShiftOne(Value(front), Pow10(width - 1), n);
    }
  }

  lemma ShiftOne(v: nat, p: nat, n: nat)
    ensures 10 * (v * p + n / 10) + n % 10 == v * (10 * p) + n
  {
    assert v * (10 * p) == 10 * (v * p);
  }

  /** A strike in units of one ten-thousandth: up to six digits and four decimals. */
  function PrintStrike(n: nat): string { Digits(n / 10000) + ['.'] + Padded(n % 10000, 4) }

  lemma {:induction false} DotAfter(w: string, f: string)
    requires '.' !in w
    ensures DotAt(w + ['.'] + f) == |w|
  {
    if w != [] {
      DotAfter(w[1..], f);
      assert (w + ['.'] + f)[1..] == w[1..] + ['.'] + f;
    } else {
      assert (w + ['.'] + f)[0] == '.';
    }
  }

  lemma PrintedStrike(n: nat)
    requires n < 10_000_000_000
    ensures IsStrikeText(PrintStrike(n)) && IsNameStrike(PrintStrike(n)) && IsCanonicalDecimal(PrintStrike(n)) && |PrintStrike(n)| <= 11
    ensures DecimalValue(PrintStrike(n)) == n as real / 10000.0
  {
    var w, f, s := Digits(n / 10000), Padded(n % 10000, 4), PrintStrike(n);
    assert Pow10(4) == 10000;
    assert Pow10(6) == 1000000;
    DigitsValue(n / 10000, 6);
    DotAfter(w, f);
    assert Whole(s) == w && Fraction(s) == f;
    ValueOfPadded(w, n % 10000, 4);
    assert Value(w + f) == n;
  }

  function PrintBody(d: Date, strike: string): string
    requires IsDay(d)
  {
    Padded(d.day, 2) + MonthName(d.month) + Padded(d.year % 100, 2) + [' '] + strike + ['C']
  }

  /** `ROOT DDMMMYY STRIKEC` */
  function PrintName(root: string, d: Date, strike: string): string
    requires IsDay(d)
  {
    root + [' '] + PrintBody(d, strike)
  }

  /** `ROOT`, year digit, month letter, for the weekly form day and tag, strike. */
  function PrintNative(root: string, d: Date, strike: string, weekly: bool): string
    requires IsDay(d)
  {
    root + ([DigitChar(d.year % 10), 'A' + (d.month - 1) as char] + (if weekly then Padded(d.day, 2) + [TAG] else []) + strike)
  }

  lemma TwoDigits(n: nat)
    requires n < 100
    ensures Value(Padded(n, 2)) == n
  {
    assert Pow10(2) == 100;
    PaddedValue(n, 2);
  }

  lemma PiecesParse(body: string, day: string, month: string, year: string, strike: string, d: Date)
    requires |body| >= 10 && body[..2] == day && body[0] <= '3' && body[2..5] == month && body[5..7] == year
    requires body[7] == ' ' && body[8..|body| - 1] == strike && body[|body| - 1] == 'C'
    requires AllDigits(day) && AllDigits(year) && IsNameStrike(strike) && MonthOf(month) == Some(d.month)
    requires IsDay(d) && Value(day) == d.day && 2000 + Value(year) == d.year
    ensures ParseNameBody(body) == Some(Contract(d, DecimalValue(strike)))
  {
  }

  lemma PiecesOf(day: string, month: string, year: string, strike: string)
    requires |day| == 2 && |month| == 3 && |year| == 2
    ensures var body := day + month + year + [' '] + strike + ['C'];
            && |body| == 9 + |strike| && body[..2] == day && body[0] == day[0] && body[2..5] == month && body[5..7] == year
            && body[7] == ' ' && body[8..|body| - 1] == strike && body[|body| - 1] == 'C'
  {
  }

  lemma PrintedBody(d: Date, strike: string)
    requires IsDay(d) && 2000 <= d.year <= 2099 && IsNameStrike(strike)
    ensures ParseNameBody(PrintBody(d, strike)) == Some(Contract(d, DecimalValue(strike)))
  {
    var day, month, year := Padded(d.day, 2), MonthName(d.month), Padded(d.year % 100, 2);
    MonthIsFound(d.month, 12);
    DayParts(d);
    PiecesOf(day, month, year, strike);
    PiecesParse(PrintBody(d, strike), day, month, year, strike, d);
  }

  lemma PrintedName(root: string, d: Date, strike: string)
    requires IsRoot(root) && IsDay(d) && 2000 <= d.year <= 2099 && IsNameStrike(strike)
    ensures ParseName(PrintName(root, d, strike), root) == Some(Contract(d, DecimalValue(strike)))
  {
    PrintedBody(d, strike);
    FrontOf(PrintName(root, d, strike), root, PrintBody(d, strike));
  }

  lemma DayParts(d: Date)
    requires IsDay(d) && 2000 <= d.year <= 2099
    ensures Value(Padded(d.day, 2)) == d.day && Padded(d.day, 2)[0] <= '3' && 2000 + Value(Padded(d.year % 100, 2)) == d.year
  {
    TwoDigits(d.day);
    TwoDigits(d.year % 100);
    DayStartsLow(d.day);
  }

  lemma FrontOf(name: string, root: string, body: string)
    requires name == root + [' '] + body
    ensures |name| > |root| && root <= name && name[|root|] == ' ' && name[|root| + 1..] == body
  {
  }

  lemma DayStartsLow(day: nat)
    requires day <= 31
    ensures Padded(day, 2)[0] <= '3'
  {
    assert Padded(day, 2) == Padded(day / 10, 1) + [DigitChar(day % 10)];
    assert Padded(day / 10, 1) == Padded(day / 10 / 10, 0) + [DigitChar(day / 10 % 10)];
  }

  lemma WeeklyParses(head: string, day: string, strike: string)
    requires |head| == 2 && |day| == 2 && AllDigits(day)
    ensures IsWeekly(head + (day + [TAG]) + strike) && StrikePart(head + (day + [TAG]) + strike) == strike
    ensures (head + (day + [TAG]) + strike)[2..4] == day
  {
    var suffix := head + (day + [TAG]) + strike;
    assert suffix[2..4] == day && suffix[5..] == strike;
  }

  lemma MonthlyParses(head: string, strike: string)
    requires |head| == 2 && IsStrikeText(strike)
    ensures !IsWeekly(head + [] + strike) && StrikePart(head + [] + strike) == strike
  {
    var suffix := head + [] + strike;
    assert suffix[2..] == strike;
    if |strike| > 2 {
      StrikeHasNoLetter(strike, 2);
      assert suffix[4] == strike[2];
    }
  }

  lemma PrintedNative(root: string, d: Date, strike: string, weekly: bool)
    requires IsDay(d) && IsStrikeText(strike)
    ensures NativeMatches(PrintNative(root, d, strike, weekly), root, d, DecimalValue(strike))
    ensures IsWeekly(PrintNative(root, d, strike, weekly)[|root|..]) <==> weekly
  {
    var head := [DigitChar(d.year % 10), 'A' + (d.month - 1) as char];
    var suffix := head + (if weekly then Padded(d.day, 2) + [TAG] else []) + strike;
    assert PrintNative(root, d, strike, weekly)[|root|..] == suffix;
    assert suffix[0] == head[0] && suffix[1] == head[1];
    if weekly {
      WeeklyParses(head, Padded(d.day, 2), strike);
      TwoDigits(d.day);
    } else {
      MonthlyParses(head, strike);
    }
  }

  function PrintRow(root: string, d: Date, inName: string, inField: string, inSymbol: string, weekly: bool): Row
    requires IsDay(d)
  {
    Row(true, Some(PrintName(root, d, inName)), DecimalText(inField), Some(IsoFormat(d)), Some(PrintNative(root, d, inSymbol, weekly)))
  }

  /** Printing any supported contract gives a row that is read back as that contract, in the monthly and in the weekly form, and
      whatever decimal texts spell its strike. */
  lemma PrintedRowIsRead(root: string, d: Date, inName: string, inField: string, inSymbol: string, weekly: bool, today: Date,
                         fromIso: string -> Option<Date>)
    requires IsRoot(root) && IsDay(d) && 2000 <= d.year <= 2099 && fromIso(IsoFormat(d)) == Some(d)
    requires IsNameStrike(inName) && IsCanonicalDecimal(inField) && |inField| <= 16 && IsStrikeText(inSymbol)
    requires DecimalValue(inName) == DecimalValue(inField) == DecimalValue(inSymbol) > 0.0
    ensures ReadRow(PrintRow(root, d, inName, inField, inSymbol, weekly), root, today, fromIso)
            == Call(IsoFormat(d), Ordinal(d) - Ordinal(today), DecimalValue(inName))
  {
    var row := PrintRow(root, d, inName, inField, inSymbol, weekly);
    PrintedName(root, d, inName);
    PrintedNative(root, d, inSymbol, weekly);
    assert AllEncode(row, root, fromIso, Contract(d, DecimalValue(inName)));
    CallIffAllEncode(row, root, today, fromIso);
  }

  /** Every strike of up to six digits and four decimals has such texts. */
  lemma EveryStrikeCanBePrinted(root: string, d: Date, n: nat, weekly: bool, today: Date, fromIso: string -> Option<Date>)
    requires IsRoot(root) && IsDay(d) && 2000 <= d.year <= 2099 && fromIso(IsoFormat(d)) == Some(d) && 0 < n < 10_000_000_000
    ensures ReadRow(PrintRow(root, d, PrintStrike(n), PrintStrike(n), PrintStrike(n), weekly), root, today, fromIso)
            == Call(IsoFormat(d), Ordinal(d) - Ordinal(today), n as real / 10000.0)
  {
    PrintedStrike(n);
    PrintedRowIsRead(root, d, PrintStrike(n), PrintStrike(n), PrintStrike(n), weekly, today, fromIso);
  }

  // ---- contract sizes

  datatype SizeField = SizeNumber(n: int) | SizeFloat(f: real) | NotFinite | SizeText(text: string) | OtherSize

  datatype Size = StandardSize | NonStandard | UnknownSize

  function SizeOf(positive: bool, hundred: bool): Size {
    if !positive then UnknownSize else if hundred then StandardSize else NonStandard
  }

  function TypedSize(f: SizeField): Size {
    match f
    case SizeNumber(n) => SizeOf(n > 0, n == 100)
    case SizeFloat(x) => SizeOf(x > 0.0, x == 100.0)
    case SizeText(t) =>
      if |t| <= 32 && IsCanonicalDecimal(t) then SizeOf(DecimalValue(t) > 0.0, DecimalValue(t) == 100.0) else UnknownSize
    case NotFinite => UnknownSize
    case OtherSize => UnknownSize
  }

  predicate AllZeros(s: string) { forall i :: 0 <= i < |s| ==> s[i] == '0' }

  /** Decimal text is a standard size exactly when it spells one hundred: "100", or "100." and zeros only. */
  lemma StandardSizeText(t: string)
    ensures TypedSize(SizeText(t)) == StandardSize <==>
            |t| <= 32 && IsCanonicalDecimal(t) && Whole(t) == "100" && AllZeros(Fraction(t))
  {
    if |t| <= 32 && IsCanonicalDecimal(t) {
      DecimalHundred(Whole(t), Fraction(t));
    }
  }

  lemma DecimalHundred(w: string, f: string)
    requires AllDigits(w) && AllDigits(f) && IsPlainWhole(w)
    ensures Value(w + f) as real / Pow10(|f|) as real == 100.0 <==> w == "100" && AllZeros(f)
  {
    ValuePadded(f);
    ValueOfPadded(w, Value(f), |f|);
    HundredIsExact(Value(w), Value(f), Pow10(|f|), Value(w + f));
    PlainHundred(w);
    ZeroValue(f);
  }

  lemma HundredIsExact(w: nat, f: nat, p: nat, all: nat)
    requires p > 0 && f < p && all == w * p + f
    ensures all as real / p as real == 100.0 <==> w == 100 && f == 0
  {
    if w < 100 {
      assert (w + 1) * p <= 100 * p;
    } else if w > 100 {
      assert w * p >= 101 * p;
    }
    assert all == 100 * p <==> w == 100 && f == 0;
    QuotientIsHundred(all, p);
  }

  lemma QuotientIsHundred(all: nat, p: nat)
    requires p > 0
    ensures all as real / p as real == 100.0 <==> all == 100 * p
  {
    var q := all as real / p as real;
    assert q * p as real == all as real;
    assert all == 100 * p <==> all as real == 100.0 * p as real;
  }

  lemma {:induction false} ZeroValue(s: string)
    requires AllDigits(s)
    ensures Value(s) == 0 <==> AllZeros(s)
  {
    if s != [] {
      ZeroValue(s[..|s| - 1]);
      assert s == s[..|s| - 1] + [s[|s| - 1]];
    }
  }

  lemma {:induction false} PlainIsLarge(w: string)
    requires AllDigits(w) && w != [] && w[0] != '0'
    ensures Value(w) >= Pow10(|w| - 1)
  {
    if |w| > 1 {
      PlainIsLarge(w[..|w| - 1]);
    } else {
      assert Value(w[..0]) == 0 && Pow10(0) == 1;
    }
  }

  lemma HundredInThreeDigits()
    ensures Padded(100, 3) == "100" && Value("100") == 100
  {
    assert Padded(1, 1) == Padded(0, 0) + [DigitChar(1)];
    assert Padded(10, 2) == Padded(1, 1) + [DigitChar(0)];
    assert Pow10(3) == 1000 by { assert Pow10(2) == 100; }
    PaddedValue(100, 3);
  }

  lemma ThreeDigitsAtLeast(w: string)
    requires AllDigits(w) && IsPlainWhole(w) && |w| != 3
    ensures Value(w) != 100
  {
    assert Pow10(2) == 100 && Pow10(3) == 1000;
    ValuePadded(w);
    if |w| <= 2 {
      PowersGrow(|w|, 2);
    } else {
      PlainIsLarge(w);
      PowersGrow(3, |w| - 1);
    }
  }

  lemma PlainHundred(w: string)
    requires AllDigits(w) && IsPlainWhole(w)
    ensures Value(w) == 100 <==> w == "100"
  {
    HundredInThreeDigits();
    ValuePadded(w);
    if |w| != 3 { ThreeDigitsAtLeast(w); }
  }

  lemma {:induction false} PowersGrow(a: nat, b: nat)
    requires a <= b
    ensures Pow10(a) <= Pow10(b)
  {
    if a < b { PowersGrow(a, b - 1); }
  }
}
