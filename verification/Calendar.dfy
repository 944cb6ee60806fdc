/** Factory dates, their `YYYY-MM-DD` keys and the order of strings. */
module Calendar {
  import opened Options

  // ----- dates -----

  datatype Date = Date(year: int, month: int, day: int)

  const DAYS_BY_MONTH: seq<int> := [31, 28, 31, 30, 31, 30, 31, 31, 30, 31, 30, 31]

  /** Days from the first of January of year 0 to the first of January 1970. */
  const EPOCH := 719_528

  predicate Leap(year: int) {
    year % 4 == 0 && (year % 100 != 0 || year % 400 == 0)
  }

  function DaysInMonth(year: int, month: int): int {
    if month == 2 && Leap(year) then 29 else if 1 <= month <= 12 then DAYS_BY_MONTH[month - 1] else 0
  }

  predicate Valid(d: Date) {
    1 <= d.month <= 12 && 1 <= d.day <= DaysInMonth(d.year, d.month)
  }

  predicate Before(a: Date, b: Date) {
    a.year < b.year || (a.year == b.year && (a.month < b.month || (a.month == b.month && a.day < b.day)))
  }

  function Next(d: Date): Date {
    if d.day < DaysInMonth(d.year, d.month) then d.(day := d.day + 1)
    else if d.month < 12 then Date(d.year, d.month + 1, 1)
    else Date(d.year + 1, 1, 1)
  }

  function Previous(d: Date): Date {
    if d.day > 1 then d.(day := d.day - 1)
    else if d.month > 1 then Date(d.year, d.month - 1, DaysInMonth(d.year, d.month - 1))
    else Date(d.year - 1, 12, 31)
  }

  function Shift(d: Date, days: int): Date
    decreases if days < 0 then -days else days
  {
    if days > 0 then Next(Shift(d, days - 1))
    else if days < 0 then Previous(Shift(d, days + 1))
    else d
  }

  // ----- day numbers: the closed form that the stepping is checked against -----

  /** How many multiples of `n` lie between year 0 and this year. */
  function MultiplesBefore(year: int, n: int): int
    requires n > 0
  {
    (year + n - 1) / n
  }

  function DaysBeforeYear(year: int): int {
    365 * year + MultiplesBefore(year, 4) - MultiplesBefore(year, 100) + MultiplesBefore(year, 400)
  }

  function DaysBeforeMonth(year: int, month: int): int
    decreases month
  {
    if month <= 1 then 0 else DaysBeforeMonth(year, month - 1) + DaysInMonth(year, month - 1)
  }

  /** Days since the first of January 1970. */
  function DayNumber(d: Date): int {
    DaysBeforeYear(d.year) + DaysBeforeMonth(d.year, d.month) + d.day - 1 - EPOCH
  }

  function YearLength(year: int): int {
    if Leap(year) then 366 else 365
  }

  lemma FoursStep(year: int)
    ensures MultiplesBefore(year + 1, 4) == MultiplesBefore(year, 4) + if year % 4 == 0 then 1 else 0
  {
  }

  lemma HundredsStep(year: int)
    ensures MultiplesBefore(year + 1, 100) == MultiplesBefore(year, 100) + if year % 100 == 0 then 1 else 0
  {
  }

  lemma FourHundredsStep(year: int)
    ensures MultiplesBefore(year + 1, 400) == MultiplesBefore(year, 400) + if year % 400 == 0 then 1 else 0
  {
  }

  lemma HundredsAreFours(year: int, q: int)
    requires year == 100 * q
    ensures year % 4 == 0
  {
    assert year == 4 * (25 * q) + 0;
  }

  lemma FourHundredsAreHundreds(year: int, q: int)
    requires year == 400 * q
    ensures year % 100 == 0
  {
    assert year == 100 * (4 * q) + 0;
  }

  lemma YearsAreConsecutive(year: int)
    ensures DaysBeforeYear(year + 1) == DaysBeforeYear(year) + YearLength(year)
  {
    FoursStep(year);
    HundredsStep(year);
    FourHundredsStep(year);
    if year % 100 == 0 {
      HundredsAreFours(year, year / 100);
    }
    if year % 400 == 0 {
      FourHundredsAreHundreds(year, year / 400);
    }
  }

  lemma MonthsFillYear(year: int)
    ensures DaysBeforeMonth(year, 13) == YearLength(year)
  {
    var feb := DaysInMonth(year, 2);
    assert DaysBeforeMonth(year, 3) == 31 + feb;
    assert DaysBeforeMonth(year, 5) == 31 + feb + 61;
    assert DaysBeforeMonth(year, 7) == 31 + feb + 122;
    assert DaysBeforeMonth(year, 9) == 31 + feb + 184;
    assert DaysBeforeMonth(year, 11) == 31 + feb + 245;
  }

  lemma {:induction false} YearsIncrease(a: int, b: int)
    requires a < b
    ensures DaysBeforeYear(a) + YearLength(a) <= DaysBeforeYear(b)
    decreases b - a
  {
    YearsAreConsecutive(a);
    if a + 1 < b {
      YearsIncrease(a + 1, b);
    }
  }

  lemma {:induction false} MonthsIncrease(year: int, a: int, b: int)
    requires 1 <= a < b <= 13
    ensures DaysBeforeMonth(year, a) + DaysInMonth(year, a) <= DaysBeforeMonth(year, b)
    decreases b - a
  {
    if a + 1 < b {
      MonthsIncrease(year, a, b - 1);
    }
  }

  lemma DayWithinYear(d: Date)
    requires Valid(d)
    ensures DaysBeforeYear(d.year) <= DayNumber(d) + EPOCH < DaysBeforeYear(d.year) + YearLength(d.year)
  {
    MonthsFillYear(d.year);
    MonthsIncrease(d.year, d.month, 13);
    if d.month > 1 {
      MonthsIncrease(d.year, 1, d.month);
    }
  }

  lemma BeforeCountsLess(a: Date, b: Date)
    requires Valid(a) && Valid(b) && Before(a, b)
    ensures DayNumber(a) < DayNumber(b)
  {
    DayWithinYear(a);
    DayWithinYear(b);
    if a.year < b.year {
      YearsIncrease(a.year, b.year);
    } else if a.month < b.month {
      MonthsIncrease(a.year, a.month, b.month);
    }
  }

  /** Day numbers order and identify valid dates. */
  lemma DayNumberOrders(a: Date, b: Date)
    requires Valid(a) && Valid(b)
    ensures Before(a, b) <==> DayNumber(a) < DayNumber(b)
    ensures a == b <==> DayNumber(a) == DayNumber(b)
  {
    if Before(a, b) {
      BeforeCountsLess(a, b);
    } else if Before(b, a) {
      BeforeCountsLess(b, a);
    }
  }

  lemma NextAddsADay(d: Date)
    requires Valid(d)
    ensures Valid(Next(d)) && DayNumber(Next(d)) == DayNumber(d) + 1
  {
    if d.day == DaysInMonth(d.year, d.month) && d.month == 12 {
      LastDayOfYear(d.year);
    }
  }

  lemma LastDayOfYear(year: int)
    ensures DayNumber(Date(year, 12, 31)) + 1 == DayNumber(Date(year + 1, 1, 1))
  {
    YearsAreConsecutive(year);
    MonthsFillYear(year);
    assert DaysBeforeMonth(year, 13) == DaysBeforeMonth(year, 12) + 31;
  }

  lemma PreviousTakesADay(d: Date)
    requires Valid(d)
    ensures Valid(Previous(d)) && DayNumber(Previous(d)) == DayNumber(d) - 1
  {
    if d.day == 1 && d.month == 1 {
      LastDayOfYear(d.year - 1);
    }
  }

  /** Shifting by days moves exactly that many days, in either direction and across any month or
      leap year. */
  lemma {:induction false} ShiftAddsDays(d: Date, days: int)
    requires Valid(d)
    ensures Valid(Shift(d, days)) && DayNumber(Shift(d, days)) == DayNumber(d) + days
    decreases if days < 0 then -days else days
  {
    if days > 0 {
      ShiftAddsDays(d, days - 1);
      NextAddsADay(Shift(d, days - 1));
    } else if days < 0 {
      ShiftAddsDays(d, days + 1);
      PreviousTakesADay(Shift(d, days + 1));
    }
  }

  lemma ShiftsCancel(d: Date, m: int, n: int)
    requires Valid(d)
    ensures Shift(Shift(d, m), n) == Shift(d, m + n)
  {
    ShiftAddsDays(d, m);
    ShiftAddsDays(d, m + n);
    ShiftAddsDays(Shift(d, m), n);
    DayNumberOrders(Shift(Shift(d, m), n), Shift(d, m + n));
  }

  /** The date as the platform's calendar takes it: a year before 100 counts from 1900.  The first
      century has a leap day in year 0, where 1900 has none and goes on to the first of March. */
  function InPlatformYear(d: Date): Date {
    if 0 <= d.year < 100 then
      if d.year == 0 && d.month == 2 && d.day == 29 then Date(1900, 3, 1) else d.(year := d.year + 1900)
    else d
  }

  /** What the program's date arithmetic computes. */
  function ShiftDate(d: Date, days: int): Date {
    Shift(InPlatformYear(d), days)
  }

  lemma PlatformYearIsValid(d: Date)
    requires Valid(d)
    ensures Valid(InPlatformYear(d))
  {
  }

  lemma CenturiesApart(d: Date)
    requires Valid(d) && 0 <= d.year < 100
    ensures DayNumber(InPlatformYear(d)) > DayNumber(d) + 1
  {
    PlatformYearIsValid(d);
    NextAddsADay(d);
    DayNumberOrders(Next(d), InPlatformYear(d));
  }

  /** Shifting a date moves exactly that many days exactly if its year is not one of the first
      hundred. */
  lemma ShiftIsExactIff(d: Date, days: int)
    requires Valid(d)
    ensures Valid(ShiftDate(d, days))
    ensures DayNumber(ShiftDate(d, days)) == DayNumber(d) + days <==> d.year < 0 || d.year >= 100
  {
    PlatformYearIsValid(d);
    ShiftAddsDays(InPlatformYear(d), days);
    if 0 <= d.year < 100 {
      CenturiesApart(d);
    }
  }

  /** The date of a day number. */
  function DateOfDay(n: int): (d: Date)
    ensures Valid(d) && DayNumber(d) == n
  {
    assert DayNumber(Date(1970, 1, 1)) == 0;
    ShiftAddsDays(Date(1970, 1, 1), n);
    Shift(Date(1970, 1, 1), n)
  }

  // ----- strings -----

  /** The order of strings: by the first character that differs. */
  predicate Less(a: string, b: string) {
    b != [] && (a == [] || a[0] < b[0] || (a[0] == b[0] && Less(a[1..], b[1..])))
  }

  lemma {:induction false} LessIrreflexive(a: string)
    ensures !Less(a, a)
  {
    if a != [] {
      LessIrreflexive(a[1..]);
    }
  }

  lemma {:induction false} LessTotal(a: string, b: string)
    ensures a == b || Less(a, b) || Less(b, a)
  {
    if a != [] && b != [] && a[0] == b[0] {
      LessTotal(a[1..], b[1..]);
      assert a == [a[0]] + a[1..] && b == [b[0]] + b[1..];
    }
  }

  lemma {:induction false} LessTransitive(a: string, b: string, c: string)
    requires Less(a, b) && Less(b, c)
    ensures Less(a, c)
  {
    if a != [] && a[0] == b[0] == c[0] {
      LessTransitive(a[1..], b[1..], c[1..]);
    }
  }

  /** Two strings that start with equally long parts compare by these parts first. */
  lemma {:induction false} LessByParts(a: string, b: string, c: string, d: string)
    requires |a| == |b|
    ensures Less(a + c, b + d) <==> Less(a, b) || (a == b && Less(c, d))
  {
    if a == [] {
      assert a + c == c && b + d == d;
    } else {
      assert (a + c)[1..] == a[1..] + c && (b + d)[1..] == b[1..] + d;
      LessByParts(a[1..], b[1..], c, d);
      assert a == b <==> a[0] == b[0] && a[1..] == b[1..];
    }
  }

  function Power(width: nat): nat {
    if width == 0 then 1 else 10 * Power(width - 1)
  }

  function DigitChar(n: int): (c: char)
    requires 0 <= n < 10
    ensures '0' <= c <= '9'
  {
    '0' + n as char
  }

  /** The decimal digits of a number, padded to a width. */
  function Digits(n: nat, width: nat): (s: string)
    ensures |s| == width && forall i :: 0 <= i < width ==> '0' <= s[i] <= '9'
  {
    if width == 0 then "" else Digits(n / 10, width - 1) + [DigitChar(n % 10)]
  }

  lemma {:induction false} DigitsOrder(m: nat, n: nat, width: nat)
    requires m < Power(width) && n < Power(width)
    ensures Less(Digits(m, width), Digits(n, width)) <==> m < n
    ensures Digits(m, width) == Digits(n, width) <==> m == n
  {
    if width > 0 {
      var a, b := Digits(m / 10, width - 1), Digits(n / 10, width - 1);
      var c, d := [DigitChar(m % 10)], [DigitChar(n % 10)];
      DigitsOrder(m / 10, n / 10, width - 1);
      LessByParts(a, b, c, d);
      assert Less(c, d) <==> m % 10 < n % 10;
      assert a + c == b + d <==> a == b && c == d by {
        assert (a + c)[..width - 1] == a && (b + d)[..width - 1] == b;
        assert (a + c)[width - 1] == c[0] && (b + d)[width - 1] == d[0];
      }
    }
  }

  // ----- keys -----

  predicate FourDigitYear(d: Date) {
    0 <= d.year <= 9999
  }

  /** Years whose neighbouring dates still have keys of ten characters. */
  predicate InRange(d: Date) {
    Valid(d) && 1000 <= d.year <= 9998
  }

  lemma ShiftStaysInFourDigits(d: Date, days: int)
    requires InRange(d) && -300 <= days <= 300
    ensures Valid(Shift(d, days)) && FourDigitYear(Shift(d, days))
  {
    var s := Shift(d, days);
    ShiftAddsDays(d, days);
    DayNumberOrders(Date(999, 1, 1), s);
    DayNumberOrders(s, Date(9999, 12, 31));
    DayWithinYear(d);
    YearsAtLeast(999, d.year);
    YearsAtLeast(d.year, 9998);
    assert DaysBeforeYear(1000) - DaysBeforeYear(999) == 365 && DaysBeforeYear(9999) - DaysBeforeYear(9998) == 365;
    LastDayOfYear(9999);
    assert DaysBeforeYear(10_000) - DaysBeforeYear(9999) == 365;
    assert DayNumber(Date(999, 1, 1)) == DaysBeforeYear(999) - EPOCH;
  }

  lemma YearsAtLeast(a: int, b: int)
    requires a <= b
    ensures DaysBeforeYear(a) + (if a < b then YearLength(a) else 0) <= DaysBeforeYear(b)
  {
    if a < b {
      YearsIncrease(a, b);
    }
  }

  function Key(d: Date): (s: string)
    requires Valid(d) && FourDigitYear(d)
    ensures |s| == 10
  {
    Joined(Digits(d.year, 4), '-', Joined(Digits(d.month, 2), '-', Digits(d.day, 2)))
  }

  /** Two parts with a separator between them. */
  function Joined(a: string, sep: char, b: string): string {
    a + ([sep] + b)
  }

  lemma JoinedOrder(a: string, b: string, sep: char, c: string, d: string)
    requires |a| == |b|
    ensures Less(Joined(a, sep, c), Joined(b, sep, d)) <==> Less(a, b) || (a == b && Less(c, d))
    ensures Joined(a, sep, c) == Joined(b, sep, d) <==> a == b && c == d
  {
    LessByParts(a, b, [sep] + c, [sep] + d);
    LessByParts([sep], [sep], c, d);
    LessIrreflexive([sep]);
    assert Joined(a, sep, c)[..|a|] == a && Joined(b, sep, d)[..|b|] == b;
    assert Joined(a, sep, c)[|a| + 1..] == c && Joined(b, sep, d)[|b| + 1..] == d;
  }

  lemma ThreePartOrder(sep: char, a: string, b: string, c: string, d: string, e: string, f: string)
    requires |a| == |d| && |b| == |e|
    ensures Less(Joined(a, sep, Joined(b, sep, c)), Joined(d, sep, Joined(e, sep, f))) <==>
            Less(a, d) || (a == d && (Less(b, e) || (b == e && Less(c, f))))
    ensures Joined(a, sep, Joined(b, sep, c)) == Joined(d, sep, Joined(e, sep, f)) <==> a == d && b == e && c == f
  {
    JoinedOrder(b, e, sep, c, f);
    JoinedOrder(a, d, sep, Joined(b, sep, c), Joined(e, sep, f));
  }

  lemma FourDigitsOrder(m: nat, n: nat)
    requires m < 10_000 && n < 10_000
    ensures Less(Digits(m, 4), Digits(n, 4)) <==> m < n
    ensures Digits(m, 4) == Digits(n, 4) <==> m == n
  {
    Powers();
    DigitsOrder(m, n, 4);
  }

  lemma TwoDigitsOrder(m: nat, n: nat)
    requires m < 100 && n < 100
    ensures Less(Digits(m, 2), Digits(n, 2)) <==> m < n
    ensures Digits(m, 2) == Digits(n, 2) <==> m == n
  {
    Powers();
    DigitsOrder(m, n, 2);
  }

  lemma Powers()
    ensures Power(2) == 100 && Power(4) == 10_000
  {
    assert Power(1) == 10 && Power(3) == 1000;
  }

  /** Keys compare as strings exactly as their dates do. */
  lemma KeyOrder(a: Date, b: Date)
    requires Valid(a) && Valid(b) && FourDigitYear(a) && FourDigitYear(b)
    ensures Less(Key(a), Key(b)) <==> DayNumber(a) < DayNumber(b)
    ensures Key(a) == Key(b) <==> a == b
  {
    FourDigitsOrder(a.year, b.year);
    TwoDigitsOrder(a.month, b.month);
    TwoDigitsOrder(a.day, b.day);
    ThreePartOrder('-', Digits(a.year, 4), Digits(a.month, 2), Digits(a.day, 2),
                   Digits(b.year, 4), Digits(b.month, 2), Digits(b.day, 2));
    DayNumberOrders(a, b);
  }

  predicate AllDigits(s: string) {
    forall i :: 0 <= i < |s| ==> '0' <= s[i] <= '9'
  }

  function Number(s: string): nat
    requires AllDigits(s)
  {
    if s == [] then 0 else 10 * Number(s[..|s| - 1]) + (s[|s| - 1] as int - '0' as int)
  }

  lemma {:induction false} DigitsOfNumber(s: string)
    requires AllDigits(s)
    ensures Digits(Number(s), |s|) == s && Number(s) < Power(|s|)
  {
    if s != [] {
      var low := s[|s| - 1] as int - '0' as int;
      var high := Number(s[..|s| - 1]);
      DigitsOfNumber(s[..|s| - 1]);
      assert (10 * high + low) / 10 == high && (10 * high + low) % 10 == low;
      assert DigitChar(low) == s[|s| - 1];
      assert Digits(10 * high + low, |s|) == Digits(high, |s| - 1) + [DigitChar(low)];
    }
  }

  lemma {:induction false} NumberOfDigits(n: nat, width: nat)
    requires n < Power(width)
    ensures Number(Digits(n, width)) == n
  {
    if width > 0 {
      NumberOfDigits(n / 10, width - 1);
      assert Digits(n, width)[..width - 1] == Digits(n / 10, width - 1);
    }
  }

  predicate HasKeyShape(s: string) {
    && |s| == 10 && s[4] == '-' && s[7] == '-'
    && AllDigits(s[..4]) && AllDigits(s[5..7]) && AllDigits(s[8..])
  }

  /** The check of a date key: its shape, the month and the days of that month. */
  function Parse(s: string): Option<Date> {
    if !HasKeyShape(s) then None
    else
      var d := Date(Number(s[..4]), Number(s[5..7]), Number(s[8..]));
      if Valid(d) then Some(d) else None
  }

  lemma KeyParses(d: Date)
    requires Valid(d) && FourDigitYear(d)
    ensures Parse(Key(d)) == Some(d)
  {
    FieldsParse(d, d.year, d.month, d.day, 4, 2);
  }

  lemma FieldsParse(d: Date, year: nat, month: nat, day: nat, four: nat, two: nat)
    requires d == Date(year, month, day) && Valid(d) && year < 10_000 && four == 4 && two == 2
    ensures Parse(Joined(Digits(year, four), '-', Joined(Digits(month, two), '-', Digits(day, two)))) == Some(d)
  {
    var a := Field(year, four);
    var b := Field(month, two);
    var c := Field(day, two);
    PartsParse(a, b, c, d);
  }

  lemma Field(n: nat, width: nat) returns (s: string)
    requires (width == 2 && n < 100) || (width == 4 && n < 10_000)
    ensures s == Digits(n, width) && |s| == width && AllDigits(s) && Number(s) == n
  {
    Powers();
    NumberOfDigits(n, width);
    s := Digits(n, width);
  }

  lemma PartsParse(a: string, b: string, c: string, d: Date)
    requires |a| == 4 && |b| == |c| == 2 && AllDigits(a) && AllDigits(b) && AllDigits(c)
    requires Valid(d) && d == Date(Number(a), Number(b), Number(c))
    ensures Parse(Joined(a, '-', Joined(b, '-', c))) == Some(d)
  {
    JoinedParts(a, b, c);
  }

  lemma JoinedParts(a: string, b: string, c: string)
    requires |a| == 4 && |b| == |c| == 2
    ensures var s := Joined(a, '-', Joined(b, '-', c));
            |s| == 10 && s[..4] == a && s[4] == '-' && s[5..7] == b && s[7] == '-' && s[8..] == c
  {
  }

  lemma ShapeSplits(s: string)
    requires HasKeyShape(s)
    ensures s == s[..4] + "-" + s[5..7] + "-" + s[8..]
    ensures Number(s[..4]) < 10_000 && Digits(Number(s[..4]), 4) == s[..4]
    ensures Digits(Number(s[5..7]), 2) == s[5..7]
    ensures Digits(Number(s[8..]), 2) == s[8..]
  {
    Powers();
    DigitsOfNumber(s[..4]);
    DigitsOfNumber(s[5..7]);
    DigitsOfNumber(s[8..]);
  }

  lemma PartsJoin(a: string, b: string, c: string)
    ensures a + "-" + b + "-" + c == Joined(a, '-', Joined(b, '-', c))
  {
  }

  lemma ParsedIsKey(s: string)
    requires Parse(s).Some?
    ensures FourDigitYear(Parse(s).value) && Key(Parse(s).value) == s
  {
    ShapeSplits(s);
    PartsJoin(s[..4], s[5..7], s[8..]);
  }

  /** A string is a date key exactly when it is the key of the date that it parses to. */
  lemma ParseRoundTrip(s: string, d: Date)
    ensures Parse(s) == Some(d) <==> Valid(d) && FourDigitYear(d) && Key(d) == s
  {
    if Parse(s) == Some(d) {
      ParsedIsKey(s);
    }
    if Valid(d) && FourDigitYear(d) && Key(d) == s {
      KeyParses(d);
    }
  }

  datatype Keys = BadKey | EndBeforeStart | Keys(keys: seq<string>)

  /** `keys` are the keys of consecutive dates from day number `from`. */
  ghost predicate Consecutive(keys: seq<string>, from: int) {
    forall i :: 0 <= i < |keys| ==> Parse(keys[i]) == Some(DateOfDay(from + i))
  }

  lemma KeyOfDay(d: Date)
    requires Valid(d) && FourDigitYear(d)
    ensures Parse(Key(d)) == Some(DateOfDay(DayNumber(d)))
  {
    KeyParses(d);
    DayNumberOrders(d, DateOfDay(DayNumber(d)));
  }

  lemma NextHasKey(last: Date, end: Date)
    requires Valid(last) && FourDigitYear(last) && Valid(end) && FourDigitYear(end) && Less(Key(last), Key(end))
    ensures Valid(Next(last)) && FourDigitYear(Next(last))
    ensures DayNumber(Next(last)) == DayNumber(last) + 1 <= DayNumber(end)
  {
    KeyOrder(last, end);
    NextAddsADay(last);
    DayNumberOrders(end, Next(last));
  }

  /** The list so far ends with `last`, and reaches no further than `end`. */
  ghost predicate Listed(keys: seq<string>, first: Date, last: Date, end: Date) {
    && Valid(last) && FourDigitYear(last) && DayNumber(last) <= DayNumber(end)
    && |keys| == DayNumber(last) - DayNumber(first) + 1 && |keys| > 0
    && keys[|keys| - 1] == Key(last) && Consecutive(keys, DayNumber(first))
  }

  lemma FirstListed(first: Date, end: Date)
    requires Valid(first) && FourDigitYear(first) && Valid(end) && FourDigitYear(end) && !Less(Key(end), Key(first))
    ensures Listed([Key(first)], first, first, end)
  {
    KeyOrder(end, first);
    KeyOfDay(first);
  }

  lemma NextListed(keys: seq<string>, first: Date, last: Date, end: Date)
    requires Listed(keys, first, last, end) && Valid(end) && FourDigitYear(end) && Less(Key(last), Key(end))
    ensures FourDigitYear(Next(last)) && Valid(Next(last)) && DayNumber(Next(last)) == DayNumber(last) + 1
    ensures Listed(keys + [Key(Next(last))], first, Next(last), end)
  {
    NextHasKey(last, end);
    KeyOfDay(Next(last));
  }

  /** A list from the first hundred years goes on, after its start, from a date of the twentieth
      century, which may be beyond the end already. */
  ghost predicate Leaped(keys: seq<string>, start: string, first: Date, last: Date, end: Date) {
    && Valid(last) && 1900 <= last.year <= 9999
    && |keys| == DayNumber(last) - DayNumber(first) + 2 && |keys| > 1
    && keys[0] == start && keys[|keys| - 1] == Key(last) && Consecutive(keys[1..], DayNumber(first))
    && (last == first || DayNumber(last) <= DayNumber(end))
  }

  lemma LeapedOnce(start: string, second: Date, end: Date)
    requires Valid(second) && 1900 <= second.year <= 9999
    ensures Leaped([start] + [Key(second)], start, second, second, end)
  {
    KeyOfDay(second);
    assert ([start] + [Key(second)])[1..] == [Key(second)];
  }

  lemma ConsecutiveGrows(keys: seq<string>, from: int, d: Date)
    requires Consecutive(keys, from) && Valid(d) && FourDigitYear(d) && DayNumber(d) == from + |keys|
    ensures Consecutive(keys + [Key(d)], from)
  {
    KeyOfDay(d);
  }

  lemma TailGrows(keys: seq<string>, key: string)
    requires |keys| > 0
    ensures (keys + [key])[1..] == keys[1..] + [key] && (keys + [key])[0] == keys[0]
  {
  }

  lemma NextLeaped(keys: seq<string>, start: string, first: Date, last: Date, end: Date)
    requires Leaped(keys, start, first, last, end) && Valid(end) && FourDigitYear(end) && Less(Key(last), Key(end))
    ensures Valid(Next(last)) && FourDigitYear(Next(last)) && DayNumber(Next(last)) == DayNumber(last) + 1
    ensures Leaped(keys + [Key(Next(last))], start, first, Next(last), end)
  {
    NextHasKey(last, end);
    ConsecutiveGrows(keys[1..], DayNumber(first), Next(last));
    TailGrows(keys, Key(Next(last)));
  }

  /** What shifting by one day gives, in the first hundred years and later. */
  lemma SecondDate(d: Date)
    requires Valid(d) && FourDigitYear(d)
    ensures Valid(ShiftDate(d, 1)) && DayNumber(ShiftDate(d, 1)) > DayNumber(d)
    ensures d.year < 100 ==> DayNumber(ShiftDate(d, 1)) > DayNumber(d) + 1 && 1900 <= ShiftDate(d, 1).year <= 2000
    ensures d.year >= 100 ==> ShiftDate(d, 1) == Next(d)
  {
    PlatformYearIsValid(d);
    ShiftAddsDays(InPlatformYear(d), 1);
    if d.year < 100 {
      CenturiesApart(d);
    }
  }

  ghost predicate ListedSoFar(keys: seq<string>, first: Date, second: Date, last: Date, end: Date) {
    && Valid(first) && FourDigitYear(first) && Valid(last) && FourDigitYear(last)
    && |keys| > 0 && keys[|keys| - 1] == Key(last)
    && (|keys| == 1 ==> last == first)
    && if first.year >= 100 || |keys| == 1 then Listed(keys, first, last, end) && last.year >= first.year
       else Leaped(keys, Key(first), second, last, end) && first != end
  }

  lemma ListLeaps(keys: seq<string>, first: Date, second: Date, end: Date)
    requires Valid(first) && 0 <= first.year < 100 && first != end && keys == [Key(first)]
    requires Valid(second) && 1900 <= second.year <= 9999
    ensures ListedSoFar(keys + [Key(second)], first, second, second, end)
  {
    LeapedOnce(Key(first), second, end);
  }

  lemma ListGrows(keys: seq<string>, first: Date, last: Date, end: Date)
    requires ListedSoFar(keys, first, ShiftDate(first, 1), last, end)
    requires Valid(end) && FourDigitYear(end) && Less(Key(last), Key(end))
    ensures DayNumber(last) < DayNumber(end) && DayNumber(last) < DayNumber(ShiftDate(last, 1))
    ensures Valid(ShiftDate(last, 1)) && FourDigitYear(ShiftDate(last, 1))
    ensures ListedSoFar(keys + [Key(ShiftDate(last, 1))], first, ShiftDate(first, 1), ShiftDate(last, 1), end)
  {
    KeyOrder(last, end);
    SecondDate(last);
    if last.year < 100 {
      ListLeaps(keys, first, ShiftDate(first, 1), end);
    } else if first.year < 100 {
      NextLeaped(keys, Key(first), ShiftDate(first, 1), last, end);
    } else {
      NextListed(keys, first, last, end);
    }
  }

  /** Consecutive dates, oldest first, both ends included.  Only from a start in the first hundred
      years to another date the list leaps: its second date is of the twentieth century, and it goes
      on consecutively from there as far as the end. */
  ghost predicate ListsDates(keys: seq<string>, first: Date, second: Date, end: Date) {
    && |keys| > 0
    && if first.year >= 100 || first == end then
         |keys| == DayNumber(end) - DayNumber(first) + 1 && Consecutive(keys, DayNumber(first))
       else
         && DayNumber(second) > DayNumber(first) + 1
         && |keys| == 2 + (if Before(second, end) then DayNumber(end) - DayNumber(second) else 0)
         && Parse(keys[0]) == Some(first) && Consecutive(keys[1..], DayNumber(second))
  }

  lemma LeapIsDone(keys: seq<string>, first: Date, second: Date, last: Date, end: Date)
    requires Valid(first) && FourDigitYear(first) && first.year < 100 && first != end
    requires Valid(second) && Valid(end) && DayNumber(second) > DayNumber(first) + 1
    requires Leaped(keys, Key(first), second, last, end) && DayNumber(last) >= DayNumber(end)
    ensures ListsDates(keys, first, second, end)
  {
    DayNumberOrders(second, end);
    KeyParses(first);
  }

  lemma StepsAreDone(keys: seq<string>, first: Date, second: Date, last: Date, end: Date)
    requires Valid(end) && Listed(keys, first, last, end) && DayNumber(last) >= DayNumber(end)
    requires first.year >= 100 || first == end
    ensures ListsDates(keys, first, second, end)
  {
  }

  lemma ListIsDone(keys: seq<string>, first: Date, second: Date, last: Date, end: Date)
    requires ListedSoFar(keys, first, second, last, end) && second == ShiftDate(first, 1)
    requires Valid(end) && FourDigitYear(end) && !Less(Key(last), Key(end)) && DayNumber(first) <= DayNumber(end)
    ensures ListsDates(keys, first, second, end)
  {
    KeyOrder(last, end);
    SecondDate(first);
    DayNumberOrders(first, end);
    if first.year >= 100 || |keys| == 1 {
      StepsAreDone(keys, first, second, last, end);
    } else {
      LeapIsDone(keys, first, second, last, end);
    }
  }

  method ListFactoryLocalDateKeys(start: string, end: string) returns (r: Keys)
    ensures r == BadKey <==> Parse(start) == None || Parse(end) == None
    ensures r == EndBeforeStart <==>
      Parse(start).Some? && Parse(end).Some? && DayNumber(Parse(end).value) < DayNumber(Parse(start).value)
    ensures r.Keys? ==> 
      ListsDates(r.keys, Parse(start).value, ShiftDate(Parse(start).value, 1), Parse(end).value)
  {
    var s, e := Parse(start), Parse(end);
    if s == None || e == None {
      return BadKey;
    }
    ParsedIsKey(start);
    ParsedIsKey(end);
    KeyOrder(e.value, s.value);
    if Less(end, start) {
      return EndBeforeStart;
    }
    FirstListed(s.value, e.value);
    var keys := [start];
    var last := s.value;
    while Less(keys[|keys| - 1], end)
      invariant ListedSoFar(keys, s.value, ShiftDate(s.value, 1), last, e.value)
      decreases DayNumber(e.value) - DayNumber(last)
    {
      ListGrows(keys, s.value, last, e.value);
      last := ShiftDate(last, 1);
      keys := keys + [Key(last)];
    }
    ListIsDone(keys, s.value, ShiftDate(s.value, 1), last, e.value);
    return Keys(keys);
  }
}
