/** Wall times, the instants they name, and the keys that sort attendance. */
module SortKeys {
  import opened Options
  import opened Calendar
  import opened FactoryZone

  // ----- the second -----

  function ClockPart(second: int): (s: string)
    requires 0 <= second < SECONDS_PER_DAY
    ensures |s| == 8
  {
    Joined(Digits(second / 3_600, 2), ':', Joined(Digits(second / 60 % 60, 2), ':', Digits(second % 60, 2)))
  }

  predicate HasIso(epoch: int) {
    FourDigitYear(DateOfDay(epoch / SECONDS_PER_DAY))
  }

  /** An epoch second as `YYYY-MM-DDTHH:MM:SS`. */
  function Iso(epoch: int): (s: string)
    requires HasIso(epoch)
    ensures |s| == 19
  {
    Joined(Key(DateOfDay(epoch / SECONDS_PER_DAY)), 'T', ClockPart(epoch % SECONDS_PER_DAY))
  }

  lemma ClockParts(second: int)
    requires 0 <= second < SECONDS_PER_DAY
    ensures second / 3_600 < 24 && second == second / 3_600 * 3_600 + second / 60 % 60 * 60 + second % 60
  {
    assert second / 60 / 60 == second / 3_600;
  }

  lemma ClockPartOrder(a: int, b: int)
    requires 0 <= a < SECONDS_PER_DAY && 0 <= b < SECONDS_PER_DAY
    ensures Less(ClockPart(a), ClockPart(b)) <==> a < b
    ensures ClockPart(a) == ClockPart(b) <==> a == b
  {
    ClockParts(a);
    ClockParts(b);
    TwoDigitsOrder(a / 3_600, b / 3_600);
    TwoDigitsOrder(a / 60 % 60, b / 60 % 60);
    TwoDigitsOrder(a % 60, b % 60);
    ThreePartOrder(':', Digits(a / 3_600, 2), Digits(a / 60 % 60, 2), Digits(a % 60, 2),
                   Digits(b / 3_600, 2), Digits(b / 60 % 60, 2), Digits(b % 60, 2));
  }

  /** Rendered seconds compare as strings exactly as the seconds do. */
  lemma IsoOrder(a: int, b: int)
    requires HasIso(a) && HasIso(b)
    ensures Less(Iso(a), Iso(b)) <==> a < b
    ensures Iso(a) == Iso(b) <==> a == b
  {
    var m, n := a / SECONDS_PER_DAY, b / SECONDS_PER_DAY;
    KeyOrder(DateOfDay(m), DateOfDay(n));
    ClockPartOrder(a % SECONDS_PER_DAY, b % SECONDS_PER_DAY);
    JoinedOrder(Key(DateOfDay(m)), Key(DateOfDay(n)), 'T',
                ClockPart(a % SECONDS_PER_DAY), ClockPart(b % SECONDS_PER_DAY));
    assert m == n ==> DateOfDay(m) == DateOfDay(n);
  }

  // ----- the fraction -----

  function Digit(c: char): real
    requires '0' <= c <= '9'
  {
    (c as int - '0' as int) as real
  }

  /** The value of the digits behind the decimal point, however many. */
  function Fraction(digits: string): real
    requires AllDigits(digits)
  {
    if digits == [] then 0.0 else (Digit(digits[0]) + Fraction(digits[1..])) / 10.0
  }

  /** Without trailing zeros. */
  function Strip(digits: string): (r: string)
    requires AllDigits(digits)
    ensures AllDigits(r) && Stripped(r)
  {
    if digits != [] && digits[|digits| - 1] == '0' then Strip(digits[..|digits| - 1]) else digits
  }

  predicate Stripped(digits: string) {
    digits != [] ==> digits[|digits| - 1] != '0'
  }

  lemma {:induction false} FractionBounds(digits: string)
    requires AllDigits(digits)
    ensures 0.0 <= Fraction(digits) < 1.0
    ensures digits != [] && Stripped(digits) ==> Fraction(digits) > 0.0
  {
    if digits != [] {
      FractionBounds(digits[1..]);
    }
  }

  lemma {:induction false} TrailingZero(digits: string)
    requires AllDigits(digits)
    ensures Fraction(digits + "0") == Fraction(digits)
  {
    if digits != [] {
      assert (digits + "0")[1..] == digits[1..] + "0";
      TrailingZero(digits[1..]);
    } else {
      assert Fraction("0") == 0.0;
    }
  }

  lemma {:induction false} StripKeepsValue(digits: string)
    requires AllDigits(digits)
    ensures Fraction(Strip(digits)) == Fraction(digits)
  {
    if digits != [] && digits[|digits| - 1] == '0' {
      StripKeepsValue(digits[..|digits| - 1]);
      TrailingZero(digits[..|digits| - 1]);
      assert digits == digits[..|digits| - 1] + "0";
    }
  }

  lemma HeadDecides(a: char, b: char, x: real, y: real)
    requires '0' <= a <= '9' && '0' <= b <= '9' && 0.0 <= x < 1.0 && 0.0 <= y < 1.0
    ensures Digit(a) + x < Digit(b) + y <==> a < b || (a == b && x < y)
    ensures Digit(a) + x == Digit(b) + y <==> a == b && x == y
  {
  }

  /** Stripped fractions compare as strings exactly as their values do. */
  lemma {:induction false} FractionOrder(a: string, b: string)
    requires AllDigits(a) && AllDigits(b) && Stripped(a) && Stripped(b)
    ensures Less(a, b) <==> Fraction(a) < Fraction(b)
    ensures a == b <==> Fraction(a) == Fraction(b)
  {
    FractionBounds(a);
    FractionBounds(b);
    if a != [] && b != [] {
      FractionOrder(a[1..], b[1..]);
      FractionBounds(a[1..]);
      FractionBounds(b[1..]);
      HeadDecides(a[0], b[0], Fraction(a[1..]), Fraction(b[1..]));
      assert a == b <==> a[0] == b[0] && a[1..] == b[1..] by {
        assert a == [a[0]] + a[1..] && b == [b[0]] + b[1..];
      }
    }
  }

  // ----- the key -----

  function KeyAt(epoch: int, fraction: string): string
    requires HasIso(epoch) && AllDigits(fraction)
  {
    Joined(Iso(epoch), '.', Strip(fraction))
  }

  function Exact(epoch: int, fraction: string): real
    requires AllDigits(fraction)
  {
    epoch as real + Fraction(fraction)
  }

  /** Keys compare as strings exactly as the exact instants do, at any precision: they are equal
      only for equal instants. */
  lemma KeyAtOrder(a: int, f: string, b: int, g: string)
    requires HasIso(a) && HasIso(b) && AllDigits(f) && AllDigits(g)
    ensures Less(KeyAt(a, f), KeyAt(b, g)) <==> Exact(a, f) < Exact(b, g)
    ensures KeyAt(a, f) == KeyAt(b, g) <==> Exact(a, f) == Exact(b, g)
  {
    IsoOrder(a, b);
    StripKeepsValue(f);
    StripKeepsValue(g);
    FractionOrder(Strip(f), Strip(g));
    FractionBounds(f);
    FractionBounds(g);
    JoinedOrder(Iso(a), Iso(b), '.', Strip(f), Strip(g));
  }

  // ----- wall times -----

  /** How a timestamp ends: nothing, an offset in seconds, or one that cannot be parsed. */
  datatype Suffix = WallTime | Offset(seconds: int) | BadOffset

  datatype Stamp = Stamp(date: Date, hour: int, minute: int, second: int, fraction: string, suffix: Suffix)

  predicate WellFormed(s: Stamp) {
    && Valid(s.date) && 0 <= s.hour <= 23 && 0 <= s.minute <= 59 && 0 <= s.second <= 59
    && AllDigits(s.fraction)
    && (s.suffix.Offset? ==> -SECONDS_PER_DAY < s.suffix.seconds < SECONDS_PER_DAY)
  }

  /** The wall second, counted like an epoch second. */
  function WallSecond(s: Stamp): int {
    DayNumber(s.date) * SECONDS_PER_DAY + s.hour * 3_600 + s.minute * 60 + s.second
  }

  /** The instants that the offsets at noon of the day before, the day and the day after suggest. */
  function Suggested(zone: Zone, wall: int): seq<int> {
    var noon := wall / SECONDS_PER_DAY * SECONDS_PER_DAY + 43_200;
    [wall - zone(noon - SECONDS_PER_DAY), wall - zone(noon), wall - zone(noon + SECONDS_PER_DAY)]
  }

  /** The least of the instants that do show the wall second. */
  function Earliest(zone: Zone, wall: int, instants: seq<int>): (r: Option<int>)
    ensures r.Some? ==> r.value in instants && Local(zone, r.value) == wall
    ensures forall t :: t in instants && Local(zone, t) == wall ==> r.Some? && r.value <= t
  {
    if instants == [] then None
    else
      var t := instants[|instants| - 1];
      var before := Earliest(zone, wall, instants[..|instants| - 1]);
      if Local(zone, t) != wall then before
      else if before.Some? && before.value <= t then before
      else Some(t)
  }

  function Resolve(zone: Zone, wall: int): Option<int> {
    Earliest(zone, wall, Suggested(zone, wall))
  }

  /** Three sampled offsets are enough: any instant that shows the wall second is suggested. */
  lemma SuggestedIsComplete(zone: Zone, wall: int, t: int)
    requires Regular(zone) && Local(zone, t) == wall
    ensures t in Suggested(zone, wall)
  {
    var start := wall / SECONDS_PER_DAY * SECONDS_PER_DAY - 43_200;
    assert start <= t <= start + 2 * SECONDS_PER_DAY;
    assert ChangesOnce(zone, start);
    var m :| ChangesOnlyAt(zone, start, m);
    assert zone(t) == zone(start) || zone(t) == zone(start + 2 * SECONDS_PER_DAY);
    assert Suggested(zone, wall)[0] == wall - zone(start);
    assert Suggested(zone, wall)[2] == wall - zone(start + 2 * SECONDS_PER_DAY);
  }

  /** The resolver returns the earliest instant that shows the wall second, and nothing exactly
      when there is none. */
  lemma ResolveIsEarliest(zone: Zone, wall: int)
    requires Regular(zone)
    ensures Resolve(zone, wall) == None <==> forall t :: Local(zone, t) != wall
    ensures Resolve(zone, wall).Some? ==>
        Local(zone, Resolve(zone, wall).value) == wall &&
        forall t :: Local(zone, t) == wall ==> Resolve(zone, wall).value <= t
  {
    forall t | Local(zone, t) == wall ensures t in Suggested(zone, wall) {
      SuggestedIsComplete(zone, wall, t);
    }
  }

  /** The instant of a timestamp, to the second. */
  function EpochOf(zone: Zone, s: Stamp): Option<int> {
    if !WellFormed(s) then None
    else
      match s.suffix
      case BadOffset => None
      case Offset(seconds) => Some(WallSecond(s) - seconds)
      case WallTime => Resolve(zone, WallSecond(s))
  }

  lemma EpochNearDate(zone: Zone, s: Stamp)
    requires Regular(zone) && EpochOf(zone, s).Some?
    ensures -1 <= EpochOf(zone, s).value / SECONDS_PER_DAY - DayNumber(s.date) <= 1
  {
    var wall, t := WallSecond(s), EpochOf(zone, s).value;
    assert -SECONDS_PER_DAY < wall - t < SECONDS_PER_DAY;
    assert 0 <= wall - DayNumber(s.date) * SECONDS_PER_DAY < SECONDS_PER_DAY;
  }

  lemma EpochHasIso(zone: Zone, s: Stamp)
    requires Regular(zone) && InRange(s.date) && EpochOf(zone, s).Some?
    ensures HasIso(EpochOf(zone, s).value)
  {
    EpochNearDate(zone, s);
    var day := EpochOf(zone, s).value / SECONDS_PER_DAY;
    var k := day - DayNumber(s.date);
    ShiftAddsDays(s.date, k);
    ShiftStaysInFourDigits(s.date, k);
    DayNumberOrders(DateOfDay(day), Shift(s.date, k));
  }

  function SortKey(zone: Zone, s: Stamp): string
    requires Regular(zone) && (Valid(s.date) ==> InRange(s.date))
  {
    match EpochOf(zone, s)
    case None => ""
    case Some(epoch) =>
      EpochHasIso(zone, s);
      KeyAt(epoch, s.fraction)
  }

  /** The exact instant of a timestamp. */
  function Instant(zone: Zone, s: Stamp): real
    requires EpochOf(zone, s).Some?
  {
    Exact(EpochOf(zone, s).value, s.fraction)
  }

  /** Some instant is what this timestamp says. */
  ghost predicate Denotes(zone: Zone, s: Stamp) {
    WellFormed(s) && match s.suffix
    case BadOffset => false
    case Offset(_) => true
    case WallTime => exists t :: Local(zone, t) == WallSecond(s)
  }

  /** A key is empty exactly for timestamps that denote no instant. */
  lemma SortKeyIsEmptyIff(zone: Zone, s: Stamp)
    requires Regular(zone) && (Valid(s.date) ==> InRange(s.date))
    ensures SortKey(zone, s) == "" <==> !Denotes(zone, s)
  {
    if WellFormed(s) && s.suffix.WallTime? {
      ResolveIsEarliest(zone, WallSecond(s));
    }
  }

  /** Whatever mix of wall times and offsets, comparing keys compares the exact instants. */
  lemma SortKeysOrderInstants(zone: Zone, a: Stamp, b: Stamp)
    requires Regular(zone) && InRange(a.date) && InRange(b.date)
    requires SortKey(zone, a) != "" && SortKey(zone, b) != ""
    ensures Less(SortKey(zone, a), SortKey(zone, b)) <==> Instant(zone, a) < Instant(zone, b)
    ensures SortKey(zone, a) == SortKey(zone, b) <==> Instant(zone, a) == Instant(zone, b)
  {
    EpochHasIso(zone, a);
    EpochHasIso(zone, b);
    KeyAtOrder(EpochOf(zone, a).value, a.fraction, EpochOf(zone, b).value, b.fraction);
  }

  // ----- what a timestamp's instant is -----

  /** A timestamp with an offset denotes the instant at which a clock that far ahead of UTC shows its
      wall second, and no other. */
  lemma OffsetShowsWall(zone: Zone, s: Stamp, t: int)
    requires WellFormed(s) && s.suffix.Offset?
    ensures EpochOf(zone, s) == Some(t) <==> t + s.suffix.seconds == WallSecond(s)
  {
  }

  /** Every instant can be written, at any offset of less than a day. */
  lemma EveryInstantIsWritten(zone: Zone, t: int, offset: int)
    requires -SECONDS_PER_DAY < offset < SECONDS_PER_DAY
    ensures var day, rest := (t + offset) / SECONDS_PER_DAY, (t + offset) % SECONDS_PER_DAY;
            var s := Stamp(DateOfDay(day), rest / 3_600, rest % 3_600 / 60, rest % 60, "", Offset(offset));
            WellFormed(s) && EpochOf(zone, s) == Some(t)
  {
    var rest := (t + offset) % SECONDS_PER_DAY;
    assert rest == rest / 3_600 * 3_600 + rest % 3_600 / 60 * 60 + rest % 60;
  }

  /** A factory wall time and the same fields with the offset that the factory then has are one
      instant. */
  lemma OffsetAgreesWithWall(zone: Zone, s: Stamp, t: int)
    requires Regular(zone) && s.suffix.WallTime? && EpochOf(zone, s) == Some(t)
    ensures EpochOf(zone, s.(suffix := Offset(zone(t)))) == Some(t)
  {
    WallIsShown(zone, s, t);
    OffsetDenotes(zone, s, t, zone(t));
  }

  lemma WallIsShown(zone: Zone, s: Stamp, t: int)
    requires Regular(zone) && s.suffix.WallTime? && EpochOf(zone, s) == Some(t)
    ensures WellFormed(s) && t + zone(t) == WallSecond(s) && -SECONDS_PER_DAY < zone(t) < SECONDS_PER_DAY
  {
    ResolveIsEarliest(zone, WallSecond(s));
  }

  lemma OffsetDenotes(zone: Zone, s: Stamp, t: int, offset: int)
    requires WellFormed(s) && -SECONDS_PER_DAY < offset < SECONDS_PER_DAY && t + offset == WallSecond(s)
    ensures EpochOf(zone, s.(suffix := Offset(offset))) == Some(t)
  {
  }

  /** One instant has one key, however it is written. */
  lemma KeyFollowsInstant(zone: Zone, a: Stamp, b: Stamp)
    requires Regular(zone) && (Valid(a.date) ==> InRange(a.date)) && (Valid(b.date) ==> InRange(b.date))
    requires EpochOf(zone, a) == EpochOf(zone, b) && a.fraction == b.fraction
    ensures SortKey(zone, a) == SortKey(zone, b)
  {
  }

  lemma DaySplits(day: int, second: int)
    requires 0 <= second < SECONDS_PER_DAY
    ensures (day * SECONDS_PER_DAY + second) / SECONDS_PER_DAY == day
    ensures (day * SECONDS_PER_DAY + second) % SECONDS_PER_DAY == second
  {
  }

  function ClockText(hour: int, minute: int, second: int): string
    requires 0 <= hour && 0 <= minute && 0 <= second
  {
    Joined(Digits(hour, 2), ':', Joined(Digits(minute, 2), ':', Digits(second, 2)))
  }

  /** In UTC the key is the timestamp's own text, with the fraction's trailing zeros dropped. */
  lemma UtcKeyIsText(zone: Zone, s: Stamp)
    requires Regular(zone) && WellFormed(s) && s.suffix == Offset(0) && InRange(s.date)
    ensures SortKey(zone, s) ==
            Joined(Joined(Key(s.date), 'T', ClockText(s.hour, s.minute, s.second)), '.', Strip(s.fraction))
  {
    var second := s.hour * 3_600 + s.minute * 60 + s.second;
    ClockSplits(s.hour, s.minute, s.second);
    ClockPartIsText(s.hour, s.minute, s.second, second);
    var t := DayNumber(s.date) * SECONDS_PER_DAY + second;
    UtcIsText(zone, s, t, ClockText(s.hour, s.minute, s.second), second);
  }

  lemma UtcIsText(zone: Zone, s: Stamp, t: int, clock: string, second: int)
    requires Regular(zone) && InRange(s.date) && EpochOf(zone, s) == Some(t) && AllDigits(s.fraction)
    requires t == DayNumber(s.date) * SECONDS_PER_DAY + second && 0 <= second < SECONDS_PER_DAY
    requires ClockPart(second) == clock
    ensures SortKey(zone, s) == Joined(Joined(Key(s.date), 'T', clock), '.', Strip(s.fraction))
  {
    IsoIsClock(s.date, second, t, clock);
    KeyOfInstant(zone, s, t);
  }

  lemma IsoIsClock(date: Date, second: int, t: int, clock: string)
    requires InRange(date) && 0 <= second < SECONDS_PER_DAY && t == DayNumber(date) * SECONDS_PER_DAY + second
    requires ClockPart(second) == clock
    ensures HasIso(t) && Iso(t) == Joined(Key(date), 'T', clock)
  {
    IsoIsText(date, second);
  }

  lemma KeyOfInstant(zone: Zone, s: Stamp, t: int)
    requires Regular(zone) && (Valid(s.date) ==> InRange(s.date)) && EpochOf(zone, s) == Some(t)
    ensures HasIso(t) && SortKey(zone, s) == Joined(Iso(t), '.', Strip(s.fraction))
  {
    EpochHasIso(zone, s);
  }

  lemma ClockPartIsText(hour: int, minute: int, second: int, s: int)
    requires 0 <= s < SECONDS_PER_DAY && 0 <= hour && 0 <= minute && 0 <= second
    requires s / 3_600 == hour && s / 60 % 60 == minute && s % 60 == second
    ensures ClockPart(s) == ClockText(hour, minute, second)
  {
  }

  lemma IsoIsText(date: Date, second: int)
    requires InRange(date) && 0 <= second < SECONDS_PER_DAY
    ensures HasIso(DayNumber(date) * SECONDS_PER_DAY + second)
    ensures Iso(DayNumber(date) * SECONDS_PER_DAY + second) == Joined(Key(date), 'T', ClockPart(second))
  {
    DaySplits(DayNumber(date), second);
    DayNumberOrders(date, DateOfDay(DayNumber(date)));
  }

  lemma ClockSplits(hour: int, minute: int, second: int)
    requires 0 <= hour < 24 && 0 <= minute < 60 && 0 <= second < 60
    ensures var s := hour * 3_600 + minute * 60 + second;
            0 <= s < SECONDS_PER_DAY && s / 3_600 == hour && s / 60 % 60 == minute && s % 60 == second
  {
    assert (hour * 3_600 + minute * 60 + second) / 60 == hour * 60 + minute;
  }
}
