/** The factory time zone, abstracted to an offset function over epoch seconds.

    The program asks `Intl` for the wall time of an instant.  All it relies on is that the
    offset is bounded, changes at most once in two days and by at most an hour, and that a
    change never moves the wall date backwards (America/Chicago changes at 02:00). */
module FactoryZone {
  const SECONDS_PER_DAY := 86_400
  const MAX_OFFSET := 43_200
  const MAX_SHIFT_OF_OFFSET := 3_600

  type Zone = int -> int

  /** The wall-clock second shown at epoch second `t`, counted like an epoch second. */
  function Local(zone: Zone, t: int): int {
    t + zone(t)
  }

  /** The factory date shown at epoch second `t`, as a day number. */
  function DateOf(zone: Zone, t: int): int {
    Local(zone, t) / SECONDS_PER_DAY
  }

  /** In the two days from `a` the offset changes at `m` and nowhere else. */
  ghost predicate ChangesOnlyAt(zone: Zone, a: int, m: int) {
    && (forall t :: a <= t <= a + 2 * SECONDS_PER_DAY && t < m ==> zone(t) == zone(a))
    && (forall t :: a <= t <= a + 2 * SECONDS_PER_DAY && m <= t ==> zone(t) == zone(a + 2 * SECONDS_PER_DAY))
  }

  ghost predicate ChangesOnce(zone: Zone, a: int) {
    exists m :: ChangesOnlyAt(zone, a, m)
  }

  ghost predicate Regular(zone: Zone) {
    && (forall t :: -MAX_OFFSET <= zone(t) <= MAX_OFFSET)
    && (forall a :: ChangesOnce(zone, a))
    && (forall a, b :: a <= b <= a + 2 * SECONDS_PER_DAY ==>
          -MAX_SHIFT_OF_OFFSET <= zone(b) - zone(a) <= MAX_SHIFT_OF_OFFSET)
    && (forall a, b :: a <= b ==> DateOf(zone, a) <= DateOf(zone, b))
  }

  /** A whole factory date separates instants two dates apart, and it lasts at least 23 hours. */
  lemma TwoDatesApart(zone: Zone, a: int, b: int)
    requires Regular(zone)
    requires DateOf(zone, a) + 2 <= DateOf(zone, b)
    ensures b - a > 23 * 3_600
  {
    if a <= b <= a + 2 * SECONDS_PER_DAY {
      assert zone(b) - zone(a) <= MAX_SHIFT_OF_OFFSET;
      assert Local(zone, b) - Local(zone, a) > SECONDS_PER_DAY;
    }
  }

  lemma DivideMonotone(x: int, y: int)
    requires x <= y
    ensures x / SECONDS_PER_DAY <= y / SECONDS_PER_DAY
  {
  }

  /** A clock that springs forward one hour at `change`. */
  function SpringForward(change: int): Zone {
    t => if t < change then -21_600 else -18_000
  }

  /** A clock that falls back one hour at `change`. */
  function FallBack(change: int): Zone {
    t => if t < change then -18_000 else -21_600
  }

  /** The assumptions admit the skipped hour that starts at 02:00 wall time: no instant shows it. */
  lemma SpringForwardIsRegular(change: int)
    requires change % SECONDS_PER_DAY == 8 * 3_600
    ensures Regular(SpringForward(change))
    ensures forall t :: !(change - 21_600 <= Local(SpringForward(change), t) < change - 18_000)
  {
    var zone := SpringForward(change);
    forall a ensures ChangesOnce(zone, a) {
      assert ChangesOnlyAt(zone, a, change);
    }
    forall a, b | a <= b ensures DateOf(zone, a) <= DateOf(zone, b) {
      DivideMonotone(Local(zone, a), Local(zone, b));
    }
  }

  /** The assumptions admit the repeated hour: the wall falls back from 02:00 to 01:00 of one date,
      and shows every second of that hour twice. */
  lemma FallBackIsRegular(change: int)
    requires change % SECONDS_PER_DAY == 7 * 3_600
    ensures Regular(FallBack(change))
    ensures forall t :: change - 3_600 <= t < change ==>
              Local(FallBack(change), t) == Local(FallBack(change), t + 3_600)
  {
    var zone := FallBack(change);
    forall a ensures ChangesOnce(zone, a) {
      assert ChangesOnlyAt(zone, a, change);
    }
    forall a, b | a <= b ensures DateOf(zone, a) <= DateOf(zone, b) {
      if a < change <= b {
        // Both walls are at or after 01:00 or before 02:00 of the date of the change.
        DivideMonotone(Local(zone, a), change - 18_000);
        DivideMonotone(change - 21_600, Local(zone, b));
      } else {
        DivideMonotone(Local(zone, a), Local(zone, b));
      }
    }
  }
}
