/** What shift inference guarantees: shifts never overlap, and the three-date window is enough. */
module ShiftProperties {
  import opened Events
  import opened FactoryZone
  import opened ShiftPairing

  // ----- inferred shifts -----

  /** Every paired punch has a plausible opposite punch. */
  lemma PairedIsPlausible(s: seq<Punch>, k: nat)
    requires Chronological(s) && k < |s|
    requires PairedIn(s, k) || PairedOut(s, k)
    ensures HasPlausibleOpposite(s, s[k])
  {
    InstantsFollowKeys(s);
    if PairedIn(s, k) {
      var o: nat, j: nat :| o <= k < j && Closes(s, o, j);
      assert s[j] in s && IsPlausibleShift(s[k], s[j]);
    } else {
      var o: nat :| Closes(s, o, k);
      assert s[o] in s;
    }
  }

  /** Two shifts never overlap: the later one opens after the earlier one has closed. */
  lemma ShiftsAreDisjoint(s: seq<Punch>, o: nat, j: nat, p: nat, k: nat)
    requires Chronological(s) && Closes(s, o, j) && Closes(s, p, k) && j < k
    ensures j < p && s[o].Instant() <= s[j].Instant() <= s[p].Instant() <= s[k].Instant()
  {
    InstantsFollowKeys(s);
    assert forall i :: p <= i < k ==> s[i].kind == ClockIn;
  }

  /** A shift's clock-ins share one factory date and no punch is counted in two shifts. */
  lemma ShiftStartsOnOneDate(s: seq<Punch>, o: nat, j: nat, a: nat, b: nat)
    requires Closes(s, o, j) && o <= a < j && o <= b < j
    ensures s[a].date == s[b].date
    ensures forall p: nat, k: nat :: p <= a < k && Closes(s, p, k) ==> p == o && k == j
  {
    forall p: nat, k: nat | p <= a < k && Closes(s, p, k) ensures p == o && k == j {
      assert forall i :: o <= i < j || p <= i < k ==> s[i].kind == ClockIn;
      RunStartIsUnique(s, o, p, j);
    }
  }

  /** The total length of the shifts closed before position `i`. */
  ghost function ClosedTime(s: seq<Punch>, i: nat): int
    requires i <= |s|
  {
    if i == 0 then 0
    else if PairedOut(s, i - 1) then
      var o: nat :| Closes(s, o, i - 1);
      ClosedTime(s, i - 1) + s[i - 1].Instant() - s[o].Instant()
    else ClosedTime(s, i - 1)
  }

  lemma {:induction false} NothingClosesInsideRun(s: seq<Punch>, o: nat, i: nat)
    requires o <= i <= |s|
    requires forall k :: o <= k < i ==> s[k].kind == ClockIn
    ensures ClosedTime(s, i) == ClosedTime(s, o)
  {
    if o < i {
      NothingClosesInsideRun(s, o, i - 1);
      assert !PairedOut(s, i - 1);
    }
  }

  /** Inferred hours never exceed the time between the first and the last punch. */
  lemma {:induction false} ClosedTimeIsBounded(s: seq<Punch>, i: nat)
    requires Chronological(s) && 0 < i <= |s|
    ensures 0 <= ClosedTime(s, i) <= s[i - 1].Instant() - s[0].Instant()
  {
    InstantsFollowKeys(s);
    if PairedOut(s, i - 1) {
      var o: nat :| Closes(s, o, i - 1) &&
        ClosedTime(s, i) == ClosedTime(s, i - 1) + s[i - 1].Instant() - s[o].Instant();
      NothingClosesInsideRun(s, o, i - 1);
      if o > 0 {
        ClosedTimeIsBounded(s, o);
      }
    } else if i > 1 {
      ClosedTimeIsBounded(s, i - 1);
    }
  }

  // ----- the three-date window -----

  /** Every punch carries the factory date of its instant. */
  ghost predicate Dated(zone: Zone, s: seq<Punch>) {
    forall p :: p in s ==> p.date == DateOf(zone, p.Instant() / 1_000)
  }

  /** The punches of the date before `d`, of `d`, and of the date after. */
  function Window(s: seq<Punch>, d: int): seq<Punch> {
    if s == [] then []
    else if d - 1 <= s[0].date <= d + 1 then [s[0]] + Window(s[1..], d)
    else Window(s[1..], d)
  }

  ghost predicate DatesInOrder(s: seq<Punch>) {
    forall i, j :: 0 <= i <= j < |s| ==> s[i].date <= s[j].date
  }

  lemma DatesFollowInstants(zone: Zone, s: seq<Punch>)
    requires Regular(zone) && Dated(zone, s) && Chronological(s)
    ensures DatesInOrder(s)
  {
    InstantsFollowKeys(s);
    forall i, j | 0 <= i <= j < |s| ensures s[i].date <= s[j].date {
      assert s[i] in s && s[j] in s;
      MillisecondsToSeconds(s[i].Instant(), s[j].Instant());
    }
  }

  lemma MillisecondsToSeconds(a: int, b: int)
    ensures a <= b ==> a / 1_000 <= b / 1_000
    ensures b - a <= MAX_SHIFT_MS ==> b / 1_000 - a / 1_000 <= 16 * 3_600
  {
  }

  /** Punches two dates apart are too far apart for one shift. */
  lemma FarDatesAreImplausible(zone: Zone, p: Punch, q: Punch)
    requires Regular(zone) && Dated(zone, [p, q])
    requires p.date + 2 <= q.date
    ensures !IsPlausibleShift(p, q)
  {
    assert p in [p, q] && q in [p, q];
    MillisecondsToSeconds(p.Instant(), q.Instant());
    TwoDatesApart(zone, p.Instant() / 1_000, q.Instant() / 1_000);
  }

  /** The window is a contiguous stretch of the history. */
  ghost predicate IsWindow(s: seq<Punch>, d: int, a: nat, b: nat) {
    && a <= b <= |s|
    && (forall k :: 0 <= k < a ==> s[k].date < d - 1)
    && (forall k :: a <= k < b ==> d - 1 <= s[k].date <= d + 1)
    && (forall k :: b <= k < |s| ==> s[k].date > d + 1)
  }

  /** A punch in front of a history either joins its window or moves it one place back. */
  lemma WindowGrows(s: seq<Punch>, d: int, c: nat, e: nat) returns (a: nat, b: nat)
    requires s != [] && DatesInOrder(s) && IsWindow(s[1..], d, c, e)
    ensures IsWindow(s, d, a, b)
    ensures s[a..b] == (if d - 1 <= s[0].date <= d + 1 then [s[0]] else []) + s[1..][c..e]
  {
    assert forall k :: 0 < k < |s| ==> s[k] == s[1..][k - 1] && s[0].date <= s[k].date;
    assert c > 0 ==> s[1..][0].date < d - 1;
    assert c < e ==> s[1..][c].date <= d + 1;
    if s[0].date < d - 1 {
      a, b := c + 1, e + 1;
    } else if s[0].date <= d + 1 {
      a, b := 0, e + 1;
    } else {
      a, b := 0, 0;
    }
  }

  lemma {:induction false} WindowIsSlice(s: seq<Punch>, d: int) returns (a: nat, b: nat)
    requires DatesInOrder(s)
    ensures IsWindow(s, d, a, b) && Window(s, d) == s[a..b]
  {
    if s == [] {
      a, b := 0, 0;
    } else {
      assert DatesInOrder(s[1..]);
      var c, e := WindowIsSlice(s[1..], d);
      a, b := WindowGrows(s, d, c, e);
    }
  }

  /** Inside the window, runs of dates it covers are the same runs. */
  lemma RunInWindow(s: seq<Punch>, d: int, a: nat, b: nat, o: nat, j: nat)
    requires IsWindow(s, d, a, b) && a <= o < j <= b
    ensures OpenRun(s, o, j) <==> OpenRun(s[a..b], o - a, j - a)
  {
    var w := s[a..b];
    assert forall k :: 0 <= k < |w| ==> w[k] == s[a + k];
    SliceRun(s, a, b, o, j);
    if o > a {
      SliceRun(s, a, b, o - 1, j);
    } else if o > 0 {
      assert s[o - 1].date < d - 1 <= s[o].date;
      assert !EntryRun(s, o - 1, j);
    }
  }

  lemma SliceRun(s: seq<Punch>, a: nat, b: nat, o: nat, j: nat)
    requires a <= o < j <= b <= |s|
    ensures EntryRun(s, o, j) <==> EntryRun(s[a..b], o - a, j - a)
  {
    var w := s[a..b];
    assert forall k :: 0 <= k < |w| ==> w[k] == s[a + k];
    if EntryRun(w, o - a, j - a) {
      forall k | o <= k < j ensures s[k].kind == ClockIn && s[k].date == s[o].date {
        assert w[k - a].kind == ClockIn;
      }
    }
  }

  /** A shift that has a punch on `d` lies inside the window of `d`. */
  lemma ShiftStaysInWindow(zone: Zone, s: seq<Punch>, d: int, a: nat, b: nat, o: nat, j: nat)
    requires Regular(zone) && Dated(zone, s) && DatesInOrder(s) && IsWindow(s, d, a, b)
    requires Closes(s, o, j) && (s[o].date == d || s[j].date == d)
    ensures a <= o < j < b
  {
    assert s[o].kind == ClockIn;
    if s[o].date + 2 <= s[j].date {
      FarDatesAreImplausible(zone, s[o], s[j]);
    }
  }

  lemma ClosesInWindow(s: seq<Punch>, d: int, a: nat, b: nat, o: nat, j: nat)
    requires IsWindow(s, d, a, b) && a <= o < j < b
    ensures Closes(s, o, j) <==> Closes(s[a..b], o - a, j - a)
  {
    RunInWindow(s, d, a, b, o, j);
    assert s[a..b][o - a] == s[o] && s[a..b][j - a] == s[j];
  }

  lemma PairedInSeenInWindow(zone: Zone, s: seq<Punch>, d: int, a: nat, b: nat, k: nat)
    requires Regular(zone) && Dated(zone, s) && DatesInOrder(s) && IsWindow(s, d, a, b)
    requires a <= k < b && s[k].date == d && PairedIn(s, k)
    ensures PairedIn(s[a..b], k - a)
  {
    var o: nat, j: nat :| o <= k < j && Closes(s, o, j);
    ShiftStaysInWindow(zone, s, d, a, b, o, j);
    ShiftShowsInWindow(s, d, a, b, o, j, k);
  }

  lemma ShiftShowsInWindow(s: seq<Punch>, d: int, a: nat, b: nat, o: nat, j: nat, k: nat)
    requires IsWindow(s, d, a, b) && a <= o <= k < j < b && Closes(s, o, j)
    ensures PairedIn(s[a..b], k - a)
  {
    ClosesInWindow(s, d, a, b, o, j);
    assert o - a <= k - a < j - a && Closes(s[a..b], o - a, j - a);
  }

  lemma PairedInWindow(s: seq<Punch>, d: int, a: nat, b: nat, k: nat)
    requires IsWindow(s, d, a, b) && a <= k < b && PairedIn(s[a..b], k - a)
    ensures PairedIn(s, k)
  {
    var o: nat, j: nat :| o <= k - a < j && Closes(s[a..b], o, j);
    ClosesInWindow(s, d, a, b, o + a, j + a);
  }

  lemma PairedOutInWindow(zone: Zone, s: seq<Punch>, d: int, a: nat, b: nat, k: nat)
    requires Regular(zone) && Dated(zone, s) && DatesInOrder(s) && IsWindow(s, d, a, b)
    requires a <= k < b && s[k].date == d
    ensures PairedOut(s, k) <==> PairedOut(s[a..b], k - a)
  {
    if PairedOut(s, k) {
      PairedOutSeenInWindow(zone, s, d, a, b, k);
    }
    if PairedOut(s[a..b], k - a) {
      PairedOutSeenOutside(s, d, a, b, k);
    }
  }

  lemma PairedOutSeenInWindow(zone: Zone, s: seq<Punch>, d: int, a: nat, b: nat, k: nat)
    requires Regular(zone) && Dated(zone, s) && DatesInOrder(s) && IsWindow(s, d, a, b)
    requires a <= k < b && s[k].date == d && PairedOut(s, k)
    ensures PairedOut(s[a..b], k - a)
  {
    var o: nat :| Closes(s, o, k);
    ShiftStaysInWindow(zone, s, d, a, b, o, k);
    ClosesInWindow(s, d, a, b, o, k);
  }

  lemma PairedOutSeenOutside(s: seq<Punch>, d: int, a: nat, b: nat, k: nat)
    requires IsWindow(s, d, a, b) && a <= k < b && PairedOut(s[a..b], k - a)
    ensures PairedOut(s, k)
  {
    var o: nat :| Closes(s[a..b], o, k - a);
    ClosesInWindow(s, d, a, b, o + a, k);
  }

  lemma PlausibleInWindow(zone: Zone, s: seq<Punch>, d: int, a: nat, b: nat, p: Punch)
    requires Regular(zone) && Dated(zone, s) && IsWindow(s, d, a, b)
    requires p in s && p.date == d
    ensures HasPlausibleOpposite(s, p) <==> HasPlausibleOpposite(s[a..b], p)
  {
    forall q | q in s && (IsPlausibleShift(p, q) || IsPlausibleShift(q, p)) ensures q in s[a..b] {
      if q.date < d - 1 {
        FarDatesAreImplausible(zone, q, p);
        assert IsPlausibleShift(p, q);
        OppositeOrder(zone, p, q);
      } else if q.date > d + 1 {
        FarDatesAreImplausible(zone, p, q);
        assert IsPlausibleShift(q, p);
        OppositeOrder(zone, q, p);
      } else {
        var k :| 0 <= k < |s| && s[k] == q;
        assert s[a..b][k - a] == q;
      }
    }
  }

  lemma OppositeOrder(zone: Zone, p: Punch, q: Punch)
    requires Regular(zone) && Dated(zone, [p, q]) && IsPlausibleShift(p, q)
    ensures p.date <= q.date
  {
    assert p in [p, q] && q in [p, q];
    MillisecondsToSeconds(p.Instant(), q.Instant());
  }

  /** The windowed pairing is the pairing of a slice that holds the punch. */
  lemma WindowHolds(zone: Zone, history: seq<Punch>, d: int, windowed: Pairing, k: nat) returns (a: nat, b: nat)
    requires Regular(zone) && Dated(zone, history) && Chronological(history)
    requires IsPairingOf(windowed, StableSort(Window(history, d)))
    requires k < |history| && history[k].date == d
    ensures DatesInOrder(history) && IsWindow(history, d, a, b) && a <= k < b
    ensures IsPairingOf(windowed, history[a..b]) && history[a..b][k - a] == history[k]
  {
    DatesFollowInstants(zone, history);
    a, b := WindowIsSlice(history, d);
    StableSortOfOrdered(history[a..b]);
  }

  lemma PairedInIsLocal(zone: Zone, s: seq<Punch>, d: int, a: nat, b: nat, k: nat)
    requires Regular(zone) && Dated(zone, s) && DatesInOrder(s) && IsWindow(s, d, a, b)
    requires a <= k < b && s[k].date == d
    ensures PairedIn(s, k) <==> PairedIn(s[a..b], k - a)
  {
    if PairedIn(s, k) {
      PairedInSeenInWindow(zone, s, d, a, b, k);
    }
    if PairedIn(s[a..b], k - a) {
      PairedInWindow(s, d, a, b, k);
    }
  }

  /** Pairing only the three dates around `d` judges the punches of `d` exactly as pairing the
      worker's whole history does. */
  lemma WindowLocality(zone: Zone, history: seq<Punch>, d: int, whole: Pairing, windowed: Pairing, k: nat)
    requires Regular(zone) && Dated(zone, history) && Chronological(history) && Distinct(history)
    requires IsPairingOf(whole, history) && IsPairingOf(windowed, StableSort(Window(history, d)))
    requires k < |history| && history[k].date == d
    ensures history[k] in windowed.pairedIns <==> history[k] in whole.pairedIns
    ensures history[k] in windowed.pairedOuts <==> history[k] in whole.pairedOuts
    ensures history[k] in windowed.plausible <==> history[k] in whole.plausible
  {
    var a, b := WindowHolds(zone, history, d, windowed, k);
    PairingMeans(whole, history, k);
    PairingMeans(windowed, history[a..b], k - a);
    PairedInIsLocal(zone, history, d, a, b, k);
    PairedOutInWindow(zone, history, d, a, b, k);
    PlausibleInWindow(zone, history, d, a, b, history[k]);
  }

  /** The other two results do depend on the window.  A repetition is seen through it exactly
      when the earlier punch lies in the window. */
  lemma WindowCutsRepetitions(zone: Zone, history: seq<Punch>, d: int, whole: Pairing, windowed: Pairing, k: nat)
    requires Regular(zone) && Dated(zone, history) && Chronological(history) && Distinct(history)
    requires IsPairingOf(whole, history) && IsPairingOf(windowed, StableSort(Window(history, d)))
    requires k < |history| && history[k].date == d
    ensures history[k] in windowed.repeated <==>
        history[k] in whole.repeated && whole.repeated[history[k]].date >= d - 1
  {
    var a, b := WindowHolds(zone, history, d, windowed, k);
    PairingMeans(whole, history, k);
    PairingMeans(windowed, history[a..b], k - a);
    assert k > a ==> history[a..b][k - a - 1] == history[k - 1];
  }

  /** An overlong exit is seen through the window exactly when its clock-in lies in the window. */
  lemma WindowCutsOverlong(zone: Zone, history: seq<Punch>, d: int, whole: Pairing, windowed: Pairing, k: nat)
    requires Regular(zone) && Dated(zone, history) && Chronological(history) && Distinct(history)
    requires IsPairingOf(whole, history) && IsPairingOf(windowed, StableSort(Window(history, d)))
    requires k < |history| && history[k].date == d
    ensures history[k] in windowed.overlongOuts <==>
        history[k] in whole.overlongOuts && k > 0 && history[k - 1].date >= d - 1
  {
    var a, b := WindowHolds(zone, history, d, windowed, k);
    PairingMeans(whole, history, k);
    PairingMeans(windowed, history[a..b], k - a);
    OverlongInWindow(history, d, a, b, k);
  }

  lemma OverrunsInWindow(s: seq<Punch>, d: int, a: nat, b: nat, o: nat, j: nat)
    requires IsWindow(s, d, a, b) && a <= o < j < b
    ensures Overruns(s, o, j) <==> Overruns(s[a..b], o - a, j - a)
  {
    RunInWindow(s, d, a, b, o, j);
    assert s[a..b][o - a] == s[o] && s[a..b][j - a] == s[j];
  }

  lemma OverlongInWindow(s: seq<Punch>, d: int, a: nat, b: nat, k: nat)
    requires IsWindow(s, d, a, b) && a <= k < b && s[k].date == d
    ensures OverlongOut(s[a..b], k - a) <==> OverlongOut(s, k) && k > 0 && s[k - 1].date >= d - 1
  {
    if OverlongOut(s[a..b], k - a) {
      var o: nat :| Overruns(s[a..b], o, k - a);
      OverrunsInWindow(s, d, a, b, o + a, k);
    }
    if OverlongOut(s, k) && k > 0 && s[k - 1].date >= d - 1 {
      var o: nat :| Overruns(s, o, k);
      assert s[k - 1].date == s[o].date;
      OverrunsInWindow(s, d, a, b, o, k);
    }
  }

  /** A zone without an offset: the dates of the two witnesses are those of their instants. */
  function Universal(): Zone {
    t => 0
  }

  lemma UniversalIsRegular()
    ensures Regular(Universal())
  {
    var zone := Universal();
    forall a ensures ChangesOnce(zone, a) {
      assert ChangesOnlyAt(zone, a, a);
    }
    forall a, b | a <= b ensures DateOf(zone, a) <= DateOf(zone, b) {
      DivideMonotone(Local(zone, a), Local(zone, b));
    }
  }

  /** The window really matters: an exit two dates after its entry is overlong only in the whole
      history, which is one that the pairing can be given. */
  lemma OverlongIsNotLocal()
    ensures var entry := Punch(0, ClockIn, 0.0, 0, true);
            var exit := Punch(1, ClockOut, 200_000_000.0, 2, true);
            var history := [entry, exit];
            && Regular(Universal()) && Dated(Universal(), history) && Chronological(history) && Distinct(history)
            && OverlongOut(history, 1) && Window(history, 2) == [exit] && !OverlongOut([exit], 0)
  {
    var s := [Punch(0, ClockIn, 0.0, 0, true), Punch(1, ClockOut, 200_000_000.0, 2, true)];
    TwoDatesIsPossible(s);
    assert Overruns(s, 0, 1);
  }

  /** A clock-in two dates after the previous one is repeated only in the whole history. */
  lemma RepetitionIsNotLocal()
    ensures var first := Punch(0, ClockIn, 0.0, 0, true);
            var second := Punch(1, ClockIn, 200_000_000.0, 2, true);
            var history := [first, second];
            && Regular(Universal()) && Dated(Universal(), history) && Chronological(history) && Distinct(history)
            && RepeatedAt(history, 1) && Window(history, 2) == [second] && !RepeatedAt([second], 0)
  {
    var s := [Punch(0, ClockIn, 0.0, 0, true), Punch(1, ClockIn, 200_000_000.0, 2, true)];
    TwoDatesIsPossible(s);
  }

  lemma TwoDatesIsPossible(s: seq<Punch>)
    requires |s| == 2 && s[0].key == 0.0 && s[0].date == 0 && s[1].key == 200_000_000.0 && s[1].date == 2
    ensures Regular(Universal()) && Dated(Universal(), s) && Chronological(s) && Distinct(s)
    ensures s[0].Instant() == 0 && s[1].Instant() == 200_000_000 && Window(s, 2) == [s[1]]
  {
    UniversalIsRegular();
    assert s[0].Instant() == 0 && s[1].Instant() == 200_000_000;
    assert s[1..] == [s[1]];
    assert Window(s[1..], 2) == [s[1]] + Window(s[1..][1..], 2);
  }
}
