/** The one-tap exit at the scheduled end: what it closes, and that it disturbs nothing else. */
module ShiftExits {
  import opened Options
  import opened Events
  import opened FactoryZone
  import opened SortKeys
  import opened ShiftPairing
  import opened ShiftProperties
  import opened ShiftVoids
  import Schedules

  const STANDARD_SHIFT_MINUTES := 480
  const MINUTES_PER_DAY := 1_440

  datatype ExitAdvice = NoException | ReviewExit | AddExit

  /** Whether a shift begun at this minute of the wall could end on the next date.  Nothing is known
      without the minute. */
  predicate CouldEndNextDate(minute: Option<int>, start: int, end: int) {
    match minute
    case None => true
    case Some(m) =>
      var length := if end - start < STANDARD_SHIFT_MINUTES then STANDARD_SHIFT_MINUTES else end - start;
      m >= end || m + length >= MINUTES_PER_DAY
  }

  /** The missing clock-out rule for the date's punches: `minute` is the wall minute of the last one,
      `start` and `end` those of the schedule, `passed` whether that end has passed, and `now` the
      present as a punch. */
  function MissingExitAdvice(
    r: Pairing, day: seq<Punch>, minute: Option<int>, start: int, end: int, passed: bool, now: Punch): ExitAdvice
  {
    if day == [] then NoException
    else
      var last := day[|day| - 1];
      if last.kind != ClockIn || last in r.pairedIns || !passed then NoException
      else
        var competing := last in r.plausible;
        var inProgress := !competing && CouldEndNextDate(minute, start, end) && IsPlausibleShift(last, now);
        if competing || inProgress || (minute.Some? && minute.value >= end) then ReviewExit else AddExit
  }

  /** The last punch of the date is a clock-in that is neither paired nor has a plausible exit.  The
      program offers the exit only then. */
  ghost predicate OffersExit(r: Pairing, s: seq<Punch>, d: int, p: Punch) {
    var day := OnDate(s, d);
    && day != [] && day[|day| - 1] == p && p.kind == ClockIn
    && p !in r.pairedIns && p !in r.plausible
  }

  /** The history with the exit `x` in front of position `q`. */
  function Inserted(s: seq<Punch>, q: nat, x: Punch): seq<Punch>
    requires q <= |s|
  {
    s[..q] + [x] + s[q..]
  }

  /** Where punch `k` is then. */
  function Moved(k: nat, q: nat): nat {
    if k < q then k else k + 1
  }

  /** Punch `v` is the date's last, a clock-in without a plausible exit. */
  ghost predicate LeftOpen(s: seq<Punch>, v: nat) {
    && v < |s| && s[v].kind == ClockIn && !HasPlausibleOpposite(s, s[v])
    && forall k :: v < k < |s| ==> s[k].date > s[v].date
  }

  // ----- runs -----

  lemma PunchMoved(s: seq<Punch>, q: nat, x: Punch, k: nat)
    requires q <= |s| && k < |s|
    ensures Inserted(s, q, x)[Moved(k, q)] == s[k] && Inserted(s, q, x)[q] == x
  {
  }

  lemma RunBeforeExit(s: seq<Punch>, q: nat, x: Punch, o: nat, j: nat)
    requires o < j <= q <= |s|
    ensures EntryRun(Inserted(s, q, x), o, j) <==> EntryRun(s, o, j)
  {
    assert forall k :: o <= k < j ==> Inserted(s, q, x)[k] == s[k];
  }

  lemma RunBehindExit(s: seq<Punch>, q: nat, x: Punch, o: nat, j: nat)
    requires q <= o < j <= |s|
    ensures EntryRun(Inserted(s, q, x), o + 1, j + 1) <==> EntryRun(s, o, j)
  {
    var t := Inserted(s, q, x);
    assert forall k :: o <= k < j ==> t[k + 1] == s[k];
    if EntryRun(t, o + 1, j + 1) {
      forall k | o <= k < j ensures s[k].kind == ClockIn && s[k].date == s[o].date {
        assert t[k + 1] == s[k];
      }
    }
    if EntryRun(s, o, j) {
      forall k | o + 1 <= k < j + 1 ensures t[k].kind == ClockIn && t[k].date == t[o + 1].date {
        assert t[k] == s[k - 1];
      }
    }
  }

  /** No run reaches across the exit. */
  lemma NoRunAcross(s: seq<Punch>, q: nat, x: Punch, o: nat, j: nat)
    requires q <= |s| && x.kind == ClockOut && o <= q < j
    ensures !EntryRun(Inserted(s, q, x), o, j)
  {
    assert Inserted(s, q, x)[q] == x;
  }

  lemma OpenRunBefore(s: seq<Punch>, q: nat, x: Punch, o: nat, j: nat)
    requires o < j <= q <= |s|
    ensures OpenRun(Inserted(s, q, x), o, j) <==> OpenRun(s, o, j)
  {
    RunBeforeExit(s, q, x, o, j);
    if o > 0 {
      RunBeforeExit(s, q, x, o - 1, j);
    }
  }

  function Later(a: nat, b: nat): nat {
    if a < b then b else a
  }

  /** What is left behind the exit of a run that it cuts starts right behind it. */
  lemma OpenRunBehind(s: seq<Punch>, q: nat, x: Punch, o: nat, j: nat)
    requires x.kind == ClockOut && q < j <= |s| && OpenRun(s, o, j)
    ensures OpenRun(Inserted(s, q, x), Later(o, q) + 1, j + 1)
  {
    RunBehindExit(s, q, x, Later(o, q), j);
    if o > q {
      RunBehindExit(s, q, x, o - 1, j);
    } else {
      NoRunAcross(s, q, x, q, j + 1);
    }
  }

  /** Every run has a start. */
  lemma {:induction false} RunHasStart(s: seq<Punch>, p: nat, j: nat) returns (o: nat)
    requires EntryRun(s, p, j)
    ensures o <= p && OpenRun(s, o, j)
  {
    if p == 0 || !EntryRun(s, p - 1, j) {
      o := p;
    } else {
      o := RunHasStart(s, p - 1, j);
    }
  }

  lemma OpenRunWas(s: seq<Punch>, q: nat, x: Punch, p: nat, j: nat) returns (o: nat)
    requires x.kind == ClockOut && q < j <= |s| && OpenRun(Inserted(s, q, x), p, j + 1)
    ensures OpenRun(s, o, j) && p == Later(o, q) + 1
  {
    if p <= q {
      NoRunAcross(s, q, x, p, j + 1);
    }
    RunBehindExit(s, q, x, p - 1, j);
    o := RunHasStart(s, p - 1, j);
    if q < p - 1 {
      RunBehindExit(s, q, x, p - 2, j);
    }
  }

  lemma NothingOpenBehind(s: seq<Punch>, q: nat, x: Punch, p: nat)
    requires q <= |s| && x.kind == ClockOut
    ensures !OpenRun(Inserted(s, q, x), p, q + 1)
  {
    if p <= q {
      NoRunAcross(s, q, x, p, q + 1);
    }
  }

  // ----- what an exit changes, wherever it lands -----

  /** The clock-out at `j` closes what is left behind the exit of the run that starts at `o`. */
  ghost predicate ClosesBehind(s: seq<Punch>, q: nat, o: nat, j: nat) {
    && q < j < |s| && s[j].kind == ClockOut && OpenRun(s, o, j)
    && IsPlausibleShift(s[Later(o, q)], s[j])
  }

  ghost predicate OverrunsBehind(s: seq<Punch>, q: nat, o: nat, j: nat) {
    && q < j < |s| && s[j].kind == ClockOut && OpenRun(s, o, j)
    && s[j].Instant() - s[Later(o, q)].Instant() > MAX_SHIFT_MS
  }

  /** The exit closes the run that starts at `o`. */
  ghost predicate ExitEnds(s: seq<Punch>, q: nat, x: Punch, o: nat) {
    OpenRun(s, o, q) && IsPlausibleShift(s[o], x)
  }

  ghost predicate ExitOverruns(s: seq<Punch>, q: nat, x: Punch, o: nat) {
    OpenRun(s, o, q) && x.Instant() - s[o].Instant() > MAX_SHIFT_MS
  }

  lemma OutBeforeExit(s: seq<Punch>, q: nat, x: Punch, o: nat, j: nat)
    requires j < q <= |s|
    ensures Closes(Inserted(s, q, x), o, j) <==> Closes(s, o, j)
    ensures Overruns(Inserted(s, q, x), o, j) <==> Overruns(s, o, j)
  {
    if o < j {
      PunchMoved(s, q, x, o);
      PunchMoved(s, q, x, j);
      OpenRunBefore(s, q, x, o, j);
    }
  }

  lemma ExitIsJudged(s: seq<Punch>, q: nat, x: Punch, o: nat)
    requires q <= |s| && x.kind == ClockOut
    ensures Closes(Inserted(s, q, x), o, q) <==> ExitEnds(s, q, x, o)
    ensures Overruns(Inserted(s, q, x), o, q) <==> ExitOverruns(s, q, x, o)
  {
    assert Inserted(s, q, x)[q] == x;
    if o < q {
      PunchMoved(s, q, x, o);
      OpenRunBefore(s, q, x, o, q);
    }
  }

  lemma OutBehindExit(s: seq<Punch>, q: nat, x: Punch, o: nat, j: nat)
    requires x.kind == ClockOut && q < j < |s| && OpenRun(s, o, j)
    ensures Closes(Inserted(s, q, x), Later(o, q) + 1, j + 1) <==> ClosesBehind(s, q, o, j)
    ensures Overruns(Inserted(s, q, x), Later(o, q) + 1, j + 1) <==> OverrunsBehind(s, q, o, j)
  {
    PunchMoved(s, q, x, Later(o, q));
    PunchMoved(s, q, x, j);
    OpenRunBehind(s, q, x, o, j);
  }

  /** How each clock-out is judged: those in front of the exit as before, the one right behind it has
      nothing open, and later ones are judged by what is left of their run behind it. */
  lemma InsertedExitJudgesOuts(s: seq<Punch>, q: nat, x: Punch, k: nat)
    requires q <= |s| && x.kind == ClockOut && k < |s|
    ensures k < q ==> (PairedOut(Inserted(s, q, x), k) <==> PairedOut(s, k))
    ensures k >= q ==> (PairedOut(Inserted(s, q, x), k + 1) <==> exists o: nat :: ClosesBehind(s, q, o, k))
    ensures PairedOut(Inserted(s, q, x), q) <==> exists o: nat :: ExitEnds(s, q, x, o)
  {
    var t := Inserted(s, q, x);
    forall o: nat ensures Closes(t, o, q) <==> ExitEnds(s, q, x, o) {
      ExitIsJudged(s, q, x, o);
    }
    if k < q {
      forall o: nat ensures Closes(t, o, k) <==> Closes(s, o, k) {
        OutBeforeExit(s, q, x, o, k);
      }
    } else {
      if PairedOut(t, k + 1) {
        PairedOutWas(s, q, x, k);
      }
      if o: nat :| ClosesBehind(s, q, o, k) {
        OutBehindExit(s, q, x, o, k);
      }
    }
  }

  lemma PairedOutWas(s: seq<Punch>, q: nat, x: Punch, k: nat)
    requires q <= k < |s| && x.kind == ClockOut && PairedOut(Inserted(s, q, x), k + 1)
    ensures exists o: nat :: ClosesBehind(s, q, o, k)
  {
    var p: nat :| Closes(Inserted(s, q, x), p, k + 1);
    if k == q {
      NothingOpenBehind(s, q, x, p);
    }
    var o := OpenRunWas(s, q, x, p, k);
    OutBehindExit(s, q, x, o, k);
  }

  lemma InsertedExitJudgesOverlong(s: seq<Punch>, q: nat, x: Punch, k: nat)
    requires q <= |s| && x.kind == ClockOut && k < |s|
    ensures k < q ==> (OverlongOut(Inserted(s, q, x), k) <==> OverlongOut(s, k))
    ensures k >= q ==> (OverlongOut(Inserted(s, q, x), k + 1) <==> exists o: nat :: OverrunsBehind(s, q, o, k))
    ensures OverlongOut(Inserted(s, q, x), q) <==> exists o: nat :: ExitOverruns(s, q, x, o)
  {
    var t := Inserted(s, q, x);
    forall o: nat ensures Overruns(t, o, q) <==> ExitOverruns(s, q, x, o) {
      ExitIsJudged(s, q, x, o);
    }
    if k < q {
      forall o: nat ensures Overruns(t, o, k) <==> Overruns(s, o, k) {
        OutBeforeExit(s, q, x, o, k);
      }
    } else {
      if OverlongOut(t, k + 1) {
        OverlongWas(s, q, x, k);
      }
      if o: nat :| OverrunsBehind(s, q, o, k) {
        OutBehindExit(s, q, x, o, k);
      }
    }
  }

  lemma OverlongWas(s: seq<Punch>, q: nat, x: Punch, k: nat)
    requires q <= k < |s| && x.kind == ClockOut && OverlongOut(Inserted(s, q, x), k + 1)
    ensures exists o: nat :: OverrunsBehind(s, q, o, k)
  {
    var p: nat :| Overruns(Inserted(s, q, x), p, k + 1);
    if k == q {
      NothingOpenBehind(s, q, x, p);
    }
    var o := OpenRunWas(s, q, x, p, k);
    OutBehindExit(s, q, x, o, k);
  }

  /** How each clock-in is judged: one in front of the exit counts with an exit in front of it or
      with the new one, and one behind it with what is left of its run. */
  ghost predicate PairedAround(s: seq<Punch>, q: nat, x: Punch, k: nat) {
    if k < q then PairedInBefore(s, k, q) || exists o: nat :: o <= k && ExitEnds(s, q, x, o)
    else exists o: nat, j: nat :: Later(o, q) <= k < j && ClosesBehind(s, q, o, j)
  }

  lemma InsertedExitJudgesIns(s: seq<Punch>, q: nat, x: Punch, k: nat)
    requires q <= |s| && x.kind == ClockOut && k < |s|
    ensures PairedIn(Inserted(s, q, x), Moved(k, q)) <==> PairedAround(s, q, x, k)
  {
    if PairedIn(Inserted(s, q, x), Moved(k, q)) {
      PairedInWas(s, q, x, k);
    }
    if PairedAround(s, q, x, k) {
      if k < q {
        PairedInFront(s, q, x, k);
      } else {
        PairedInBehind(s, q, x, k);
      }
    }
  }

  lemma PairedInWas(s: seq<Punch>, q: nat, x: Punch, k: nat)
    requires q <= |s| && x.kind == ClockOut && k < |s| && PairedIn(Inserted(s, q, x), Moved(k, q))
    ensures PairedAround(s, q, x, k)
  {
    var p: nat, j: nat :| p <= Moved(k, q) < j && Closes(Inserted(s, q, x), p, j);
    if j < q {
      OutBeforeExit(s, q, x, p, j);
      assert PairedInBefore(s, k, q);
    } else if j == q {
      ExitIsJudged(s, q, x, p);
    } else if j == q + 1 {
      NothingOpenBehind(s, q, x, p);
    } else {
      var o := OpenRunWas(s, q, x, p, j - 1);
      OutBehindExit(s, q, x, o, j - 1);
      assert Later(o, q) <= k < j - 1;
    }
  }

  lemma PairedInFront(s: seq<Punch>, q: nat, x: Punch, k: nat)
    requires k < q <= |s| && x.kind == ClockOut && PairedAround(s, q, x, k)
    ensures PairedIn(Inserted(s, q, x), k)
  {
    if PairedInBefore(s, k, q) {
      var o: nat, j: nat :| o <= k < j < q && Closes(s, o, j);
      OutBeforeExit(s, q, x, o, j);
    } else {
      var o: nat :| o <= k && ExitEnds(s, q, x, o);
      ExitIsJudged(s, q, x, o);
    }
  }

  lemma PairedInBehind(s: seq<Punch>, q: nat, x: Punch, k: nat)
    requires q <= k < |s| && x.kind == ClockOut && PairedAround(s, q, x, k)
    ensures PairedIn(Inserted(s, q, x), k + 1)
  {
    var o: nat, j: nat :| Later(o, q) <= k < j && ClosesBehind(s, q, o, j);
    OutBehindExit(s, q, x, o, j);
  }

  /** A clock-in gains a plausible exit exactly if the new one is plausible for it. */
  lemma PlausibleWithExit(s: seq<Punch>, q: nat, x: Punch, p: Punch)
    requires q <= |s| && x.kind == ClockOut
    ensures HasPlausibleOpposite(Inserted(s, q, x), p) <==>
            HasPlausibleOpposite(s, p) || (p.kind == ClockIn && IsPlausibleShift(p, x))
  {
    assert s == s[..q] + s[q..];
    assert forall y :: y in Inserted(s, q, x) <==> y in s || y == x;
  }

  // ----- an exit right behind a punch that is left open -----

  /** No exit of a later date closes the open run. */
  lemma NothingClosesLater(s: seq<Punch>, v: nat, o: nat, j: nat)
    requires Chronological(s) && LeftOpen(s, v) && o <= v < j
    ensures !Closes(s, o, j)
  {
    if Closes(s, o, j) {
      InstantsFollowKeys(s);
      assert s[j] in s && IsPlausibleShift(s[v], s[j]);
    }
  }

  /** A run that goes on beyond the date starts beyond it. */
  lemma LaterRunStartsLater(s: seq<Punch>, v: nat, o: nat, j: nat)
    requires LeftOpen(s, v) && v + 1 < j && OpenRun(s, o, j)
    ensures o > v
  {
    assert s[v].date != s[v + 1].date;
  }

  lemma PairedOutWithExit(s: seq<Punch>, v: nat, q: nat, x: Punch, k: nat)
    requires Chronological(s) && LeftOpen(s, v) && q == v + 1 && x.kind == ClockOut && k < |s|
    ensures PairedOut(Inserted(s, q, x), Moved(k, q)) <==> PairedOut(s, k)
  {
    InsertedExitJudgesOuts(s, q, x, k);
    if k > v {
      if o: nat :| ClosesBehind(s, q, o, k) {
        LaterRunStartsLater(s, v, o, k);
        assert Closes(s, o, k);
      }
      if PairedOut(s, k) {
        PairedOutLater(s, v, q, k);
      }
    }
  }

  lemma PairedOutLater(s: seq<Punch>, v: nat, q: nat, k: nat)
    requires Chronological(s) && LeftOpen(s, v) && q == v + 1 && v < k && PairedOut(s, k)
    ensures exists o: nat :: ClosesBehind(s, q, o, k)
  {
    var o: nat :| Closes(s, o, k);
    if o <= v {
      NothingClosesLater(s, v, o, k);
    }
    assert ClosesBehind(s, q, o, k);
  }

  /** The exit behind the new one, overlong before, has nothing open any more. */
  lemma OverlongWithExit(s: seq<Punch>, v: nat, q: nat, x: Punch, k: nat)
    requires LeftOpen(s, v) && q == v + 1 && x.kind == ClockOut && k < |s|
    ensures OverlongOut(Inserted(s, q, x), Moved(k, q)) <==> OverlongOut(s, k) && k != q
  {
    InsertedExitJudgesOverlong(s, q, x, k);
    if k > v {
      if o: nat :| OverrunsBehind(s, q, o, k) {
        LaterRunStartsLater(s, v, o, k);
        assert Overruns(s, o, k);
      }
      if OverlongOut(s, k) && k != q {
        var o: nat :| Overruns(s, o, k);
        LaterRunStartsLater(s, v, o, k);
        assert OverrunsBehind(s, q, o, k);
      }
    }
  }

  lemma ExitIsFromRun(s: seq<Punch>, q: nat, x: Punch, o: nat)
    requires OpenRun(s, o, q)
    ensures (exists p: nat :: ExitEnds(s, q, x, p)) <==> IsPlausibleShift(s[o], x)
    ensures (exists p: nat :: ExitOverruns(s, q, x, p)) <==> x.Instant() - s[o].Instant() > MAX_SHIFT_MS
  {
    forall p: nat | OpenRun(s, p, q) ensures p == o {
      RunStartIsUnique(s, o, p, q);
    }
    assert ExitEnds(s, q, x, o) <==> IsPlausibleShift(s[o], x);
    assert ExitOverruns(s, q, x, o) <==> x.Instant() - s[o].Instant() > MAX_SHIFT_MS;
  }

  lemma NotBeforeRun(s: seq<Punch>, v: nat, x: Punch, o: nat)
    requires Chronological(s) && o <= v < |s| && s[v].key <= x.key
    ensures s[o].Instant() <= x.Instant()
  {
    InstantsFollowKeys(s);
  }

  /** The exit is judged by the first entry of the run that punch `v` ends. */
  lemma ExitClosesRun(s: seq<Punch>, v: nat, q: nat, x: Punch, o: nat)
    requires Chronological(s) && v < |s| && q == v + 1 && x.kind == ClockOut && s[v].key <= x.key && OpenRun(s, o, q)
    ensures PairedOut(Inserted(s, q, x), q) <==> IsPlausibleShift(s[o], x)
    ensures OverlongOut(Inserted(s, q, x), q) <==> !IsPlausibleShift(s[o], x)
  {
    InsertedExitJudgesOuts(s, q, x, v);
    InsertedExitJudgesOverlong(s, q, x, v);
    ExitIsFromRun(s, q, x, o);
    NotBeforeRun(s, v, x, o);
  }

  lemma PairedInWithExit(s: seq<Punch>, v: nat, q: nat, x: Punch, o: nat, k: nat)
    requires Chronological(s) && LeftOpen(s, v) && q == v + 1 && x.kind == ClockOut && OpenRun(s, o, q) && k < |s|
    ensures PairedIn(Inserted(s, q, x), Moved(k, q)) <==>
            PairedIn(s, k) || (o <= k <= v && IsPlausibleShift(s[o], x))
  {
    InsertedExitJudgesIns(s, q, x, k);
    if k <= v {
      PairedUpToDate(s, v, q, x, o, k);
    } else {
      PairedBeyondDate(s, v, q, x, k);
    }
  }

  lemma PairedUpToDate(s: seq<Punch>, v: nat, q: nat, x: Punch, o: nat, k: nat)
    requires Chronological(s) && LeftOpen(s, v) && q == v + 1 && OpenRun(s, o, q) && k <= v
    ensures PairedAround(s, q, x, k) <==> PairedIn(s, k) || (o <= k && IsPlausibleShift(s[o], x))
  {
    if p: nat :| p <= k && ExitEnds(s, q, x, p) {
      RunStartIsUnique(s, o, p, q);
    }
    if o <= k && IsPlausibleShift(s[o], x) {
      assert ExitEnds(s, q, x, o);
    }
    if PairedIn(s, k) {
      var p: nat, j: nat :| p <= k < j && Closes(s, p, j);
      if j > v {
        NothingClosesLater(s, v, p, j);
      }
      assert PairedInBefore(s, k, q);
    }
  }

  lemma PairedBeyondDate(s: seq<Punch>, v: nat, q: nat, x: Punch, k: nat)
    requires Chronological(s) && LeftOpen(s, v) && q == v + 1 && v < k < |s|
    ensures PairedAround(s, q, x, k) <==> PairedIn(s, k)
  {
    if PairedAround(s, q, x, k) {
      var o: nat, j: nat :| Later(o, q) <= k < j && ClosesBehind(s, q, o, j);
      LaterRunStartsLater(s, v, o, j);
      assert Closes(s, o, j);
    }
    if PairedIn(s, k) {
      var o: nat, j: nat :| o <= k < j && Closes(s, o, j);
      LaterRunStartsLater(s, v, o, j);
      assert ClosesBehind(s, q, o, j);
    }
  }

  // ----- from the offer to the history -----

  lemma {:induction false} LastOnDate(w: seq<Punch>, d: int, i: nat)
    requires Distinct(w) && DatesInOrder(w) && i < |w|
    requires OnDate(w, d) != [] && OnDate(w, d)[|OnDate(w, d)| - 1] == w[i]
    ensures w[i].date == d && forall k :: i < k < |w| ==> w[k].date > d
  {
    var last := |w| - 1;
    if w[last].date == d {
      assert i == last;
    } else {
      OnDateMembers(w[..last], d, |OnDate(w[..last], d)| - 1);
      assert i < last && w[..last][i] == w[i];
      LastOnDate(w[..last], d, i);
      assert forall k :: i < k < last ==> w[..last][k] == w[k];
    }
  }

  lemma OfferedInWindow(w: seq<Punch>, windowed: Pairing, i: nat, d: int)
    requires Distinct(w) && DatesInOrder(w) && i < |w|
    requires IsPairingOf(windowed, w) && OffersExit(windowed, w, d, w[i])
    ensures LeftOpen(w, i) && w[i].date == d
  {
    LastOnDate(w, d, i);
    PairingMeans(windowed, w, i);
  }

  lemma LeftOpenInHistory(zone: Zone, s: seq<Punch>, v: nat, d: int, a: nat, b: nat)
    requires Regular(zone) && Dated(zone, s) && IsWindow(s, d, a, b) && a <= v < b
    requires LeftOpen(s[a..b], v - a) && s[v].date == d
    ensures LeftOpen(s, v)
  {
    var w := s[a..b];
    assert w[v - a] == s[v];
    PlausibleInWindow(zone, s, d, a, b, s[v]);
    forall k | v < k < |s| ensures s[k].date > d {
      assert k < b ==> w[k - a] == s[k];
    }
  }

  /** An exit is offered only for a punch that is left open in the whole history, too. */
  lemma OfferedIsLeftOpen(
    zone: Zone, s: seq<Punch>, v: nat, d: int, windowed: Pairing, a: nat, b: nat)
    requires Regular(zone) && Dated(zone, s) && Chronological(s) && Distinct(s)
    requires IsWindow(s, d, a, b) && a <= v < b
    requires IsPairingOf(windowed, s[a..b]) && OffersExit(windowed, s[a..b], d, s[v])
    ensures LeftOpen(s, v) && s[v].date == d
  {
    OfferedInSlice(zone, s, v, d, windowed, a, b, s[a..b]);
    LeftOpenInHistory(zone, s, v, d, a, b);
  }

  lemma OfferedInSlice(
    zone: Zone, s: seq<Punch>, v: nat, d: int, windowed: Pairing, a: nat, b: nat, w: seq<Punch>)
    requires Regular(zone) && Dated(zone, s) && Chronological(s) && Distinct(s)
    requires a <= v < b <= |s| && w == s[a..b] && IsPairingOf(windowed, w) && OffersExit(windowed, w, d, s[v])
    ensures LeftOpen(w, v - a) && s[v].date == d
  {
    WindowInOrder(zone, s, v, a, b, w);
    OfferedInWindow(w, windowed, v - a, d);
  }

  lemma WindowInOrder(zone: Zone, s: seq<Punch>, v: nat, a: nat, b: nat, w: seq<Punch>)
    requires Regular(zone) && Dated(zone, s) && Chronological(s) && Distinct(s)
    requires a <= v < b <= |s| && w == s[a..b]
    ensures Distinct(w) && DatesInOrder(w) && w[v - a] == s[v]
  {
    DatesFollowInstants(zone, s);
    SliceIsDistinct(s, a, b);
    DatesOfSlice(s, a, b);
  }

  lemma DatesOfSlice(s: seq<Punch>, a: nat, b: nat)
    requires DatesInOrder(s) && a <= b <= |s|
    ensures DatesInOrder(s[a..b])
  {
  }

  // ----- the exit in the chronological order -----

  /** Sorting finds the exit a place. */
  lemma {:induction false} ExitFindsPlace(s: seq<Punch>, x: Punch) returns (q: nat)
    requires Chronological(s)
    ensures q <= |s| && StableSort(s + [x]) == Inserted(s, q, x) && Chronological(Inserted(s, q, x))
  {
    q := InsertionPlace(s, x);
    StableSortOfOrdered(s);
    assert (s + [x])[..|s|] == s;
    StableSortOrders(s + [x]);
  }

  lemma {:induction false} InsertionPlace(s: seq<Punch>, x: Punch) returns (q: nat)
    ensures q <= |s| && InsertByKey(s, x) == Inserted(s, q, x)
  {
    if s == [] || s[|s| - 1].key <= x.key {
      q := |s|;
    } else {
      var last := |s| - 1;
      q := InsertionPlace(s[..last], x);
      assert s[..last][..q] == s[..q];
      assert s[..last][q..] + [s[last]] == s[q..];
    }
  }

  /** An exit of the same date that is sorted behind the punch is sorted right behind it. */
  lemma ExitIsNext(zone: Zone, s: seq<Punch>, v: nat, x: Punch, q: nat)
    requires Regular(zone) && Dated(zone, s) && Dated(zone, [x]) && LeftOpen(s, v) && x.date == s[v].date
    requires v < q <= |s| && Chronological(Inserted(s, q, x))
    ensures q == v + 1 && s[v].key <= x.key
  {
    var t := Inserted(s, q, x);
    assert t[v] == s[v] && t[q] == x && x in [x];
    if v + 1 < q {
      assert t[v + 1] == s[v + 1] && s[v + 1] in s;
      InstantsFollowKeys(t);
      MillisecondsToSeconds(s[v + 1].Instant(), x.Instant());
    }
  }

  // ----- the correction -----

  /** An offered exit that is sorted behind the punch is sorted right behind it. */
  lemma OfferedExitIsNext(
    zone: Zone, s: seq<Punch>, v: nat, d: int, windowed: Pairing, a: nat, b: nat, x: Punch, q: nat)
    requires Regular(zone) && Dated(zone, s) && Dated(zone, [x]) && Chronological(s) && Distinct(s)
    requires IsWindow(s, d, a, b) && a <= v < b
    requires IsPairingOf(windowed, s[a..b]) && OffersExit(windowed, s[a..b], d, s[v])
    requires x.date == d && q <= |s| && Chronological(Inserted(s, q, x))
    ensures LeftOpen(s, v) && (q > v ==> q == v + 1 && s[v].key <= x.key)
  {
    OfferedIsLeftOpen(zone, s, v, d, windowed, a, b);
    if q > v {
      ExitIsNext(zone, s, v, x, q);
    }
  }

  /** Adding the offered exit, wherever it is sorted: it closes the open punch exactly if it is sorted
      behind it and within 16 hours of the first entry of the run.  Sorted behind it, it closes the
      whole run or is overlong itself. */
  lemma AddedExitCloses(
    zone: Zone, s: seq<Punch>, v: nat, d: int, windowed: Pairing, a: nat, b: nat, x: Punch, q: nat,
    after: Pairing, o: nat)
    requires Regular(zone) && Dated(zone, s) && Dated(zone, [x]) && Chronological(s) && Distinct(s)
    requires IsWindow(s, d, a, b) && a <= v < b
    requires IsPairingOf(windowed, s[a..b]) && OffersExit(windowed, s[a..b], d, s[v])
    requires x.kind == ClockOut && x.date == d && q <= |s| && Chronological(Inserted(s, q, x))
    requires IsPairingOf(after, Inserted(s, q, x)) && OpenRun(s, o, v + 1)
    ensures s[v] in after.pairedIns <==> q > v && IsPlausibleShift(s[o], x)
    ensures q > v ==> (x in after.pairedOuts <==> IsPlausibleShift(s[o], x))
    ensures q > v ==> (x in after.overlongOuts <==> !IsPlausibleShift(s[o], x))
    ensures q > v ==> forall k :: o <= k <= v ==> (s[k] in after.pairedIns <==> IsPlausibleShift(s[o], x))
  {
    OfferedExitIsNext(zone, s, v, d, windowed, a, b, x, q);
    if q > v {
      NextExitCloses(s, v, q, x, after, o);
    } else {
      EarlyExitIsSeen(s, v, x, q, after);
    }
  }

  lemma NextExitCloses(s: seq<Punch>, v: nat, q: nat, x: Punch, after: Pairing, o: nat)
    requires Chronological(s) && LeftOpen(s, v) && q == v + 1 && x.kind == ClockOut && s[v].key <= x.key
    requires IsPairingOf(after, Inserted(s, q, x)) && OpenRun(s, o, q)
    ensures x in after.pairedOuts <==> IsPlausibleShift(s[o], x)
    ensures x in after.overlongOuts <==> !IsPlausibleShift(s[o], x)
    ensures forall k :: o <= k <= v ==> (s[k] in after.pairedIns <==> IsPlausibleShift(s[o], x))
  {
    ExitClosesRun(s, v, q, x, o);
    PunchMoved(s, q, x, v);
    PairingMeans(after, Inserted(s, q, x), q);
    forall k | o <= k <= v ensures s[k] in after.pairedIns <==> IsPlausibleShift(s[o], x) {
      PunchMoved(s, q, x, k);
      PairedInWithExit(s, v, q, x, o, k);
      PairingMeans(after, Inserted(s, q, x), Moved(k, q));
      NothingPairsYet(s, v, o, k);
    }
  }

  lemma EarlyExitIsSeen(s: seq<Punch>, v: nat, x: Punch, q: nat, after: Pairing)
    requires LeftOpen(s, v) && q <= v && Chronological(Inserted(s, q, x)) && IsPairingOf(after, Inserted(s, q, x))
    ensures s[v] !in after.pairedIns
  {
    EarlyExitLeavesOpen(s, v, x, q);
    PairingMeans(after, Inserted(s, q, x), v + 1);
  }

  lemma NothingPairsYet(s: seq<Punch>, v: nat, o: nat, k: nat)
    requires Chronological(s) && LeftOpen(s, v) && OpenRun(s, o, v + 1) && o <= k <= v
    ensures !PairedIn(s, k)
  {
    if PairedIn(s, k) {
      var p: nat, j: nat :| p <= k < j && Closes(s, p, j);
      NothingClosesLater(s, v, p, j);
    }
  }

  /** Sorted behind the punch, the exit disturbs no other: outside the run every punch stays paired or
      unpaired as it was, only an exit right behind the new one stops being overlong, and a clock-in
      becomes plausible only through the new exit. */
  lemma AddedExitKeepsOthers(
    zone: Zone, s: seq<Punch>, v: nat, d: int, windowed: Pairing, a: nat, b: nat, x: Punch, q: nat,
    before: Pairing, after: Pairing, o: nat, k: nat)
    requires Regular(zone) && Dated(zone, s) && Dated(zone, [x]) && Chronological(s) && Distinct(s)
    requires IsWindow(s, d, a, b) && a <= v < b
    requires IsPairingOf(windowed, s[a..b]) && OffersExit(windowed, s[a..b], d, s[v])
    requires x.kind == ClockOut && x.date == d && v < q <= |s| && Chronological(Inserted(s, q, x))
    requires IsPairingOf(before, s) && IsPairingOf(after, Inserted(s, q, x)) && OpenRun(s, o, v + 1) && k < |s|
    ensures s[k] in after.pairedIns <==> s[k] in before.pairedIns || (o <= k <= v && IsPlausibleShift(s[o], x))
    ensures s[k] in after.pairedOuts <==> s[k] in before.pairedOuts
    ensures s[k] in after.overlongOuts <==> s[k] in before.overlongOuts && k != v + 1
    ensures s[k] in after.plausible <==>
            s[k] in before.plausible || (s[k].kind == ClockIn && IsPlausibleShift(s[k], x))
  {
    OfferedExitIsNext(zone, s, v, d, windowed, a, b, x, q);
    NextExitKeepsOthers(s, v, q, x, before, after, o, k);
  }

  lemma NextExitKeepsOthers(
    s: seq<Punch>, v: nat, q: nat, x: Punch, before: Pairing, after: Pairing, o: nat, k: nat)
    requires Chronological(s) && LeftOpen(s, v) && q == v + 1 && x.kind == ClockOut && k < |s|
    requires IsPairingOf(before, s) && IsPairingOf(after, Inserted(s, q, x)) && OpenRun(s, o, q)
    ensures s[k] in after.pairedIns <==> s[k] in before.pairedIns || (o <= k <= v && IsPlausibleShift(s[o], x))
    ensures s[k] in after.pairedOuts <==> s[k] in before.pairedOuts
    ensures s[k] in after.overlongOuts <==> s[k] in before.overlongOuts && k != q
    ensures s[k] in after.plausible <==>
            s[k] in before.plausible || (s[k].kind == ClockIn && IsPlausibleShift(s[k], x))
  {
    PunchMoved(s, q, x, k);
    PairingMeans(before, s, k);
    PairingMeans(after, Inserted(s, q, x), Moved(k, q));
    PairedInWithExit(s, v, q, x, o, k);
    PairedOutWithExit(s, v, q, x, k);
    OverlongWithExit(s, v, q, x, k);
    PlausibleWithExit(s, q, x, s[k]);
  }

  /** An exit at any place of any history, in front of the open punch too, changes the judgement of the
      others so: a run that it cuts is judged in two parts, the front part by the new exit and the
      rest, from its first entry behind the new exit, by its own exit; an exit right behind the new
      one has nothing to close; everything else is judged as before. */
  lemma InsertedExitMeans(s: seq<Punch>, q: nat, x: Punch, before: Pairing, after: Pairing, k: nat)
    requires x.kind == ClockOut && q <= |s| && k < |s|
    requires IsPairingOf(before, s) && IsPairingOf(after, Inserted(s, q, x))
    ensures s[k] in after.pairedIns <==> PairedAround(s, q, x, k)
    ensures s[k] in after.pairedOuts <==>
            if k < q then s[k] in before.pairedOuts else exists o: nat :: ClosesBehind(s, q, o, k)
    ensures s[k] in after.overlongOuts <==>
            if k < q then s[k] in before.overlongOuts else exists o: nat :: OverrunsBehind(s, q, o, k)
    ensures s[k] in after.plausible <==>
            s[k] in before.plausible || (s[k].kind == ClockIn && IsPlausibleShift(s[k], x))
    ensures x in after.pairedOuts <==> exists o: nat :: ExitEnds(s, q, x, o)
    ensures x in after.overlongOuts <==> exists o: nat :: ExitOverruns(s, q, x, o)
  {
    PunchMoved(s, q, x, k);
    PairingMeans(before, s, k);
    PairingMeans(after, Inserted(s, q, x), Moved(k, q));
    PairingMeans(after, Inserted(s, q, x), q);
    InsertedExitJudgesIns(s, q, x, k);
    InsertedExitJudgesOuts(s, q, x, k);
    InsertedExitJudgesOverlong(s, q, x, k);
    PlausibleWithExit(s, q, x, s[k]);
  }

  // ----- the scheduled end -----

  /** The wall shows this time both before and after the instant. */
  ghost predicate ShownAround(zone: Zone, wall: int, entry: int) {
    exists t, u :: t < entry < u && Local(zone, t) == wall && Local(zone, u) == wall
  }

  /** The scheduled end is later on the wall than the clock-in.  It is later in time, too, exactly
      unless the wall shows it both before and after the clock-in. */
  lemma ScheduledEndFollowsEntry(zone: Zone, entry: int, day: int, end: string)
    requires Regular(zone) && Schedules.IsTime(end) && DateOf(zone, entry) == day
    requires Local(zone, entry) / 60 % 1_440 < Schedules.MinuteOf(end)
    requires Resolve(zone, Schedules.WallAt(day, Schedules.MinuteOf(end))).Some?
    ensures var wall := Schedules.WallAt(day, Schedules.MinuteOf(end));
            entry < Resolve(zone, wall).value <==> !ShownAround(zone, wall, entry)
  {
    var wall := Schedules.WallAt(day, Schedules.MinuteOf(end));
    ResolveIsEarliest(zone, wall);
    EntryShowsBefore(Local(zone, entry), day, Schedules.MinuteOf(end));
    FollowsOrRepeats(zone, entry, Resolve(zone, wall).value, entry + (wall - Local(zone, entry)));
  }

  lemma EntryShowsBefore(shown: int, day: int, minute: int)
    requires shown / SECONDS_PER_DAY == day && shown / 60 % 1_440 < minute < 1_440
    ensures shown < Schedules.WallAt(day, minute) < shown + SECONDS_PER_DAY
  {
    Schedules.WallMinute(shown, day);
  }

  lemma FollowsOrRepeats(zone: Zone, entry: int, exit: int, again: int)
    requires Regular(zone) && Local(zone, entry) < Local(zone, exit) < Local(zone, entry) + SECONDS_PER_DAY
    requires again == entry + (Local(zone, exit) - Local(zone, entry))
    ensures entry < exit || (exit < entry < again && Local(zone, again) == Local(zone, exit))
  {
    if exit <= entry {
      RepeatsAfter(zone, exit, entry, again);
    }
  }

  /** If the wall is behind where it was earlier that day, it shows the time between again. */
  lemma RepeatsAfter(zone: Zone, exit: int, entry: int, again: int)
    requires Regular(zone) && exit <= entry <= exit + 2 * SECONDS_PER_DAY - MAX_SHIFT_OF_OFFSET
    requires Local(zone, entry) < Local(zone, exit) && again == entry + (Local(zone, exit) - Local(zone, entry))
    ensures Local(zone, again) == Local(zone, exit)
  {
    assert ChangesOnce(zone, exit);
    var m :| ChangesOnlyAt(zone, exit, m);
    assert zone(entry) - zone(exit) >= -MAX_SHIFT_OF_OFFSET;
    assert zone(entry) != zone(exit);
    assert m <= entry;
    assert zone(entry) == zone(exit + 2 * SECONDS_PER_DAY);
    assert zone(again) == zone(exit + 2 * SECONDS_PER_DAY);
  }

  lemma SecondOfDay(day: int, second: int)
    requires 0 <= second < SECONDS_PER_DAY
    ensures (day * SECONDS_PER_DAY + second) / SECONDS_PER_DAY == day
  {
  }

  lemma FirstShowing(zone: Zone, wall: int, t: int)
    requires Regular(zone) && Local(zone, t) == wall && forall u :: u < t ==> Local(zone, u) != wall
    ensures Resolve(zone, wall) == Some(t)
  {
    ResolveIsEarliest(zone, wall);
  }

  lemma BeforeFallBack(change: int)
    ensures Local(FallBack(change), change - 900) == change - 18_900
    ensures forall u :: u < change - 900 ==> Local(FallBack(change), u) != change - 18_900
    ensures Local(FallBack(change), change + 1_800) == change - 19_800
  {
  }

  /** In the second showing of the repeated hour a clock-in at 01:30 is after the exit at 01:45. */
  lemma ExitCanPrecedeEntry(change: int, day: int)
    requires change == day * SECONDS_PER_DAY + 7 * 3_600
    ensures var zone := FallBack(change);
            var entry, wall := change + 1_800, change - 18_900;
            && Regular(zone) && DateOf(zone, entry) == wall / SECONDS_PER_DAY && Local(zone, entry) < wall
            && Resolve(zone, wall) == Some(change - 900) && change - 900 < entry
  {
    FallBackOn(change, day);
    BeforeFallBack(change);
    FirstShowing(FallBack(change), change - 18_900, change - 900);
    SecondOfDay(day, 5_400);
    SecondOfDay(day, 6_300);
  }

  lemma FallBackOn(change: int, day: int)
    requires change == day * SECONDS_PER_DAY + 7 * 3_600
    ensures Regular(FallBack(change))
  {
    FallBackIsRegular(change);
  }

  lemma LaterExitIsPlausible(s: seq<Punch>, v: nat, t: seq<Punch>, o: nat, j: nat)
    requires v < |s| && v + 1 < |t| && Chronological(t) && t[v + 1] == s[v] && s[v].kind == ClockIn
    requires v < j - 1 < |s| && o <= v + 1 < j < |t| && Closes(t, o, j) && t[j] == s[j - 1]
    ensures HasPlausibleOpposite(s, s[v])
  {
    InstantsFollowKeys(t);
    assert s[j - 1] in s;
  }

  /** An exit that lands before the clock-in does not close it: it stays open. */
  lemma EarlyExitLeavesOpen(s: seq<Punch>, v: nat, x: Punch, q: nat)
    requires LeftOpen(s, v) && q <= v < |s| && Chronological(Inserted(s, q, x))
    ensures Inserted(s, q, x)[v + 1] == s[v] && !PairedIn(Inserted(s, q, x), v + 1)
  {
    var t := Inserted(s, q, x);
    if PairedIn(t, v + 1) {
      var o: nat, j: nat :| o <= v + 1 < j && Closes(t, o, j);
      LaterExitIsPlausible(s, v, t, o, j);
    }
  }

  // ----- when an exit is missing -----

  ghost predicate LastOfDate(s: seq<Punch>, d: int, v: nat) {
    v < |s| && s[v].date == d && forall k :: v < k < |s| ==> s[k].date != d
  }

  /** The schedule's end has passed, and the date ends with a clock-in that no exit closes. */
  ghost predicate ExitIsMissing(s: seq<Punch>, d: int, v: nat, passed: bool) {
    passed && LastOfDate(s, d, v) && s[v].kind == ClockIn && !PairedIn(s, v)
  }

  /** A shift of the scheduled length, or of eight hours if that is longer, begun at this minute, ends
      before midnight. */
  ghost predicate EndsToday(minute: Option<int>, start: int, end: int) {
    minute.Some? && minute.value < end && minute.value + end - start < MINUTES_PER_DAY
    && minute.value + STANDARD_SHIFT_MINUTES < MINUTES_PER_DAY
  }

  lemma {:induction false} OnDateLast(s: seq<Punch>, d: int, v: nat)
    requires v < |s|
    ensures LastOfDate(s, d, v) ==> OnDate(s, d) != [] && OnDate(s, d)[|OnDate(s, d)| - 1] == s[v]
  {
    if v < |s| - 1 && LastOfDate(s, d, v) {
      assert s[..|s| - 1][v] == s[v];
      OnDateLast(s[..|s| - 1], d, v);
    }
  }

  /** The last punch of a date gets the exception exactly if its exit is missing.  The exit at the
      scheduled end is offered exactly if, in addition, no exit is plausible for the clock-in, it was not
      made after that end, and the shift must have ended: it ends before midnight, or began more than
      16 hours ago. */
  lemma MissingExitMeans(
    s: seq<Punch>, r: Pairing, d: int, v: nat, minute: Option<int>, start: int, end: int, passed: bool, now: Punch)
    requires IsPairingOf(r, s) && LastOfDate(s, d, v)
    ensures var advice := MissingExitAdvice(r, OnDate(s, d), minute, start, end, passed, now);
            && (advice != NoException <==> ExitIsMissing(s, d, v, passed))
            && (advice == AddExit <==>
                  && ExitIsMissing(s, d, v, passed) && !HasPlausibleOpposite(s, s[v])
                  && (minute.Some? ==> minute.value < end)
                  && (EndsToday(minute, start, end) || !IsPlausibleShift(s[v], now)))
  {
    OnDateLast(s, d, v);
    PairingMeans(r, s, v);
  }

  /** Nothing is missing on a date without punches. */
  lemma EmptyDateMissesNothing(
    s: seq<Punch>, r: Pairing, d: int, minute: Option<int>, start: int, end: int, passed: bool, now: Punch)
    requires forall k :: 0 <= k < |s| ==> s[k].date != d
    ensures MissingExitAdvice(r, OnDate(s, d), minute, start, end, passed, now) == NoException
  {
    NothingOnDate(s, d);
  }

  /** What the program offers is an exit in the sense of the results above. */
  lemma AdviceIsOffer(
    r: Pairing, s: seq<Punch>, d: int, minute: Option<int>, start: int, end: int, passed: bool, now: Punch)
    requires MissingExitAdvice(r, OnDate(s, d), minute, start, end, passed, now) == AddExit
    ensures OffersExit(r, s, d, OnDate(s, d)[|OnDate(s, d)| - 1])
  {
  }
}
