/** The one-tap void of a scan never disturbs another punch. */
module ShiftVoids {
  import opened Events
  import opened FactoryZone
  import opened ShiftPairing
  import opened ShiftProperties

  datatype Advice = Silent | ReviewOnly | VoidEvent

  function OnDate(s: seq<Punch>, d: int): seq<Punch> {
    if s == [] then []
    else if s[|s| - 1].date == d then OnDate(s[..|s| - 1], d) + [s[|s| - 1]]
    else OnDate(s[..|s| - 1], d)
  }

  /** The scan-sequence rule for the punch at `index` among the day's punches. */
  function ScanAdvice(r: Pairing, day: seq<Punch>, index: nat, d: int): Advice
    requires index < |day|
  {
    var event := day[index];
    var repeated := event in r.repeated;
    var firstEventIsOut := index == 0 && event.kind == ClockOut && event !in r.pairedOuts;
    var overlong := event in r.overlongOuts;
    if !repeated && !firstEventIsOut && !overlong then Silent
    else if overlong || event in r.plausible then ReviewOnly
    else if repeated && r.repeated[event].date != d then ReviewOnly
    else if !event.raw then ReviewOnly
    else VoidEvent
  }

  /** The punch is the day's `index`-th, and its removal is offered. */
  ghost predicate OffersVoid(r: Pairing, s: seq<Punch>, d: int, index: nat, p: Punch) {
    index < |OnDate(s, d)| && OnDate(s, d)[index] == p && ScanAdvice(r, OnDate(s, d), index, d) == VoidEvent
  }

  // ----- what the advice means -----

  ghost predicate FirstOfDate(s: seq<Punch>, d: int, v: nat) {
    v < |s| && s[v].date == d && forall k :: 0 <= k < v ==> s[k].date != d
  }

  /** What calls for a scan-sequence exception: a repeated scan, an overlong exit, or an unpaired exit
      as the date's first punch. */
  ghost predicate CallsForReview(s: seq<Punch>, d: int, v: nat) {
    v < |s| &&
    (RepeatedAt(s, v) || OverlongOut(s, v) || (FirstOfDate(s, d, v) && s[v].kind == ClockOut && !PairedOut(s, v)))
  }

  lemma {:induction false} FirstOnDate(s: seq<Punch>, d: int, v: nat)
    requires FirstOfDate(s, d, v)
    ensures OnDate(s, d) != [] && OnDate(s, d)[0] == s[v]
  {
    var last := |s| - 1;
    if v < last {
      assert s[..last][v] == s[v];
      FirstOnDate(s[..last], d, v);
    } else {
      NothingOnDate(s[..last], d);
    }
  }

  lemma {:induction false} NothingOnDate(s: seq<Punch>, d: int)
    requires forall k :: 0 <= k < |s| ==> s[k].date != d
    ensures OnDate(s, d) == []
  {
    if s != [] {
      NothingOnDate(s[..|s| - 1], d);
    }
  }

  /** Every punch of the date is among the date's punches, in the order of the history. */
  lemma {:induction false} OnDateHasPlace(s: seq<Punch>, d: int, v: nat) returns (index: nat)
    requires v < |s| && s[v].date == d
    ensures index < |OnDate(s, d)| && OnDate(s, d)[index] == s[v]
  {
    var last := |s| - 1;
    if v < last {
      assert s[..last][v] == s[v];
      index := OnDateHasPlace(s[..last], d, v);
    } else {
      index := |OnDate(s[..last], d)|;
    }
  }

  lemma {:induction false} OnDateDistinct(s: seq<Punch>, d: int)
    requires Distinct(s)
    ensures Distinct(OnDate(s, d))
  {
    if s != [] {
      var front := s[..|s| - 1];
      OnDateDistinct(front, d);
      forall i: nat | i < |OnDate(front, d)| ensures OnDate(front, d)[i] != s[|s| - 1] {
        OnDateMembers(front, d, i);
      }
    }
  }

  lemma FirstHasFirstPlace(s: seq<Punch>, d: int, index: nat, v: nat)
    requires Distinct(s) && v < |s| && index < |OnDate(s, d)| && OnDate(s, d)[index] == s[v]
    ensures index == 0 <==> FirstOfDate(s, d, v)
  {
    OnDateMembers(s, d, index);
    OnDateDistinct(s, d);
    if FirstOfDate(s, d, v) {
      FirstOnDate(s, d, v);
    } else {
      var k := FirstIndex(s, d, v);
      FirstOnDate(s, d, k);
    }
  }

  lemma {:induction false} FirstIndex(s: seq<Punch>, d: int, v: nat) returns (k: nat)
    requires v < |s| && s[v].date == d
    ensures k <= v && FirstOfDate(s, d, k)
  {
    if FirstOfDate(s, d, v) {
      k := v;
    } else {
      var i: nat :| i < v && s[i].date == d;
      k := FirstIndex(s, d, i);
    }
  }

  /** The date's punch at `index` gets an exception exactly if the history calls for one, and its
      removal is offered exactly if it also is a scan, is not overlong, has no plausible opposite, and
      does not repeat a punch of another date. */
  lemma AdviceMeans(s: seq<Punch>, r: Pairing, d: int, index: nat, v: nat)
    requires Distinct(s) && IsPairingOf(r, s) && v < |s| && index < |OnDate(s, d)| && OnDate(s, d)[index] == s[v]
    ensures ScanAdvice(r, OnDate(s, d), index, d) != Silent <==> CallsForReview(s, d, v)
    ensures ScanAdvice(r, OnDate(s, d), index, d) == VoidEvent <==>
            CallsForReview(s, d, v) && s[v].raw && !OverlongOut(s, v) && !HasPlausibleOpposite(s, s[v])
            && (RepeatedAt(s, v) ==> s[v - 1].date == d)
  {
    PairingMeans(r, s, v);
    FirstHasFirstPlace(s, d, index, v);
  }

  function Without(s: seq<Punch>, v: nat): seq<Punch>
    requires v < |s|
  {
    s[..v] + s[v + 1..]
  }

  /** Where position `k` of the shortened history was before punch `v` was removed. */
  function OriginOf(k: nat, v: nat): nat {
    if k < v then k else k + 1
  }

  /** `v` is neither the first clock-in of a run nor the exit of one. */
  ghost predicate Loose(s: seq<Punch>, v: nat) {
    && v < |s|
    && if s[v].kind == ClockIn then v > 0 && s[v - 1].kind == ClockIn && s[v - 1].date == s[v].date
       else v == 0 || s[v - 1].kind == ClockOut
  }

  lemma EntryRunWithout(s: seq<Punch>, v: nat, o: nat, j: nat)
    requires Loose(s, v) && o < j <= |s| - 1
    ensures EntryRun(Without(s, v), o, j) <==> EntryRun(s, OriginOf(o, v), OriginOf(j, v))
  {
    var t := Without(s, v);
    assert forall k :: 0 <= k < |t| ==> t[k] == s[OriginOf(k, v)];
    if EntryRun(t, o, j) {
      forall k | OriginOf(o, v) <= k < OriginOf(j, v)
        ensures s[k].kind == ClockIn && s[k].date == s[OriginOf(o, v)].date
      {
        if k < v {
          assert t[k] == s[k];
        } else if k > v {
          assert t[k - 1] == s[k];
        } else {
          // The removed punch sits strictly inside, right behind position v - 1.
          assert o <= v - 1 < j && t[v - 1] == s[v - 1];
        }
      }
    }
  }

  lemma OpenRunWithout(s: seq<Punch>, v: nat, o: nat, j: nat)
    requires Loose(s, v) && o < j <= |s| - 1
    ensures OpenRun(Without(s, v), o, j) <==> OpenRun(s, OriginOf(o, v), OriginOf(j, v))
  {
    EntryRunWithout(s, v, o, j);
    if o > 0 {
      EntryRunWithout(s, v, o - 1, j);
      if o == v {
        // OriginOf(o) - 1 is the removed position itself.
        var e := OriginOf(j, v);
        if s[v].kind == ClockIn {
          assert EntryRun(s, v - 1, e) <==> EntryRun(s, v, e) by {
            if EntryRun(s, v, e) {
              assert s[v].kind == ClockIn;
            }
            if EntryRun(s, v - 1, e) {
              assert s[v].date == s[v - 1].date;
            }
          }
        } else {
          assert s[v - 1].kind == ClockOut;
          assert !EntryRun(s, v, e) && !EntryRun(s, v - 1, e);
        }
      }
    } else if v == 0 {
      assert s[0].kind == ClockOut;
    }
  }

  lemma NoRunStartsAt(s: seq<Punch>, v: nat, j: nat)
    requires Loose(s, v)
    ensures !OpenRun(s, v, j)
  {
    if EntryRun(s, v, j) {
      assert s[v].kind == ClockIn;
      assert EntryRun(s, v - 1, j);
    }
  }

  lemma ClosesWithout(s: seq<Punch>, v: nat, o: nat, j: nat)
    requires Loose(s, v) && o < j < |s| - 1
    ensures Closes(Without(s, v), o, j) <==> Closes(s, OriginOf(o, v), OriginOf(j, v))
  {
    OpenRunWithout(s, v, o, j);
    assert Without(s, v)[o] == s[OriginOf(o, v)] && Without(s, v)[j] == s[OriginOf(j, v)];
  }

  /** The position that `k`, which is not removed, has in the shortened history. */
  function After(k: nat, v: nat): (r: nat)
    requires k != v
    ensures OriginOf(r, v) == k
  {
    if k < v then k else k - 1
  }

  lemma PairedOutWithout(s: seq<Punch>, v: nat, k: nat)
    requires Loose(s, v) && k < |s| - 1
    ensures PairedOut(Without(s, v), k) <==> PairedOut(s, OriginOf(k, v))
  {
    if PairedOut(Without(s, v), k) {
      var o: nat :| Closes(Without(s, v), o, k);
      ClosesWithout(s, v, o, k);
    }
    if PairedOut(s, OriginOf(k, v)) {
      var o: nat :| Closes(s, o, OriginOf(k, v));
      NoRunStartsAt(s, v, OriginOf(k, v));
      ClosesWithout(s, v, After(o, v), k);
    }
  }

  lemma OverrunsWithout(s: seq<Punch>, v: nat, o: nat, j: nat)
    requires Loose(s, v) && o < j < |s| - 1
    ensures Overruns(Without(s, v), o, j) <==> Overruns(s, OriginOf(o, v), OriginOf(j, v))
  {
    OpenRunWithout(s, v, o, j);
    assert Without(s, v)[o] == s[OriginOf(o, v)] && Without(s, v)[j] == s[OriginOf(j, v)];
  }

  lemma OverlongWithout(s: seq<Punch>, v: nat, k: nat)
    requires Loose(s, v) && k < |s| - 1
    ensures OverlongOut(Without(s, v), k) <==> OverlongOut(s, OriginOf(k, v))
  {
    if OverlongOut(Without(s, v), k) {
      var o: nat :| Overruns(Without(s, v), o, k);
      OverrunsWithout(s, v, o, k);
    }
    if OverlongOut(s, OriginOf(k, v)) {
      var o: nat :| Overruns(s, o, OriginOf(k, v));
      NoRunStartsAt(s, v, OriginOf(k, v));
      OverrunsWithout(s, v, After(o, v), k);
    }
  }

  lemma PairedInWithout(s: seq<Punch>, v: nat, k: nat)
    requires Loose(s, v) && k < |s| - 1 && !PairedOut(s, v)
    ensures PairedIn(Without(s, v), k) <==> PairedIn(s, OriginOf(k, v))
  {
    if PairedIn(Without(s, v), k) {
      var o: nat, j: nat :| o <= k < j && Closes(Without(s, v), o, j);
      ClosesWithout(s, v, o, j);
    }
    if PairedIn(s, OriginOf(k, v)) {
      var o: nat, j: nat :| o <= OriginOf(k, v) < j && Closes(s, o, j);
      NoRunStartsAt(s, v, j);
      assert j != v;
      ClosesWithout(s, v, After(o, v), After(j, v));
    }
  }

  lemma OppositesWithout(s: seq<Punch>, v: nat, p: Punch)
    requires v < |s| && Distinct(s) && !HasPlausibleOpposite(s, s[v])
    requires p in Without(s, v)
    ensures HasPlausibleOpposite(Without(s, v), p) <==> HasPlausibleOpposite(s, p)
  {
    var t := Without(s, v);
    forall q ensures q in s <==> q in t || q == s[v] {
      if q in s {
        var k :| 0 <= k < |s| && s[k] == q;
        assert k < v ==> t[k] == q;
        assert k > v ==> t[k - 1] == q;
      }
    }
  }

  /** A punch that is offered a void is loose: it neither opens nor closes a run. */
  lemma OfferedIsLoose(s: seq<Punch>, r: Pairing, v: nat, d: int, index: nat)
    requires Chronological(s) && Distinct(s) && IsPairingOf(r, s) && v < |s|
    requires OffersVoid(r, s, d, index, s[v])
    ensures Loose(s, v) && !PairedOut(s, v) && !HasPlausibleOpposite(s, s[v])
  {
    PairingMeans(r, s, v);
    OnDateMembers(s, d, index);
    if PairedOut(s, v) {
      PairedIsPlausible(s, v);
    }
    if s[v].kind == ClockOut {
      OutAfterIn(s, v);
    }
  }

  /** A clock-out right behind a clock-in is paired or overlong. */
  lemma OutAfterIn(s: seq<Punch>, v: nat)
    requires Chronological(s) && v < |s| && s[v].kind == ClockOut
    ensures v > 0 && s[v - 1].kind == ClockIn ==> PairedOut(s, v) || OverlongOut(s, v)
  {
    if v > 0 && s[v - 1].kind == ClockIn {
      var o := RunBefore(s, v);
      InstantsFollowKeys(s);
      assert Closes(s, o, v) || Overruns(s, o, v);
    }
  }

  lemma {:induction false} OnDateMembers(s: seq<Punch>, d: int, index: nat)
    requires index < |OnDate(s, d)|
    ensures OnDate(s, d)[index].date == d && OnDate(s, d)[index] in s
  {
    if index < |OnDate(s[..|s| - 1], d)| {
      OnDateMembers(s[..|s| - 1], d, index);
    }
  }

  /** A clock-in right before `i` always leaves a run open. */
  lemma {:induction false} RunBefore(s: seq<Punch>, i: nat) returns (o: nat)
    requires 0 < i <= |s| && s[i - 1].kind == ClockIn
    ensures OpenRun(s, o, i)
  {
    if i == 1 || s[i - 2].kind == ClockOut || s[i - 2].date != s[i - 1].date {
      RunIsRestarted(s, i - 1);
      o := i - 1;
    } else {
      o := RunBefore(s, i - 1);
      assert s[o].date == s[i - 2].date;
      RunIsExtended(s, o, i - 1);
    }
  }

  /** Removing a loose punch changes nothing for the others. */
  lemma LooseIsInvisible(s: seq<Punch>, v: nat, k: nat)
    requires Loose(s, v) && Distinct(s) && k < |s| - 1
    requires !PairedOut(s, v) && !HasPlausibleOpposite(s, s[v])
    ensures var t := Without(s, v);
            && t[k] == s[OriginOf(k, v)]
            && (PairedIn(t, k) <==> PairedIn(s, OriginOf(k, v)))
            && (PairedOut(t, k) <==> PairedOut(s, OriginOf(k, v)))
            && (OverlongOut(t, k) <==> OverlongOut(s, OriginOf(k, v)))
            && (HasPlausibleOpposite(t, t[k]) <==> HasPlausibleOpposite(s, t[k]))
  {
    PairedOutWithout(s, v, k);
    OverlongWithout(s, v, k);
    PairedInWithout(s, v, k);
    OppositesWithout(s, v, Without(s, v)[k]);
  }

  /** Whenever a one-tap void is offered, removing that punch and pairing again leaves the
      judgement of every other punch as it was. */
  lemma VoidKeepsOtherPunches(
    s: seq<Punch>, v: nat, d: int, index: nat, before: Pairing, after: Pairing, k: nat)
    requires Chronological(s) && Distinct(s) && v < |s|
    requires IsPairingOf(before, s) && IsPairingOf(after, StableSort(Without(s, v)))
    requires OffersVoid(before, s, d, index, s[v])
    requires k < |s| - 1
    ensures var p := Without(s, v)[k];
            && (p in after.pairedIns <==> p in before.pairedIns)
            && (p in after.pairedOuts <==> p in before.pairedOuts)
            && (p in after.overlongOuts <==> p in before.overlongOuts)
            && (p in after.plausible <==> p in before.plausible)
  {
    StableSortOfOrdered(Without(s, v));
    OfferedIsLoose(s, before, v, d, index);
    LooseIsInvisible(s, v, k);
    PairingMeans(before, s, OriginOf(k, v));
    PairingMeans(after, Without(s, v), k);
  }

  // ----- a void offered from the three-date window -----

  /** An exit right behind an entry of at least two dates earlier, as the window cannot show it. */
  ghost predicate FarExit(s: seq<Punch>, v: nat) {
    && 0 < v < |s| && s[v].kind == ClockOut
    && s[v - 1].kind == ClockIn && s[v - 1].date + 2 <= s[v].date
  }

  lemma RunBeforeFar(s: seq<Punch>, v: nat, o: nat, j: nat)
    requires FarExit(s, v) && o < j <= v
    ensures EntryRun(Without(s, v), o, j) <==> EntryRun(s, o, j)
  {
    assert forall k :: o <= k < j ==> Without(s, v)[k] == s[k];
  }

  lemma RunBehindFar(s: seq<Punch>, v: nat, o: nat, j: nat)
    requires FarExit(s, v) && v <= o < j <= |s| - 1
    ensures EntryRun(Without(s, v), o, j) <==> EntryRun(s, o + 1, j + 1)
  {
    var t := Without(s, v);
    assert forall k :: o <= k < j ==> t[k] == s[k + 1];
    if EntryRun(t, o, j) {
      forall k | o + 1 <= k < j + 1 ensures s[k].kind == ClockIn && s[k].date == s[o + 1].date {
        assert t[k - 1] == s[k];
      }
    }
  }

  /** No run reaches across the exit, neither with it nor without it. */
  lemma NoRunAcrossFar(s: seq<Punch>, v: nat, o: nat, j: nat)
    requires FarExit(s, v) && DatesInOrder(s) && o <= v < j <= |s| - 1
    ensures !EntryRun(s, o, j + 1)
    ensures o < v ==> !EntryRun(Without(s, v), o, j)
  {
    var t := Without(s, v);
    assert t[v] == s[v + 1] && s[v].date <= s[v + 1].date;
    assert o < v ==> t[v - 1] == s[v - 1];
  }

  lemma OpenRunBeforeFar(s: seq<Punch>, v: nat, o: nat, j: nat)
    requires FarExit(s, v) && o < j <= v
    ensures OpenRun(Without(s, v), o, j) <==> OpenRun(s, o, j)
  {
    RunBeforeFar(s, v, o, j);
    if o > 0 {
      RunBeforeFar(s, v, o - 1, j);
    }
  }

  lemma OpenRunBehindFar(s: seq<Punch>, v: nat, o: nat, j: nat)
    requires FarExit(s, v) && DatesInOrder(s) && v <= o < j <= |s| - 1
    ensures OpenRun(Without(s, v), o, j) <==> OpenRun(s, o + 1, j + 1)
  {
    RunBehindFar(s, v, o, j);
    if o > v {
      RunBehindFar(s, v, o - 1, j);
    } else {
      NoRunAcrossFar(s, v, o - 1, j);
      NoRunAcrossFar(s, v, o, j);
    }
  }

  /** The exit behind the removed one is just as far from the entry. */
  lemma NextExitIsFar(zone: Zone, s: seq<Punch>, v: nat, o: nat)
    requires Regular(zone) && Dated(zone, s) && FarExit(s, v) && DatesInOrder(s) && o < v < |s| - 1
    ensures !Closes(Without(s, v), o, v) && !Closes(s, o, v + 1)
  {
    assert Without(s, v)[o] == s[o] && Without(s, v)[v] == s[v + 1];
    assert s[o].date <= s[v - 1].date && s[v].date <= s[v + 1].date;
    assert s[o] in s && s[v + 1] in s;
    FarDatesAreImplausible(zone, s[o], s[v + 1]);
  }

  lemma ClosesBeforeFar(s: seq<Punch>, v: nat, o: nat, j: nat)
    requires FarExit(s, v) && o < j < v
    ensures Closes(Without(s, v), o, j) <==> Closes(s, o, j)
  {
    assert Without(s, v)[o] == s[o] && Without(s, v)[j] == s[j];
    OpenRunBeforeFar(s, v, o, j);
  }

  lemma ClosesBehindFar(s: seq<Punch>, v: nat, o: nat, j: nat)
    requires FarExit(s, v) && DatesInOrder(s) && v <= o < j < |s| - 1
    ensures Closes(Without(s, v), o, j) <==> Closes(s, o + 1, j + 1)
  {
    assert Without(s, v)[o] == s[o + 1] && Without(s, v)[j] == s[j + 1];
    OpenRunBehindFar(s, v, o, j);
  }

  lemma FarClosesWithout(zone: Zone, s: seq<Punch>, v: nat, o: nat, j: nat)
    requires Regular(zone) && Dated(zone, s) && FarExit(s, v) && DatesInOrder(s) && o < j < |s| - 1
    ensures Closes(Without(s, v), o, j) <==> Closes(s, OriginOf(o, v), OriginOf(j, v))
  {
    if j < v {
      ClosesBeforeFar(s, v, o, j);
    } else if v <= o {
      ClosesBehindFar(s, v, o, j);
    } else if j == v {
      NextExitIsFar(zone, s, v, o);
    } else {
      NoRunAcrossFar(s, v, o, j);
    }
  }

  lemma FarOverrunsWithout(s: seq<Punch>, v: nat, o: nat, j: nat)
    requires FarExit(s, v) && DatesInOrder(s) && o < j < |s| - 1 && j != v
    ensures Overruns(Without(s, v), o, j) <==> Overruns(s, OriginOf(o, v), OriginOf(j, v))
  {
    assert Without(s, v)[o] == s[OriginOf(o, v)] && Without(s, v)[j] == s[OriginOf(j, v)];
    if j < v {
      OpenRunBeforeFar(s, v, o, j);
    } else if v <= o {
      OpenRunBehindFar(s, v, o, j);
    } else {
      NoRunAcrossFar(s, v, o, j);
    }
  }

  /** An exit right behind the far one takes its place, and becomes overlong itself. */
  ghost predicate TakesItsPlace(s: seq<Punch>, v: nat, k: nat) {
    FarExit(s, v) && k == v < |s| - 1 && s[v + 1].kind == ClockOut
  }

  lemma NextExitIsOverlong(zone: Zone, s: seq<Punch>, v: nat)
    requires Regular(zone) && Dated(zone, s) && Chronological(s) && DatesInOrder(s)
    requires FarExit(s, v) && v < |s| - 1
    ensures OverlongOut(Without(s, v), v) <==> s[v + 1].kind == ClockOut
    ensures !OverlongOut(s, v + 1)
  {
    var t := Without(s, v);
    assert t[v] == s[v + 1];
    if s[v + 1].kind == ClockOut {
      var o := RunBefore(s, v);
      OpenRunBeforeFar(s, v, o, v);
      NextExitIsFar(zone, s, v, o);
      InstantsFollowKeys(s);
      assert t[o] == s[o];
      assert Overruns(t, o, v);
    }
  }

  lemma FarOverlong(zone: Zone, s: seq<Punch>, v: nat, k: nat)
    requires Regular(zone) && Dated(zone, s) && Chronological(s) && DatesInOrder(s) && FarExit(s, v) && k < |s| - 1
    ensures OverlongOut(Without(s, v), k) <==> OverlongOut(s, OriginOf(k, v)) || TakesItsPlace(s, v, k)
    ensures TakesItsPlace(s, v, k) ==> !OverlongOut(s, OriginOf(k, v))
  {
    if k == v {
      NextExitIsOverlong(zone, s, v);
    } else {
      if OverlongOut(Without(s, v), k) {
        var o: nat :| Overruns(Without(s, v), o, k);
        FarOverrunsWithout(s, v, o, k);
      }
      if OverlongOut(s, OriginOf(k, v)) {
        var o: nat :| Overruns(s, o, OriginOf(k, v));
        NoFarRun(s, v, OriginOf(k, v));
        FarOverrunsWithout(s, v, After(o, v), k);
      }
    }
  }

  lemma NoFarRun(s: seq<Punch>, v: nat, j: nat)
    requires FarExit(s, v)
    ensures !OpenRun(s, v, j)
  {
  }

  lemma FarPairedOut(zone: Zone, s: seq<Punch>, v: nat, k: nat)
    requires Regular(zone) && Dated(zone, s) && FarExit(s, v) && DatesInOrder(s) && k < |s| - 1
    ensures PairedOut(Without(s, v), k) <==> PairedOut(s, OriginOf(k, v))
  {
    if PairedOut(Without(s, v), k) {
      var o: nat :| Closes(Without(s, v), o, k);
      FarClosesWithout(zone, s, v, o, k);
    }
    if PairedOut(s, OriginOf(k, v)) {
      var o: nat :| Closes(s, o, OriginOf(k, v));
      NoFarRun(s, v, OriginOf(k, v));
      FarClosesWithout(zone, s, v, After(o, v), k);
    }
  }

  lemma FarPairedIn(zone: Zone, s: seq<Punch>, v: nat, k: nat)
    requires Regular(zone) && Dated(zone, s) && FarExit(s, v) && DatesInOrder(s) && k < |s| - 1 && !PairedOut(s, v)
    ensures PairedIn(Without(s, v), k) <==> PairedIn(s, OriginOf(k, v))
  {
    if PairedIn(Without(s, v), k) {
      FarPairedInWas(zone, s, v, k);
    }
    if PairedIn(s, OriginOf(k, v)) {
      FarPairedInStays(zone, s, v, k);
    }
  }

  lemma FarPairedInWas(zone: Zone, s: seq<Punch>, v: nat, k: nat)
    requires Regular(zone) && Dated(zone, s) && FarExit(s, v) && DatesInOrder(s) && k < |s| - 1
    requires PairedIn(Without(s, v), k)
    ensures PairedIn(s, OriginOf(k, v))
  {
    var o: nat, j: nat :| o <= k < j && Closes(Without(s, v), o, j);
    FarClosesWithout(zone, s, v, o, j);
    assert OriginOf(o, v) <= OriginOf(k, v) < OriginOf(j, v);
  }

  lemma FarPairedInStays(zone: Zone, s: seq<Punch>, v: nat, k: nat)
    requires Regular(zone) && Dated(zone, s) && FarExit(s, v) && DatesInOrder(s) && k < |s| - 1 && !PairedOut(s, v)
    requires PairedIn(s, OriginOf(k, v))
    ensures PairedIn(Without(s, v), k)
  {
    var o: nat, j: nat :| o <= OriginOf(k, v) < j && Closes(s, o, j);
    NoFarRun(s, v, j);
    assert j != v;
    assert After(o, v) <= k < After(j, v);
    FarClosesWithout(zone, s, v, After(o, v), After(j, v));
  }

  /** Whether the punch closes a shift, and whether it could close or open one. */
  ghost function Ties(s: seq<Punch>, v: nat): (bool, bool)
    requires v < |s|
  {
    (PairedOut(s, v), HasPlausibleOpposite(s, s[v]))
  }

  /** A punch that is loose in the window is loose in the history, or a far exit. */
  lemma LooseInWindow(s: seq<Punch>, d: int, a: nat, b: nat, v: nat)
    requires IsWindow(s, d, a, b) && a <= v < b && s[v].date == d && Loose(s[a..b], v - a)
    ensures Loose(s, v) || FarExit(s, v)
  {
    assert s[a..b][v - a] == s[v];
    assert v > a ==> s[a..b][v - a - 1] == s[v - 1];
  }

  lemma SliceTies(zone: Zone, s: seq<Punch>, v: nat, d: int, a: nat, b: nat)
    requires Regular(zone) && Dated(zone, s) && DatesInOrder(s) && IsWindow(s, d, a, b)
    requires a <= v < b && s[v].date == d
    ensures Ties(s, v) == Ties(s[a..b], v - a)
  {
    assert s[a..b][v - a] == s[v];
    PairedOutInWindow(zone, s, d, a, b, v);
    PlausibleInWindow(zone, s, d, a, b, s[v]);
  }

  lemma OfferInWindow(w: seq<Punch>, windowed: Pairing, i: nat, d: int, index: nat)
    requires Distinct(w) && Chronological(w) && i < |w|
    requires IsPairingOf(windowed, w) && OffersVoid(windowed, w, d, index, w[i])
    ensures Loose(w, i) && Ties(w, i) == (false, false)
  {
    OfferedIsLoose(w, windowed, i, d, index);
  }

  lemma SliceIsDistinct(s: seq<Punch>, a: nat, b: nat)
    requires a <= b <= |s| && Distinct(s) && Chronological(s)
    ensures Distinct(s[a..b]) && Chronological(s[a..b])
  {
  }

  /** A void offered from the window is of a punch that is loose in the window. */
  lemma OfferInSlice(s: seq<Punch>, v: nat, d: int, index: nat, windowed: Pairing, a: nat, b: nat)
    requires Chronological(s) && Distinct(s) && a <= v < b <= |s|
    requires IsPairingOf(windowed, s[a..b]) && OffersVoid(windowed, s[a..b], d, index, s[v])
    ensures Loose(s[a..b], v - a) && Ties(s[a..b], v - a) == (false, false)
  {
    SliceIsDistinct(s, a, b);
    assert s[a..b][v - a] == s[v];
    OfferInWindow(s[a..b], windowed, v - a, d, index);
  }

  lemma LooseOrFarIsInvisible(zone: Zone, s: seq<Punch>, v: nat, k: nat)
    requires Regular(zone) && Dated(zone, s) && DatesInOrder(s) && Distinct(s) && v < |s| && k < |s| - 1
    requires (Loose(s, v) || FarExit(s, v)) && Ties(s, v) == (false, false)
    ensures PairedIn(Without(s, v), k) <==> PairedIn(s, OriginOf(k, v))
    ensures PairedOut(Without(s, v), k) <==> PairedOut(s, OriginOf(k, v))
    ensures var p := Without(s, v)[k]; HasPlausibleOpposite(Without(s, v), p) <==> HasPlausibleOpposite(s, p)
  {
    OppositesWithout(s, v, Without(s, v)[k]);
    if Loose(s, v) {
      LooseIsInvisible(s, v, k);
    } else {
      FarPairedOut(zone, s, v, k);
      FarPairedIn(zone, s, v, k);
    }
  }

  lemma LooseOrFarOverlong(zone: Zone, s: seq<Punch>, v: nat, k: nat)
    requires Regular(zone) && Dated(zone, s) && Chronological(s) && DatesInOrder(s) && v < |s| && k < |s| - 1
    requires Loose(s, v) || FarExit(s, v)
    ensures OverlongOut(Without(s, v), k) <==> OverlongOut(s, OriginOf(k, v)) || TakesItsPlace(s, v, k)
    ensures TakesItsPlace(s, v, k) ==> !OverlongOut(s, OriginOf(k, v))
  {
    if Loose(s, v) {
      OverlongWithout(s, v, k);
    } else {
      FarOverlong(zone, s, v, k);
    }
  }

  /** A void offered from the three-date window, the slice from `a` to `b` of the worker's whole
      history, also leaves the pairing of that history alone: every other punch stays paired, or
      unpaired, as it was.  A punch changes between overlong and not exactly if it is an exit right
      behind a far exit that is removed: it then becomes overlong in its place. */
  lemma WindowedVoidKeepsHistory(
    zone: Zone, s: seq<Punch>, v: nat, d: int, index: nat, windowed: Pairing, a: nat, b: nat, k: nat)
    requires Regular(zone) && Dated(zone, s) && Chronological(s) && Distinct(s)
    requires IsWindow(s, d, a, b) && a <= v < b && s[v].date == d && k < |s| - 1
    requires IsPairingOf(windowed, s[a..b]) && OffersVoid(windowed, s[a..b], d, index, s[v])
    ensures PairedIn(Without(s, v), k) <==> PairedIn(s, OriginOf(k, v))
    ensures PairedOut(Without(s, v), k) <==> PairedOut(s, OriginOf(k, v))
    ensures var p := Without(s, v)[k]; HasPlausibleOpposite(Without(s, v), p) <==> HasPlausibleOpposite(s, p)
    ensures OverlongOut(Without(s, v), k) <==> OverlongOut(s, OriginOf(k, v)) || TakesItsPlace(s, v, k)
    ensures TakesItsPlace(s, v, k) ==> !OverlongOut(s, OriginOf(k, v))
  {
    DatesFollowInstants(zone, s);
    OfferInSlice(s, v, d, index, windowed, a, b);
    SliceTies(zone, s, v, d, a, b);
    LooseInWindow(s, d, a, b, v);
    LooseOrFarIsInvisible(zone, s, v, k);
    LooseOrFarOverlong(zone, s, v, k);
  }

  /** Such a void can be offered: an entry, and two exits two dates later. */
  lemma VoidCanMakeOverlong() returns (s: seq<Punch>, windowed: Pairing)
    ensures Regular(Universal()) && Dated(Universal(), s) && Chronological(s) && Distinct(s) && IsWindow(s, 2, 1, 3)
    ensures IsPairingOf(windowed, s[1..3]) && OffersVoid(windowed, s[1..3], 2, 0, s[1])
    ensures TakesItsPlace(s, 1, 1) && OverlongOut(Without(s, 1), 1) && !OverlongOut(s, 2)
  {
    s := FarHistory();
    DatesFollowInstants(Universal(), s);
    windowed := TwoExits(s[1], s[2], s[1..3]);
    NextExitIsOverlong(Universal(), s, 1);
  }

  lemma FarHistory() returns (s: seq<Punch>)
    ensures Regular(Universal()) && Dated(Universal(), s) && Chronological(s) && Distinct(s) && IsWindow(s, 2, 1, 3)
    ensures |s| == 3 && TakesItsPlace(s, 1, 1) && s[1].date == s[2].date == 2 && s[1].raw
  {
    s := [Punch(0, ClockIn, 0.0, 0, true), Punch(1, ClockOut, 200_000_000.0, 2, true),
          Punch(2, ClockOut, 200_001_000.0, 2, true)];
    assert s[0].Instant() == 0 && s[1].Instant() == 200_000_000 && s[2].Instant() == 200_001_000;
    ThreePunchesAreDated(s);
    ThreePunchesAreFar(s);
    UniversalIsRegular();
  }

  lemma ThreePunchesAreFar(s: seq<Punch>)
    requires |s| == 3 && s[0].key < s[1].key < s[2].key && s[0].date == 0 && s[1].date == s[2].date == 2
    requires s[0].kind == ClockIn && s[1].kind == s[2].kind == ClockOut
    ensures Chronological(s) && Distinct(s) && IsWindow(s, 2, 1, 3) && TakesItsPlace(s, 1, 1)
  {
  }

  lemma UniversalDate(ms: int, day: int)
    requires day * 86_400_000 <= ms < day * 86_400_000 + 86_400_000
    ensures DateOf(Universal(), ms / 1_000) == day
  {
    assert day * 86_400 <= ms / 1_000 < day * 86_400 + 86_400;
  }

  lemma ThreePunchesAreDated(s: seq<Punch>)
    requires |s| == 3 && s[0].Instant() == 0 && s[1].Instant() == 200_000_000 && s[2].Instant() == 200_001_000
    requires s[0].date == 0 && s[1].date == s[2].date == 2
    ensures Dated(Universal(), s)
  {
    UniversalDate(s[0].Instant(), 0);
    UniversalDate(s[1].Instant(), 2);
    UniversalDate(s[2].Instant(), 2);
  }

  lemma TwoExits(first: Punch, second: Punch, w: seq<Punch>) returns (r: Pairing)
    requires w == [first, second] && first.kind == second.kind == ClockOut && first != second
    requires first.date == second.date && first.raw
    ensures IsPairingOf(r, w) && OffersVoid(r, w, first.date, 0, first)
  {
    r := Pairing({}, {}, {}, map[second := first], {});
    assert w[..1] == [first] && w[..1][..0] == [];
    assert OnDate(w[..1], first.date) == [first];
    assert OnDate(w, first.date) == [first] + [second];
    assert forall p :: p in w ==> !HasPlausibleOpposite(w, p);
    assert forall o: nat, j: nat :: !EntryRun(w, o, j);
  }
}
