/** Shift inference: which clock-ins and clock-outs of one worker close a shift.

    The declarative part says what the results mean; `PairShiftEvents` is the single-pass
    automaton together with the two linear sweeps, proved to compute exactly that. */
module ShiftPairing {
  import opened Events

  const MAX_SHIFT_MS := 16 * 3_600_000

  /** `key` is the exact instant in milliseconds, `date` the factory date of the punch.
      A punch that is not `raw` was added by a supervisor correction. */
  datatype Punch = Punch(id: nat, kind: EventType, key: real, date: int, raw: bool) {
    /** Instants are compared after truncation to whole milliseconds. */
    function Instant(): int {
      key.Floor
    }
  }

  datatype Pairing = Pairing(
    pairedIns: set<Punch>,
    pairedOuts: set<Punch>,
    overlongOuts: set<Punch>,
    repeated: map<Punch, Punch>,
    plausible: set<Punch>)

  predicate IsPlausibleShift(start: Punch, end: Punch) {
    0 <= end.Instant() - start.Instant() <= MAX_SHIFT_MS
  }

  ghost predicate Chronological(s: seq<Punch>) {
    forall i, j :: 0 <= i < j < |s| ==> s[i].key <= s[j].key
  }

  ghost predicate Distinct(s: seq<Punch>) {
    forall i, j :: 0 <= i < j < |s| ==> s[i] != s[j]
  }

  // ----- the chronological order -----

  /** Insert behind every punch that is not later, as a stable sort does. */
  function InsertByKey(s: seq<Punch>, p: Punch): seq<Punch> {
    if s == [] || s[|s| - 1].key <= p.key then s + [p]
    else InsertByKey(s[..|s| - 1], p) + [s[|s| - 1]]
  }

  function StableSort(s: seq<Punch>): seq<Punch> {
    if s == [] then [] else InsertByKey(StableSort(s[..|s| - 1]), s[|s| - 1])
  }

  lemma AppendKeepsOrder(init: seq<Punch>, p: Punch, last: Punch, r: seq<Punch>)
    requires Chronological(init + [last]) && p.key < last.key
    requires Chronological(r) && multiset(r) == multiset(init) + multiset{p}
    ensures Chronological(r + [last])
  {
    forall i | 0 <= i < |r| ensures r[i].key <= last.key {
      assert r[i] in multiset(r);
      if r[i] in multiset(init) {
        var k :| 0 <= k < |init| && init[k] == r[i];
        assert (init + [last])[k] == r[i] && (init + [last])[|init|] == last;
      }
    }
  }

  lemma {:induction false} InsertByKeyKeepsOrder(s: seq<Punch>, p: Punch)
    requires Chronological(s)
    ensures Chronological(InsertByKey(s, p))
    ensures multiset(InsertByKey(s, p)) == multiset(s) + multiset{p}
  {
    if s != [] && p.key < s[|s| - 1].key {
      var init, last := s[..|s| - 1], s[|s| - 1];
      assert s == init + [last];
      InsertByKeyKeepsOrder(init, p);
      AppendKeepsOrder(init, p, last, InsertByKey(init, p));
    }
  }

  /** The sort orders the punches and neither loses nor invents one. */
  lemma {:induction false} StableSortOrders(s: seq<Punch>)
    ensures Chronological(StableSort(s))
    ensures multiset(StableSort(s)) == multiset(s)
  {
    if s != [] {
      var init, last := s[..|s| - 1], s[|s| - 1];
      assert s == init + [last];
      StableSortOrders(init);
      InsertByKeyKeepsOrder(StableSort(init), last);
    }
  }

  /** Punches already in order stay as they are, ties included. */
  lemma {:induction false} StableSortOfOrdered(s: seq<Punch>)
    requires Chronological(s)
    ensures StableSort(s) == s
  {
    if s != [] {
      var init, last := s[..|s| - 1], s[|s| - 1];
      assert s == init + [last];
      StableSortOfOrdered(init);
      if init != [] {
        assert init[|init| - 1].key <= last.key;
      }
    }
  }

  lemma {:induction false} DistinctHasNoCopies(s: seq<Punch>)
    ensures Distinct(s) <==> forall p :: p in s ==> multiset(s)[p] == 1
  {
    if s != [] {
      var init, last := s[..|s| - 1], s[|s| - 1];
      assert s == init + [last];
      DistinctHasNoCopies(init);
      if Distinct(s) {
        assert last !in init;
      } else if last !in init {
        assert !Distinct(init);
        var p :| p in init && multiset(init)[p] != 1;
        assert multiset(s)[p] != 1;
      } else {
        assert multiset(s)[last] != 1;
      }
    }
  }

  lemma SortKeepsDistinct(s: seq<Punch>, t: seq<Punch>)
    requires Distinct(s) && multiset(s) == multiset(t)
    ensures Distinct(t)
  {
    DistinctHasNoCopies(s);
    DistinctHasNoCopies(t);
    forall p | p in t ensures multiset(t)[p] == 1 {
      assert p in multiset(s);
    }
  }

  lemma InstantsFollowKeys(s: seq<Punch>)
    requires Chronological(s)
    ensures forall i, j :: 0 <= i <= j < |s| ==> s[i].Instant() <= s[j].Instant()
  {
  }

  // ----- what the results mean -----

  /** Clock-ins of one date, with nothing in between, from position `o` up to `j`. */
  ghost predicate EntryRun(s: seq<Punch>, o: nat, j: nat) {
    o < j <= |s| && forall k :: o <= k < j ==> s[k].kind == ClockIn && s[k].date == s[o].date
  }

  /** The longest such run that ends just before `j`. */
  ghost predicate OpenRun(s: seq<Punch>, o: nat, j: nat) {
    EntryRun(s, o, j) && (o == 0 || !EntryRun(s, o - 1, j))
  }

  /** The clock-out at `j` closes the run that starts at `o`. */
  ghost predicate Closes(s: seq<Punch>, o: nat, j: nat) {
    j < |s| && s[j].kind == ClockOut && OpenRun(s, o, j) && IsPlausibleShift(s[o], s[j])
  }

  ghost predicate PairedIn(s: seq<Punch>, k: nat) {
    exists o: nat, j: nat :: o <= k < j && Closes(s, o, j)
  }

  ghost predicate PairedOut(s: seq<Punch>, j: nat) {
    exists o: nat :: Closes(s, o, j)
  }

  /** The clock-out at `j` comes too long after the run that starts at `o`. */
  ghost predicate Overruns(s: seq<Punch>, o: nat, j: nat) {
    j < |s| && s[j].kind == ClockOut && OpenRun(s, o, j) && s[j].Instant() - s[o].Instant() > MAX_SHIFT_MS
  }

  ghost predicate OverlongOut(s: seq<Punch>, j: nat) {
    exists o: nat :: Overruns(s, o, j)
  }

  ghost predicate RepeatedAt(s: seq<Punch>, i: nat) {
    0 < i < |s| && s[i].kind == s[i - 1].kind
  }

  ghost predicate HasPlausibleOpposite(s: seq<Punch>, p: Punch) {
    if p.kind == ClockIn then exists q :: q in s && q.kind == ClockOut && IsPlausibleShift(p, q)
    else exists q :: q in s && q.kind == ClockIn && IsPlausibleShift(q, p)
  }

  // Each result, as filled in by the events before position `i`.

  ghost predicate InsUpTo(s: seq<Punch>, i: nat, r: set<Punch>) {
    forall k {:trigger s[k] in r} :: 0 <= k < |s| ==> (s[k] in r <==> PairedInBefore(s, k, i))
  }

  ghost predicate OutsUpTo(s: seq<Punch>, i: nat, r: set<Punch>) {
    forall k {:trigger s[k] in r} :: 0 <= k < |s| ==> (s[k] in r <==> k < i && PairedOut(s, k))
  }

  ghost predicate OverlongUpTo(s: seq<Punch>, i: nat, r: set<Punch>) {
    forall k {:trigger s[k] in r} :: 0 <= k < |s| ==> (s[k] in r <==> k < i && OverlongOut(s, k))
  }

  ghost predicate RepeatedUpTo(s: seq<Punch>, i: nat, r: map<Punch, Punch>) {
    && (forall k {:trigger s[k] in r} :: 0 <= k < |s| ==> (s[k] in r <==> k < i && RepeatedAt(s, k)))
    && (forall k {:trigger r[s[k]]} :: 0 < k < |s| && s[k] in r ==> r[s[k]] == s[k - 1])
  }

  ghost predicate PlausibleIn(s: seq<Punch>, r: set<Punch>) {
    forall p {:trigger p in r} :: p in s ==> (p in r <==> HasPlausibleOpposite(s, p))
  }

  ghost predicate IsPairingOf(r: Pairing, s: seq<Punch>) {
    && InsUpTo(s, |s|, r.pairedIns)
    && OutsUpTo(s, |s|, r.pairedOuts)
    && OverlongUpTo(s, |s|, r.overlongOuts)
    && RepeatedUpTo(s, |s|, r.repeated)
    && PlausibleIn(s, r.plausible)
  }

  /** A shift closed by a clock-out before position `i`. */
  ghost predicate PairedInBefore(s: seq<Punch>, k: nat, i: nat) {
    exists o: nat, j: nat :: o <= k < j < i && Closes(s, o, j)
  }

  /** The results, read punch by punch. */
  lemma PairingMeans(r: Pairing, s: seq<Punch>, k: nat)
    requires IsPairingOf(r, s) && k < |s|
    ensures s[k] in r.pairedIns <==> PairedIn(s, k)
    ensures s[k] in r.pairedOuts <==> PairedOut(s, k)
    ensures s[k] in r.overlongOuts <==> OverlongOut(s, k)
    ensures s[k] in r.repeated <==> RepeatedAt(s, k)
    ensures RepeatedAt(s, k) ==> r.repeated[s[k]] == s[k - 1]
    ensures s[k] in r.plausible <==> HasPlausibleOpposite(s, s[k])
  {
    if PairedIn(s, k) {
      var o: nat, j: nat :| o <= k < j && Closes(s, o, j);
      assert PairedInBefore(s, k, |s|);
    }
    assert s[k] in s;
  }

  lemma RunStartIsUnique(s: seq<Punch>, o: nat, p: nat, j: nat)
    requires OpenRun(s, o, j) && OpenRun(s, p, j)
    ensures o == p
  {
    if o < p {
      assert EntryRun(s, p - 1, j) by {
        assert s[p - 1].date == s[o].date && s[p].date == s[o].date;
      }
    } else if p < o {
      assert EntryRun(s, o - 1, j) by {
        assert s[o - 1].date == s[p].date && s[o].date == s[p].date;
      }
    }
  }

  lemma RunIsExtended(s: seq<Punch>, o: nat, i: nat)
    requires i < |s| && s[i].kind == ClockIn
    requires OpenRun(s, o, i) && s[o].date == s[i].date
    ensures OpenRun(s, o, i + 1)
  {
    if o > 0 && EntryRun(s, o - 1, i + 1) {
      assert s[o - 1].kind == ClockIn && s[o - 1].date == s[o].date;
      assert EntryRun(s, o - 1, i);
    }
  }

  lemma RunIsRestarted(s: seq<Punch>, i: nat)
    requires i < |s| && s[i].kind == ClockIn
    requires i == 0 || s[i - 1].kind == ClockOut || s[i - 1].date != s[i].date
    ensures OpenRun(s, i, i + 1)
  {
    assert i == 0 || s[i - 1].kind != s[i].kind || s[i - 1].date != s[i].date;
  }

  // ----- the sweeps -----

  function OfKind(s: seq<Punch>, kind: EventType): (r: seq<Punch>)
    ensures forall p :: p in r <==> p in s && p.kind == kind
  {
    if s == [] then []
    else if s[|s| - 1].kind == kind then OfKind(s[..|s| - 1], kind) + [s[|s| - 1]]
    else OfKind(s[..|s| - 1], kind)
  }

  lemma {:induction false} OfKindKeepsOrder(s: seq<Punch>, kind: EventType)
    requires Chronological(s)
    ensures Chronological(OfKind(s, kind))
  {
    if s != [] {
      OfKindKeepsOrder(s[..|s| - 1], kind);
      var r := OfKind(s[..|s| - 1], kind);
      forall p | p in r ensures p.key <= s[|s| - 1].key {
        assert p in s[..|s| - 1];
      }
    }
  }

  /** Find every clock-in with a plausible exit, moving one index forward over the exits. */
  method SweepIns(ins: seq<Punch>, outs: seq<Punch>) returns (found: set<Punch>)
    requires Chronological(ins) && Chronological(outs)
    ensures forall p :: p in found <==> p in ins && exists q :: q in outs && IsPlausibleShift(p, q)
  {
    InstantsFollowKeys(ins);
    InstantsFollowKeys(outs);
    found := {};
    var nextOut := 0;
    for i := 0 to |ins|
      invariant 0 <= nextOut <= |outs|
      invariant i == 0 ==> nextOut == 0
      invariant i > 0 ==> forall k :: 0 <= k < nextOut ==> outs[k].Instant() < ins[i - 1].Instant()
      invariant forall p :: p in found <==> p in ins[..i] && exists q :: q in outs && IsPlausibleShift(p, q)
    {
      var start := ins[i];
      assert ins[..i + 1] == ins[..i] + [start];
      assert i > 0 ==> ins[i - 1].Instant() <= start.Instant();
      while nextOut < |outs| && outs[nextOut].Instant() < start.Instant()
        invariant 0 <= nextOut <= |outs|
        invariant forall k :: 0 <= k < nextOut ==> outs[k].Instant() < start.Instant()
      {
        nextOut := nextOut + 1;
      }
      if nextOut < |outs| && IsPlausibleShift(start, outs[nextOut]) {
        assert outs[nextOut] in outs;
        found := found + {start};
      } else {
        forall q | q in outs ensures !IsPlausibleShift(start, q) {
          var k :| 0 <= k < |outs| && outs[k] == q;
        }
      }
    }
    assert ins[..|ins|] == ins;
  }

  /** Find every clock-out with a plausible entry, moving one index backward over the entries. */
  method SweepOuts(ins: seq<Punch>, outs: seq<Punch>) returns (found: set<Punch>)
    requires Chronological(ins) && Chronological(outs)
    ensures forall q :: q in found <==> q in outs && exists p :: p in ins && IsPlausibleShift(p, q)
  {
    InstantsFollowKeys(ins);
    InstantsFollowKeys(outs);
    found := {};
    var previousIn := |ins| - 1;
    for index := |outs| downto 0
      invariant -1 <= previousIn < |ins|
      invariant index < |outs| ==> forall k :: previousIn < k < |ins| ==> ins[k].Instant() > outs[index].Instant()
      invariant previousIn == |ins| - 1 || index < |outs|
      invariant forall q :: q in found <==> q in outs[index..] && exists p :: p in ins && IsPlausibleShift(p, q)
    {
      var end := outs[index];
      assert outs[index..] == [end] + outs[index + 1..];
      while previousIn >= 0 && ins[previousIn].Instant() > end.Instant()
        invariant -1 <= previousIn < |ins|
        invariant forall k :: previousIn < k < |ins| ==> ins[k].Instant() > end.Instant()
      {
        previousIn := previousIn - 1;
      }
      if previousIn >= 0 && IsPlausibleShift(ins[previousIn], end) {
        assert ins[previousIn] in ins;
        found := found + {end};
      } else {
        forall p | p in ins ensures !IsPlausibleShift(p, end) {
          var k :| 0 <= k < |ins| && ins[k] == p;
        }
      }
    }
    assert outs[0..] == outs;
  }

  // ----- the automaton -----

  /** `open` holds exactly the run that is still open before position `i`. */
  ghost predicate HoldsOpenRun(s: seq<Punch>, open: seq<Punch>, i: nat) {
    && |open| <= i <= |s|
    && open == s[i - |open|..i]
    && (if open == [] then i == 0 || s[i - 1].kind == ClockOut else OpenRun(s, i - |open|, i))
  }

  lemma ClosingStep(s: seq<Punch>, open: seq<Punch>, i: nat)
    requires i < |s| && HoldsOpenRun(s, open, i) && s[i].kind == ClockOut
    ensures PairedOut(s, i) <==> open != [] && IsPlausibleShift(open[0], s[i])
    ensures OverlongOut(s, i) <==> open != [] && s[i].Instant() - open[0].Instant() > MAX_SHIFT_MS
    ensures forall k: nat :: k < |s| ==>
        (PairedInBefore(s, k, i + 1) <==>
          PairedInBefore(s, k, i) || (i - |open| <= k < i && IsPlausibleShift(s[i - |open|], s[i])))
  {
    forall o: nat ensures OpenRun(s, o, i) <==> open != [] && o == i - |open| {
      if OpenRun(s, o, i) {
        assert s[i - 1].kind == ClockIn;
        RunStartIsUnique(s, o, i - |open|, i);
      }
    }
    if open != [] && IsPlausibleShift(open[0], s[i]) {
      assert Closes(s, i - |open|, i);
    }
    if open != [] && s[i].Instant() - open[0].Instant() > MAX_SHIFT_MS {
      assert Overruns(s, i - |open|, i);
    }
    forall k: nat | k < |s|
      ensures PairedInBefore(s, k, i + 1) <==>
          PairedInBefore(s, k, i) || (i - |open| <= k < i && IsPlausibleShift(s[i - |open|], s[i]))
    {
      if i - |open| <= k < i && IsPlausibleShift(s[i - |open|], s[i]) {
        assert Closes(s, i - |open|, i);
      }
      if PairedInBefore(s, k, i + 1) && !PairedInBefore(s, k, i) {
        var o: nat, j: nat :| o <= k < j < i + 1 && Closes(s, o, j);
        assert j == i;
        assert OpenRun(s, o, i);
      }
    }
  }

  lemma OpeningStep(s: seq<Punch>, i: nat)
    requires i < |s| && s[i].kind == ClockIn
    ensures !PairedOut(s, i) && !OverlongOut(s, i)
    ensures forall k: nat :: PairedInBefore(s, k, i + 1) <==> PairedInBefore(s, k, i)
  {
    forall k: nat ensures PairedInBefore(s, k, i + 1) <==> PairedInBefore(s, k, i) {
      if PairedInBefore(s, k, i + 1) {
        var o: nat, j: nat :| o <= k < j < i + 1 && Closes(s, o, j);
        assert j != i;
      }
    }
  }

  method PairShiftEvents(events: seq<Punch>) returns (ordered: seq<Punch>, r: Pairing)
    requires Distinct(events)
    ensures ordered == StableSort(events)
    ensures Chronological(ordered) && Distinct(ordered) && multiset(ordered) == multiset(events)
    ensures IsPairingOf(r, ordered)
  {
    ordered := StableSort(events);
    StableSortOrders(events);
    SortKeepsDistinct(events, ordered);
    var ins, outs := OfKind(ordered, ClockIn), OfKind(ordered, ClockOut);
    OfKindKeepsOrder(ordered, ClockIn);
    OfKindKeepsOrder(ordered, ClockOut);
    var plausibleIns := SweepIns(ins, outs);
    var plausibleOuts := SweepOuts(ins, outs);
    var pairedIns, pairedOuts, overlong, repeated := Automaton(ordered);
    r := Pairing(pairedIns, pairedOuts, overlong, repeated, plausibleIns + plausibleOuts);
    SweepsFindOpposites(ordered, plausibleIns, plausibleOuts);
  }

  lemma SweepsFindOpposites(s: seq<Punch>, foundIns: set<Punch>, foundOuts: set<Punch>)
    requires forall p :: p in foundIns <==>
        p in OfKind(s, ClockIn) && exists q :: q in OfKind(s, ClockOut) && IsPlausibleShift(p, q)
    requires forall q :: q in foundOuts <==>
        q in OfKind(s, ClockOut) && exists p :: p in OfKind(s, ClockIn) && IsPlausibleShift(p, q)
    ensures PlausibleIn(s, foundIns + foundOuts)
  {
    forall p | p in s ensures p in foundIns + foundOuts <==> HasPlausibleOpposite(s, p) {
      if p.kind == ClockIn {
        if HasPlausibleOpposite(s, p) {
          var q :| q in s && q.kind == ClockOut && IsPlausibleShift(p, q);
          assert q in OfKind(s, ClockOut);
        }
      } else {
        if HasPlausibleOpposite(s, p) {
          var q :| q in s && q.kind == ClockIn && IsPlausibleShift(q, p);
          assert q in OfKind(s, ClockIn);
        }
      }
    }
  }

  // What one event adds to each result.

  lemma MarkIns(s: seq<Punch>, open: seq<Punch>, i: nat, ins: set<Punch>)
    requires i < |s| && Distinct(s) && InsUpTo(s, i, ins)
    requires s[i].kind == ClockOut ==> HoldsOpenRun(s, open, i)
    ensures if s[i].kind == ClockOut && open != [] && IsPlausibleShift(open[0], s[i])
            then InsUpTo(s, i + 1, ins + set p | p in open)
            else InsUpTo(s, i + 1, ins)
  {
    if s[i].kind == ClockIn {
      OpeningStep(s, i);
    } else {
      ClosingStep(s, open, i);
      forall k | 0 <= k < |s| ensures s[k] in open <==> i - |open| <= k < i {
        PositionInRun(s, open, i, k);
      }
    }
  }

  lemma PositionInRun(s: seq<Punch>, open: seq<Punch>, i: nat, k: nat)
    requires k < |s| && Distinct(s) && |open| <= i <= |s| && open == s[i - |open|..i]
    ensures s[k] in open <==> i - |open| <= k < i
  {
    if i - |open| <= k < i {
      assert open[k - (i - |open|)] == s[k];
    }
  }

  lemma MarkOuts(s: seq<Punch>, i: nat, outs: set<Punch>)
    requires i < |s| && Distinct(s) && OutsUpTo(s, i, outs)
    ensures OutsUpTo(s, i + 1, if PairedOut(s, i) then outs + {s[i]} else outs)
  {
    var marked := if PairedOut(s, i) then outs + {s[i]} else outs;
    forall k | 0 <= k < |s| ensures s[k] in marked <==> k < i + 1 && PairedOut(s, k) {
      assert k != i ==> s[k] != s[i];
    }
  }

  lemma MarkOverlong(s: seq<Punch>, i: nat, overlong: set<Punch>)
    requires i < |s| && Distinct(s) && OverlongUpTo(s, i, overlong)
    ensures OverlongUpTo(s, i + 1, if OverlongOut(s, i) then overlong + {s[i]} else overlong)
  {
    var marked := if OverlongOut(s, i) then overlong + {s[i]} else overlong;
    forall k | 0 <= k < |s| ensures s[k] in marked <==> k < i + 1 && OverlongOut(s, k) {
      assert k != i ==> s[k] != s[i];
    }
  }

  /** How the clock-out at `i` is judged, in terms of the first open clock-in. */
  lemma JudgeOut(s: seq<Punch>, open: seq<Punch>, i: nat)
    requires i < |s|
    requires s[i].kind == ClockOut ==> HoldsOpenRun(s, open, i)
    ensures PairedOut(s, i) <==> s[i].kind == ClockOut && open != [] && IsPlausibleShift(open[0], s[i])
    ensures OverlongOut(s, i) <==>
        s[i].kind == ClockOut && open != [] && s[i].Instant() - open[0].Instant() > MAX_SHIFT_MS
  {
    if s[i].kind == ClockOut {
      ClosingStep(s, open, i);
    } else {
      OpeningStep(s, i);
    }
  }

  lemma MarkRepeated(s: seq<Punch>, i: nat, repeated: map<Punch, Punch>)
    requires i < |s| && Distinct(s) && RepeatedUpTo(s, i, repeated)
    ensures if i > 0 && s[i - 1].kind == s[i].kind then RepeatedUpTo(s, i + 1, repeated[s[i] := s[i - 1]])
            else RepeatedUpTo(s, i + 1, repeated)
  {
  }

  /** The single pass that keeps the open clock-ins. */
  method Automaton(s: seq<Punch>)
    returns (pairedIns: set<Punch>, pairedOuts: set<Punch>, overlong: set<Punch>, repeated: map<Punch, Punch>)
    requires Distinct(s)
    ensures InsUpTo(s, |s|, pairedIns)
    ensures OutsUpTo(s, |s|, pairedOuts)
    ensures OverlongUpTo(s, |s|, overlong)
    ensures RepeatedUpTo(s, |s|, repeated)
  {
    pairedIns, pairedOuts, overlong, repeated := {}, {}, {}, map[];
    var openIns: seq<Punch> := [];
    for i := 0 to |s|
      invariant HoldsOpenRun(s, openIns, i)
      invariant InsUpTo(s, i, pairedIns)
      invariant OutsUpTo(s, i, pairedOuts)
      invariant OverlongUpTo(s, i, overlong)
      invariant RepeatedUpTo(s, i, repeated)
    {
      var event := s[i];
      MarkRepeated(s, i, repeated);
      if i > 0 && s[i - 1].kind == event.kind {
        repeated := repeated[event := s[i - 1]];
      }
      JudgeOut(s, openIns, i);
      MarkIns(s, openIns, i, pairedIns);
      MarkOuts(s, i, pairedOuts);
      MarkOverlong(s, i, overlong);
      if event.kind == ClockIn {
        OpenStep(s, openIns, i);
        if openIns != [] && openIns[0].date != event.date {
          openIns := [];
        }
        openIns := openIns + [event];
      } else {
        if openIns != [] {
          if IsPlausibleShift(openIns[0], event) {
            pairedIns := pairedIns + set p | p in openIns;
            pairedOuts := pairedOuts + {event};
          } else if event.Instant() - openIns[0].Instant() > MAX_SHIFT_MS {
            overlong := overlong + {event};
          }
        }
        openIns := [];
      }
    }
  }

  lemma SliceGrows(s: seq<Punch>, from: nat, i: nat)
    requires from <= i < |s|
    ensures s[from..i + 1] == s[from..i] + [s[i]]
  {
  }

  lemma RunStartsAt(s: seq<Punch>, open: seq<Punch>, i: nat)
    requires HoldsOpenRun(s, open, i) && open != []
    ensures open[0] == s[i - |open|] && OpenRun(s, i - |open|, i)
    ensures s[i - 1].kind == ClockIn && s[i - 1].date == open[0].date
  {
  }

  lemma RestartStep(s: seq<Punch>, open: seq<Punch>, i: nat)
    requires i < |s| && HoldsOpenRun(s, open, i) && s[i].kind == ClockIn
    requires open == [] || open[0].date != s[i].date
    ensures HoldsOpenRun(s, [s[i]], i + 1)
  {
    if open != [] {
      RunStartsAt(s, open, i);
    }
    RunIsRestarted(s, i);
    SliceGrows(s, i, i);
  }

  lemma ExtendStep(s: seq<Punch>, open: seq<Punch>, i: nat)
    requires i < |s| && HoldsOpenRun(s, open, i) && s[i].kind == ClockIn
    requires open != [] && open[0].date == s[i].date
    ensures HoldsOpenRun(s, open + [s[i]], i + 1)
  {
    RunStartsAt(s, open, i);
    RunIsExtended(s, i - |open|, i);
    SliceGrows(s, i - |open|, i);
  }

  lemma OpenStep(s: seq<Punch>, open: seq<Punch>, i: nat)
    requires i < |s| && HoldsOpenRun(s, open, i) && s[i].kind == ClockIn
    ensures HoldsOpenRun(s, (if open != [] && open[0].date != s[i].date then [] else open) + [s[i]], i + 1)
  {
    if open == [] || open[0].date != s[i].date {
      RestartStep(s, open, i);
      assert [] + [s[i]] == [s[i]];
    } else {
      ExtendStep(s, open, i);
    }
  }
}
