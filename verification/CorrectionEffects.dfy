/** What a punch, a correction and its reversal change about the attendance that is read, and that they
    change nothing else. */
module CorrectionEffects {
  import opened Options
  import opened Events
  import opened Calendar
  import opened FactoryZone
  import opened SortKeys
  import opened EffectiveAttendance
  import opened EffectiveReads
  import opened CorrectionLog
  import opened WorkerReads

  // ----- reading a reachable state -----

  /** The tables of a running deployment. */
  ghost predicate Sound(zone: Zone, t: Tables) {
    CorrectionLog.Inv(zone, t) && VoidsNameOwn(t)
  }

  lemma {:induction false} RunIsSound(zone: Zone, steps: seq<Step>)
    requires Regular(zone)
    ensures Sound(zone, Run(zone, Tables([], [], []), steps))
    ensures WellDated(zone, Run(zone, Tables([], [], []), steps))
  {
    EmptyIsOk(zone);
    RunKeepsInv(zone, Tables([], [], []), steps);
    RunKeepsNames(zone, Tables([], [], []), steps);
    RunKeepsDates(zone, Tables([], [], []), steps);
  }

  /** The record is among those read for the date. */
  ghost predicate Shows(zone: Zone, t: Tables, d: Date, r: Record)
    requires TablesOk(zone, t) && InRange(d)
  {
    SingleDate(zone, t, d).Some? && r in SingleDate(zone, t, d).value
  }

  lemma ShowsEffective(zone: Zone, t: Tables, d: Date, r: Record)
    requires CorrectionLog.Inv(zone, t) && InRange(d)
    ensures Shows(zone, t, d, r) <==> Effective(zone, t, d, r)
  {
    DayNumberOrders(d, DateOfDay(DayNumber(d)));
    EveryReadSucceeds(zone, t, [], d, d, DayNumber(d));
    SingleDateMeans(zone, t, d);
  }

  // ----- a punch -----

  /** What a punch is read as. */
  ghost predicate IsPunchRecord(zone: Zone, row: Row, r: Record)
    requires Regular(zone) && StampOk(row.stamp)
  {
    && r.id == Scanned(row.id) && r.worker == row.worker && r.kind == row.kind
    && r.stamp == row.stamp && r.key == SortKey(zone, row.stamp)
  }

  ghost predicate IsPunchOfDate(zone: Zone, row: Row, d: Date, r: Record)
    requires Regular(zone)
  {
    StampOk(row.stamp) && FactoryDay(zone, row.stamp) == Some(DayNumber(d)) && IsPunchRecord(zone, row, r)
  }

  /** The ingest accepts this row. */
  ghost predicate IsNewPunch(zone: Zone, t: Tables, row: Row) {
    InRange(row.stamp.date) && Accepts(zone, row.stamp) && forall i :: 0 <= i < |t.rows| ==> t.rows[i].id != row.id
  }

  /** The correction is in the tables and was never reversed. */
  ghost predicate InForce(t: Tables, c: Correction) {
    c in t.corrections && TimesReversed(t, c.id) == 0
  }

  predicate Voids(c: Correction, d: Date, id: nat) {
    c.date == d && c.action == VoidEvent && c.original == Some(id)
  }

  ghost predicate Adds(zone: Zone, c: Correction, d: Date, r: Record)
    requires Regular(zone)
  {
    c.date == d && IsAdd(c) && StampOk(c.corrected.value) && r == Added(zone, c)
  }

  lemma VoidedByForce(t: Tables, d: Date, id: nat)
    ensures IsVoided(t, d, id) <==> exists c :: InForce(t, c) && Voids(c, d, id)
  {
    if IsVoided(t, d, id) {
      var c :| c in t.corrections && c.date == d && TimesReversed(t, c.id) == 0
        && c.action == VoidEvent && c.original == Some(id);
      assert InForce(t, c) && Voids(c, d, id);
    }
  }

  lemma AddedByForce(zone: Zone, t: Tables, d: Date, r: Record)
    requires Regular(zone)
    ensures IsAdditionOn(zone, t, d, r) <==> exists c :: InForce(t, c) && Adds(zone, c, d, r)
  {
    if IsAdditionOn(zone, t, d, r) {
      var c :| c in t.corrections && c.date == d && TimesReversed(t, c.id) == 0 && IsAdd(c)
        && StampOk(c.corrected.value) && r == Added(zone, c);
      assert InForce(t, c) && Adds(zone, c, d, r);
    }
  }

  lemma UnnamedIsNotVoided(t: Tables, d: Date, id: nat)
    requires VoidsNameOwn(t) && forall i :: 0 <= i < |t.rows| ==> t.rows[i].id != id
    ensures !IsVoided(t, d, id)
  {
    forall c | c in t.corrections && c.action == VoidEvent && c.original.Some? ensures c.original.value != id {
      assert NamesOwn(t.rows, c);
    }
  }

  /** An accepted punch is read on its own factory date, as it was sent, and changes nothing else. */
  lemma PunchTakesEffect(zone: Zone, t: Tables, row: Row, d: Date, r: Record)
    requires Sound(zone, t) && IsNewPunch(zone, t, row) && InRange(d)
    ensures Sound(zone, Do(zone, t, Ingest(row)))
    ensures Shows(zone, Do(zone, t, Ingest(row)), d, r) <==>
            Shows(zone, t, d, r) || IsPunchOfDate(zone, row, d, r)
  {
    var after := Do(zone, t, Ingest(row));
    IngestKeepsInv(zone, t, row);
    StepKeepsNames(zone, t, Ingest(row));
    ShowsEffective(zone, t, d, r);
    ShowsEffective(zone, after, d, r);
    UnnamedIsNotVoided(t, d, row.id);
    assert after == t.(rows := t.rows + [row]);
    PunchesGrow(zone, t, row, d, r);
  }

  lemma SameCorrections(zone: Zone, t: Tables, rows: seq<Row>, d: Date, r: Record)
    requires Regular(zone)
    ensures forall id :: IsVoided(t.(rows := rows), d, id) <==> IsVoided(t, d, id)
    ensures IsAdditionOn(zone, t.(rows := rows), d, r) <==> IsAdditionOn(zone, t, d, r)
  {
    var u := t.(rows := rows);
    forall id: nat ensures TimesReversed(u, id) == TimesReversed(t, id) {
    }
    forall c ensures InForce(u, c) <==> InForce(t, c) {
    }
    forall id: nat ensures IsVoided(u, d, id) <==> IsVoided(t, d, id) {
      VoidedByForce(t, d, id);
      VoidedByForce(u, d, id);
    }
    AddedByForce(zone, t, d, r);
    AddedByForce(zone, u, d, r);
  }

  lemma PunchesGrow(zone: Zone, t: Tables, row: Row, d: Date, r: Record)
    requires Regular(zone) && StampOk(row.stamp) && !IsVoided(t, d, row.id)
    ensures Effective(zone, t.(rows := t.rows + [row]), d, r) <==>
            Effective(zone, t, d, r) || IsPunchOfDate(zone, row, d, r)
  {
    var u := t.(rows := t.rows + [row]);
    SameCorrections(zone, t, u.rows, d, r);
    if i :| 0 <= i < |t.rows| && PunchAt(zone, t, d, r, t.rows[i]) {
      assert u.rows[i] == t.rows[i] && PunchAt(zone, u, d, r, u.rows[i]);
    }
    if FactoryDay(zone, row.stamp) == Some(DayNumber(d)) && IsPunchRecord(zone, row, r) {
      assert u.rows[|t.rows|] == row && PunchAt(zone, u, d, r, u.rows[|t.rows|]);
    }
    if i :| 0 <= i < |u.rows| && PunchAt(zone, u, d, r, u.rows[i]) {
      if i < |t.rows| {
        assert PunchAt(zone, t, d, r, t.rows[i]);
      }
    }
  }

  // ----- a correction -----

  /** The correction is new and meets the rules. */
  ghost predicate IsNewCorrection(zone: Zone, t: Tables, c: Correction) {
    MayCorrect(zone, t, c) && forall i :: 0 <= i < |t.corrections| ==> t.corrections[i].id != c.id
  }

  /** What an addition is read as: an event of the kind that the action names. */
  ghost predicate IsAddedRecord(zone: Zone, c: Correction, r: Record)
    requires Regular(zone) && c.corrected.Some? && StampOk(c.corrected.value)
  {
    && r.id == Corrected(c.id) && r.worker == c.worker
    && r.kind == (if c.action == AddClockIn then ClockIn else ClockOut)
    && r.stamp == c.corrected.value && r.key == SortKey(zone, c.corrected.value)
  }

  lemma NeverReversedYet(t: Tables, id: nat)
    requires ReversedOnce(t) && forall i :: 0 <= i < |t.corrections| ==> t.corrections[i].id != id
    ensures TimesReversed(t, id) == 0
  {
    forall r | r in t.reversals ensures r.correction != id {
      var i :| 0 <= i < |t.reversals| && t.reversals[i] == r;
      assert CorrectionExists(t, t.reversals[i].correction);
    }
    FilterMembers(t.reversals, (r: Reversal) => r.correction == id);
    var found := Filter(t.reversals, (r: Reversal) => r.correction == id);
    assert |found| > 0 ==> found[0] in found;
  }

  lemma ForceGrows(t: Tables, c: Correction, b: Correction)
    requires TimesReversed(t, c.id) == 0
    ensures InForce(t.(corrections := t.corrections + [c]), b) <==> InForce(t, b) || b == c
  {
    var u := t.(corrections := t.corrections + [c]);
    assert c in u.corrections && TimesReversed(u, b.id) == TimesReversed(t, b.id);
  }

  lemma OneMoreCorrection(t: Tables, c: Correction, d: Date, id: nat)
    requires TimesReversed(t, c.id) == 0
    ensures IsVoided(t.(corrections := t.corrections + [c]), d, id) <==> IsVoided(t, d, id) || Voids(c, d, id)
  {
    forall b ensures InForce(t.(corrections := t.corrections + [c]), b) <==> InForce(t, b) || b == c {
      ForceGrows(t, c, b);
    }
    VoidedByForce(t, d, id);
    VoidedByForce(t.(corrections := t.corrections + [c]), d, id);
  }

  lemma OneMoreAddition(zone: Zone, t: Tables, c: Correction, d: Date, r: Record)
    requires Regular(zone) && TimesReversed(t, c.id) == 0
    ensures IsAdditionOn(zone, t.(corrections := t.corrections + [c]), d, r) <==>
            IsAdditionOn(zone, t, d, r) || Adds(zone, c, d, r)
  {
    forall b ensures InForce(t.(corrections := t.corrections + [c]), b) <==> InForce(t, b) || b == c {
      ForceGrows(t, c, b);
    }
    AddedByForce(zone, t, d, r);
    AddedByForce(zone, t.(corrections := t.corrections + [c]), d, r);
  }

  lemma PunchUnderVoid(zone: Zone, t: Tables, c: Correction, d: Date, r: Record)
    requires Regular(zone) && TimesReversed(t, c.id) == 0
    ensures IsPunchOn(zone, t.(corrections := t.corrections + [c]), d, r) <==>
            IsPunchOn(zone, t, d, r) && !(r.id.Scanned? && Voids(c, d, r.id.id))
  {
    var u := t.(corrections := t.corrections + [c]);
    forall id: nat ensures IsVoided(u, d, id) <==> IsVoided(t, d, id) || Voids(c, d, id) {
      OneMoreCorrection(t, c, d, id);
    }
    forall i | 0 <= i < |t.rows|
      ensures PunchAt(zone, u, d, r, t.rows[i]) <==>
              PunchAt(zone, t, d, r, t.rows[i]) && !(r.id.Scanned? && Voids(c, d, r.id.id))
    {
    }
  }

  /** A correction that meets the rules takes effect, on its date alone: a void takes its punch away, an
      addition adds its event, and nothing else changes. */
  lemma CorrectionTakesEffect(zone: Zone, t: Tables, c: Correction, d: Date, r: Record)
    requires Sound(zone, t) && IsNewCorrection(zone, t, c) && InRange(d)
    ensures Sound(zone, Do(zone, t, Correct(c)))
    ensures Shows(zone, Do(zone, t, Correct(c)), d, r) <==>
            if d != c.date then Shows(zone, t, d, r)
            else if c.action == VoidEvent then Shows(zone, t, d, r) && r.id != Scanned(c.original.value)
            else Shows(zone, t, d, r) || IsAddedRecord(zone, c, r)
  {
    CorrectKeepsInv(zone, t, c);
    StepKeepsNames(zone, t, Correct(c));
    NeverReversedYet(t, c.id);
    assert Do(zone, t, Correct(c)) == t.(corrections := t.corrections + [c]);
    ShowsEffective(zone, t, d, r);
    ShowsEffective(zone, Do(zone, t, Correct(c)), d, r);
    PunchUnderVoid(zone, t, c, d, r);
    OneMoreAddition(zone, t, c, d, r);
  }

  // ----- a reversal -----

  lemma UnreversedMeans(t: Tables, id: nat)
    ensures TimesReversed(t, id) == 0 <==> !Reversed(t, id)
  {
    FilterMembers(t.reversals, (r: Reversal) => r.correction == id);
    var found := Filter(t.reversals, (r: Reversal) => r.correction == id);
    if |found| > 0 {
      assert found[0] in t.reversals;
    }
    if i :| 0 <= i < |t.reversals| && t.reversals[i].correction == id {
      assert t.reversals[i] in found;
    }
  }

  lemma ReversalIsStored(zone: Zone, t: Tables, c: Correction, request: nat)
    requires CorrectionLog.Inv(zone, t) && InForce(t, c) && !RequestUsed(t, request)
    ensures Do(zone, t, Reverse(c.id, request)) == t.(reversals := t.reversals + [Reversal(c.id, c.date, request)])
  {
    UnreversedMeans(t, c.id);
    CorrectionFound(t.corrections, c.id);
  }

  lemma ForceShrinks(zone: Zone, t: Tables, c: Correction, r: Reversal, b: Correction)
    requires CorrectionLog.Inv(zone, t) && InForce(t, c) && r.correction == c.id
    ensures InForce(t.(reversals := t.reversals + [r]), b) <==> InForce(t, b) && b != c
  {
    UnreversedMeans(t, b.id);
    UnreversedMeans(t.(reversals := t.reversals + [r]), b.id);
    ReversedGrows(t, r, b.id);
  }

  lemma VoidsOnce(zone: Zone, t: Tables, c: Correction, b: Correction, d: Date, id: nat)
    requires CorrectionLog.Inv(zone, t) && InForce(t, c) && InForce(t, b) && Voids(c, d, id) && Voids(b, d, id)
    ensures b == c
  {
    UnreversedMeans(t, c.id);
    UnreversedMeans(t, b.id);
    var i :| 0 <= i < |t.corrections| && t.corrections[i] == c;
    var j :| 0 <= j < |t.corrections| && t.corrections[j] == b;
    assert BothVoid(c, b) && BothVoid(b, c);
  }

  lemma OneVoidLess(zone: Zone, t: Tables, c: Correction, r: Reversal, d: Date, id: nat)
    requires CorrectionLog.Inv(zone, t) && InForce(t, c) && r.correction == c.id
    ensures IsVoided(t.(reversals := t.reversals + [r]), d, id) <==> IsVoided(t, d, id) && !Voids(c, d, id)
  {
    var u := t.(reversals := t.reversals + [r]);
    forall b ensures InForce(u, b) <==> InForce(t, b) && b != c {
      ForceShrinks(zone, t, c, r, b);
    }
    VoidedByForce(t, d, id);
    VoidedByForce(u, d, id);
    forall b | InForce(t, b) && Voids(b, d, id) && Voids(c, d, id) ensures b == c {
      VoidsOnce(zone, t, c, b, d, id);
    }
  }

  lemma OneAdditionLess(zone: Zone, t: Tables, c: Correction, r: Reversal, d: Date, record: Record)
    requires CorrectionLog.Inv(zone, t) && InForce(t, c) && r.correction == c.id
    ensures IsAdditionOn(zone, t.(reversals := t.reversals + [r]), d, record) <==>
            IsAdditionOn(zone, t, d, record) && !Adds(zone, c, d, record)
  {
    var u := t.(reversals := t.reversals + [r]);
    forall b ensures InForce(u, b) <==> InForce(t, b) && b != c {
      ForceShrinks(zone, t, c, r, b);
    }
    AddedByForce(zone, t, d, record);
    AddedByForce(zone, u, d, record);
    forall b | InForce(t, b) && Adds(zone, b, d, record) && Adds(zone, c, d, record) ensures b == c {
      assert b.id == c.id;
    }
  }

  /** The record is that of the punch which the correction voids on the date. */
  ghost predicate IsTakenBack(zone: Zone, t: Tables, c: Correction, d: Date, r: Record)
    requires TablesOk(zone, t)
  {
    exists i :: 0 <= i < |t.rows| && c.original == Some(t.rows[i].id) && IsPunchOfDate(zone, t.rows[i], d, r)
  }

  lemma PunchAfterReversal(zone: Zone, t: Tables, c: Correction, r: Reversal, d: Date, record: Record)
    requires CorrectionLog.Inv(zone, t) && InForce(t, c) && r.correction == c.id
    ensures IsPunchOn(zone, t.(reversals := t.reversals + [r]), d, record) <==>
            || IsPunchOn(zone, t, d, record)
            || (c.date == d && c.action == VoidEvent && IsTakenBack(zone, t, c, d, record))
  {
    var u := t.(reversals := t.reversals + [r]);
    forall id: nat ensures IsVoided(u, d, id) <==> IsVoided(t, d, id) && !Voids(c, d, id) {
      OneVoidLess(zone, t, c, r, d, id);
    }
    VoidedByForce(t, d, if c.original.Some? then c.original.value else 0);
    forall i | 0 <= i < |t.rows|
      ensures PunchAt(zone, u, d, record, t.rows[i]) <==>
              || PunchAt(zone, t, d, record, t.rows[i])
              || (PunchAt(zone, u, d, record, t.rows[i]) && Voids(c, d, t.rows[i].id))
    {
    }
  }

  /** Reversing a correction that is in force undoes it, on its date alone: a voided punch is read again,
      an addition no longer, and nothing else changes. */
  lemma ReversalRestores(zone: Zone, t: Tables, c: Correction, request: nat, d: Date, r: Record)
    requires Sound(zone, t) && InForce(t, c) && !RequestUsed(t, request) && InRange(d)
    ensures Sound(zone, Do(zone, t, Reverse(c.id, request)))
    ensures Shows(zone, Do(zone, t, Reverse(c.id, request)), d, r) <==>
            if d != c.date then Shows(zone, t, d, r)
            else if c.action == VoidEvent then Shows(zone, t, d, r) || IsTakenBack(zone, t, c, d, r)
            else Shows(zone, t, d, r) && r.id != Corrected(c.id)
  {
    ReverseKeepsInv(zone, t, c.id, request);
    StepKeepsNames(zone, t, Reverse(c.id, request));
    ReversalIsStored(zone, t, c, request);
    ShowsEffective(zone, t, d, r);
    ShowsEffective(zone, Do(zone, t, Reverse(c.id, request)), d, r);
    PunchAfterReversal(zone, t, c, Reversal(c.id, c.date, request), d, r);
    OneAdditionLess(zone, t, c, Reversal(c.id, c.date, request), d, r);
    AddedByForce(zone, t, d, r);
  }

  lemma NewVoidTakesShown(zone: Zone, t: Tables, c: Correction, r: Record)
    requires Sound(zone, t) && IsNewCorrection(zone, t, c) && c.action == VoidEvent
    ensures IsTakenBack(zone, t, c, c.date, r) <==> Shows(zone, t, c.date, r) && r.id == Scanned(c.original.value)
  {
    ShowsEffective(zone, t, c.date, r);
    VoidedByForce(t, c.date, c.original.value);
    if b :| InForce(t, b) && Voids(b, c.date, c.original.value) {
      UnreversedMeans(t, b.id);
      assert ActivelyVoided(t, c.original.value);
    }
    forall i | 0 <= i < |t.rows| && c.original == Some(t.rows[i].id)
      ensures IsPunchOfDate(zone, t.rows[i], c.date, r) <==> PunchAt(zone, t, c.date, r, t.rows[i])
    {
    }
  }

  lemma IdOfAddition(zone: Zone, t: Tables, c: Correction, d: Date, r: Record)
    requires Sound(zone, t) && IsNewCorrection(zone, t, c) && InRange(d) && Shows(zone, t, d, r)
    ensures r.id != Corrected(c.id)
  {
    ShowsEffective(zone, t, d, r);
    AddedByForce(zone, t, d, r);
  }

  /** Making a correction and then reversing it leaves every date as if it had never been made. */
  lemma ReversalUndoes(zone: Zone, t: Tables, c: Correction, request: nat, d: Date, r: Record)
    requires Sound(zone, t) && IsNewCorrection(zone, t, c) && !RequestUsed(t, request) && InRange(d)
    ensures var after := Do(zone, Do(zone, t, Correct(c)), Reverse(c.id, request));
            Sound(zone, after) && (Shows(zone, after, d, r) <==> Shows(zone, t, d, r))
  {
    var corrected := Do(zone, t, Correct(c));
    CorrectionTakesEffect(zone, t, c, d, r);
    NeverReversedYet(t, c.id);
    ForceGrows(t, c, c);
    ReversalRestores(zone, corrected, c, request, d, r);
    if c.action == VoidEvent {
      NewVoidTakesShown(zone, t, c, r);
    } else if Shows(zone, t, d, r) {
      IdOfAddition(zone, t, c, d, r);
    }
  }

  // ----- repeated requests -----

  ghost predicate RequestsDiffer(t: Tables) {
    forall i, j :: 0 <= i < j < |t.reversals| ==> t.reversals[i].request != t.reversals[j].request
  }

  /** Of the requests to reverse, however often they are repeated, no two that share an identifier both
      store a reversal. */
  lemma {:induction false} RepeatedRequestsReverseOnce(zone: Zone, t: Tables, steps: seq<Step>)
    requires RequestsDiffer(t)
    ensures RequestsDiffer(Run(zone, t, steps))
  {
    if steps != [] {
      RepeatedRequestsReverseOnce(zone, t, steps[..|steps| - 1]);
      var before := Run(zone, t, steps[..|steps| - 1]);
      var after := Do(zone, before, steps[|steps| - 1]);
      forall i, j | 0 <= i < j < |after.reversals| ensures after.reversals[i].request != after.reversals[j].request {
        assert j == |before.reversals| ==> !RequestUsed(before, after.reversals[j].request);
      }
    }
  }

  // ----- dates -----

  ghost predicate IsAcceptable(zone: Zone, s: Stamp) {
    InRange(s.date) && Accepts(zone, s)
  }

  ghost predicate VoidsOwnDate(zone: Zone, rows: seq<Row>, c: Correction) {
    exists i :: 0 <= i < |rows| && c.original == Some(rows[i].id) && OnDate(zone, rows[i].stamp, c.date)
  }

  /** The correction names a punch, or an acceptable timestamp, of its own date. */
  ghost predicate NamesOwnDate(zone: Zone, rows: seq<Row>, c: Correction) {
    match c.action
    case VoidEvent => VoidsOwnDate(zone, rows, c)
    case _ => c.corrected.Some? && IsAcceptable(zone, c.corrected.value) && OnDate(zone, c.corrected.value, c.date)
  }

  ghost predicate WellDated(zone: Zone, t: Tables) {
    forall c :: c in t.corrections ==> NamesOwnDate(zone, t.rows, c)
  }

  lemma StepKeepsDates(zone: Zone, t: Tables, step: Step)
    requires WellDated(zone, t)
    ensures WellDated(zone, Do(zone, t, step))
  {
    var after := Do(zone, t, step);
    forall c | c in after.corrections ensures NamesOwnDate(zone, after.rows, c) {
      if c in t.corrections {
        assert NamesOwnDate(zone, t.rows, c);
        if c.action == VoidEvent {
          var i :| 0 <= i < |t.rows| && c.original == Some(t.rows[i].id) && OnDate(zone, t.rows[i].stamp, c.date);
          assert after.rows[i] == t.rows[i];
        }
      } else {
        assert MayCorrect(zone, t, c);
      }
    }
  }

  lemma {:induction false} RunKeepsDates(zone: Zone, t: Tables, steps: seq<Step>)
    requires WellDated(zone, t)
    ensures WellDated(zone, Run(zone, t, steps))
  {
    if steps != [] {
      RunKeepsDates(zone, t, steps[..|steps| - 1]);
      StepKeepsDates(zone, Run(zone, t, steps[..|steps| - 1]), steps[|steps| - 1]);
    }
  }

  /** Whatever is read for a date is a timestamp of that date. */
  lemma ShownIsOfDate(zone: Zone, t: Tables, d: Date, r: Record)
    requires Sound(zone, t) && WellDated(zone, t) && InRange(d) && Shows(zone, t, d, r)
    ensures OnDate(zone, r.stamp, d)
  {
    ShowsEffective(zone, t, d, r);
    if IsAdditionOn(zone, t, d, r) {
      AddedByForce(zone, t, d, r);
      var c :| InForce(t, c) && Adds(zone, c, d, r);
      assert NamesOwnDate(zone, t.rows, c);
    }
  }

  lemma ShownIsAcceptable(zone: Zone, t: Tables, d: Date, r: Record)
    requires Sound(zone, t) && WellDated(zone, t) && InRange(d) && Shows(zone, t, d, r)
    ensures IsAcceptable(zone, r.stamp) && r.key == SortKey(zone, r.stamp) && r.key != ""
  {
    ShowsEffective(zone, t, d, r);
    if IsAdditionOn(zone, t, d, r) {
      AddedByForce(zone, t, d, r);
      var c :| InForce(t, c) && Adds(zone, c, d, r);
      assert NamesOwnDate(zone, t.rows, c);
    } else {
      var i :| 0 <= i < |t.rows| && PunchAt(zone, t, d, r, t.rows[i]);
      assert RowOk(zone, t.rows[i]);
    }
    AcceptedIff(zone, r.stamp);
    SortKeyIsEmptyIff(zone, r.stamp);
  }

  lemma KeysInOrder(a: Record, b: Record)
    requires RecordBefore(a, b) && a.key != "" && b.key != ""
    ensures Less(a.key, b.key) || (a.key == b.key && IdBefore(a.id, b.id))
  {
  }

  /** In every reachable state a date is read in the order of the exact instants; of two events of one
      instant an added one comes before a punch, and otherwise the smaller id first. */
  lemma ReadIsChronological(zone: Zone, t: Tables, d: Date, i: nat, j: nat)
    requires Sound(zone, t) && WellDated(zone, t) && InRange(d) && SingleDate(zone, t, d).Some?
    requires i < j < |SingleDate(zone, t, d).value|
    ensures var a, b := SingleDate(zone, t, d).value[i], SingleDate(zone, t, d).value[j];
            && IsAcceptable(zone, a.stamp) && IsAcceptable(zone, b.stamp)
            && SortKey(zone, a.stamp) != "" && SortKey(zone, b.stamp) != ""
            && (Instant(zone, a.stamp) < Instant(zone, b.stamp)
                || (Instant(zone, a.stamp) == Instant(zone, b.stamp) && IdBefore(a.id, b.id)))
  {
    var a, b := SingleDate(zone, t, d).value[i], SingleDate(zone, t, d).value[j];
    ShownIsAcceptable(zone, t, d, a);
    ShownIsAcceptable(zone, t, d, b);
    SingleDateMeans(zone, t, d);
    KeysInOrder(a, b);
    SortKeysOrderInstants(zone, a.stamp, b.stamp);
  }

  lemma VoidIsOfItsDate(zone: Zone, t: Tables, c: Correction, row: Row, d: Date)
    requires CorrectionLog.Inv(zone, t) && NamesOwnDate(zone, t.rows, c) && InRange(d) && Valid(c.date)
    requires c.action == VoidEvent && c.original == Some(row.id) && row in t.rows && OnDate(zone, row.stamp, d)
    ensures c.date == d
  {
    var j :| 0 <= j < |t.rows| && c.original == Some(t.rows[j].id) && OnDate(zone, t.rows[j].stamp, c.date);
    var k :| 0 <= k < |t.rows| && t.rows[k] == row;
    assert j == k;
    DayNumberOrders(c.date, d);
  }

  lemma ActiveMeansForce(t: Tables, id: nat)
    ensures ActivelyVoided(t, id) <==> exists c :: InForce(t, c) && Voids(c, c.date, id)
  {
    forall c ensures InForce(t, c) <==> c in t.corrections && !Reversed(t, c.id) {
      UnreversedMeans(t, c.id);
    }
    if c :| InForce(t, c) && Voids(c, c.date, id) {
      var i :| 0 <= i < |t.corrections| && t.corrections[i] == c;
    }
    forall i | 0 <= i < |t.corrections| && t.corrections[i].action == VoidEvent
      && t.corrections[i].original == Some(id) && !Reversed(t, t.corrections[i].id)
      ensures InForce(t, t.corrections[i]) && Voids(t.corrections[i], t.corrections[i].date, id)
    {
    }
  }

  lemma ActiveVoidIsVoid(zone: Zone, t: Tables, row: Row, d: Date)
    requires CorrectionLog.Inv(zone, t) && WellDated(zone, t) && InRange(d)
    requires row in t.rows && OnDate(zone, row.stamp, d) && ActivelyVoided(t, row.id)
    ensures IsVoided(t, d, row.id)
  {
    ActiveMeansForce(t, row.id);
    var c :| InForce(t, c) && Voids(c, c.date, row.id);
    assert NamesOwnDate(zone, t.rows, c) && Valid(c.date);
    VoidIsOfItsDate(zone, t, c, row, d);
    VoidedByForce(t, d, row.id);
  }

  lemma ActiveVoidIsOfDate(zone: Zone, t: Tables, row: Row, d: Date)
    requires CorrectionLog.Inv(zone, t) && WellDated(zone, t) && InRange(d)
    requires row in t.rows && OnDate(zone, row.stamp, d)
    ensures ActivelyVoided(t, row.id) <==> IsVoided(t, d, row.id)
  {
    if ActivelyVoided(t, row.id) {
      ActiveVoidIsVoid(zone, t, row, d);
    }
    if IsVoided(t, d, row.id) {
      VoidedByForce(t, d, row.id);
      var c :| InForce(t, c) && Voids(c, d, row.id);
      ActiveMeansForce(t, row.id);
      assert Voids(c, c.date, row.id);
    }
  }

  /** A punch of the worker is among those read for the date. */
  ghost predicate ShowsPunch(zone: Zone, t: Tables, d: Date, id: nat, worker: nat)
    requires TablesOk(zone, t) && InRange(d)
  {
    exists r :: Shows(zone, t, d, r) && r.id == Scanned(id) && r.worker == worker
  }

  lemma ShowsPunchOfRow(zone: Zone, t: Tables, d: Date, id: nat, worker: nat)
    requires Sound(zone, t) && InRange(d) && ShowsPunch(zone, t, d, id, worker)
    ensures exists i :: 0 <= i < |t.rows| && t.rows[i].id == id && t.rows[i].worker == worker
                && OnDate(zone, t.rows[i].stamp, d) && !IsVoided(t, d, id)
  {
    var r :| Shows(zone, t, d, r) && r.id == Scanned(id) && r.worker == worker;
    ShowsEffective(zone, t, d, r);
    var i :| 0 <= i < |t.rows| && PunchAt(zone, t, d, r, t.rows[i]);
  }

  lemma RowShowsPunch(zone: Zone, t: Tables, d: Date, i: nat)
    requires Sound(zone, t) && InRange(d) && i < |t.rows|
    requires OnDate(zone, t.rows[i].stamp, d) && !IsVoided(t, d, t.rows[i].id)
    ensures ShowsPunch(zone, t, d, t.rows[i].id, t.rows[i].worker)
  {
    assert RowOk(zone, t.rows[i]);
    var r := RecordOf(zone, t.rows[i]);
    assert PunchAt(zone, t, d, r, t.rows[i]);
    ShowsEffective(zone, t, d, r);
  }

  /** A void is accepted exactly for a punch of the worker that is read for the date. */
  lemma VoidableIff(zone: Zone, t: Tables, c: Correction)
    requires Sound(zone, t) && WellDated(zone, t) && c.action == VoidEvent && InRange(c.date)
    ensures MayCorrect(zone, t, c) <==>
            c.corrected == None && c.original.Some? && ShowsPunch(zone, t, c.date, c.original.value, c.worker)
  {
    if c.original.Some? {
      forall row | row in t.rows && OnDate(zone, row.stamp, c.date)
        ensures ActivelyVoided(t, row.id) <==> IsVoided(t, c.date, row.id)
      {
        ActiveVoidIsOfDate(zone, t, row, c.date);
      }
      if ShowsPunch(zone, t, c.date, c.original.value, c.worker) {
        ShowsPunchOfRow(zone, t, c.date, c.original.value, c.worker);
      }
      if MayCorrect(zone, t, c) {
        var i :| 0 <= i < |t.rows| && t.rows[i].id == c.original.value && t.rows[i].worker == c.worker
          && OnDate(zone, t.rows[i].stamp, c.date);
        RowShowsPunch(zone, t, c.date, i);
      }
    }
  }
}
