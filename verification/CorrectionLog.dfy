/** How punches, corrections and reversals come about, and what this means for reading them: no
    correction is ever reversed twice, so every date and every range of dates can be read. */
module CorrectionLog {
  import opened Options
  import opened Events
  import opened Calendar
  import opened FactoryZone
  import opened SortKeys
  import opened EffectiveAttendance
  import opened EffectiveReads

  datatype Step = Ingest(row: Row) | Correct(correction: Correction) | Reverse(id: nat, request: nat)

  predicate CorrectionExists(t: Tables, id: nat) {
    exists i :: 0 <= i < |t.corrections| && t.corrections[i].id == id
  }

  predicate RowIdUsed(t: Tables, id: nat) {
    exists i :: 0 <= i < |t.rows| && t.rows[i].id == id
  }

  predicate Reversed(t: Tables, id: nat) {
    exists i :: 0 <= i < |t.reversals| && t.reversals[i].correction == id
  }

  predicate RequestUsed(t: Tables, request: nat) {
    exists i :: 0 <= i < |t.reversals| && t.reversals[i].request == request
  }

  predicate OnDate(zone: Zone, s: Stamp, d: Date) {
    FactoryDay(zone, s) == Some(DayNumber(d))
  }

  /** A void that no reversal has undone. */
  predicate ActivelyVoided(t: Tables, original: nat) {
    exists i :: 0 <= i < |t.corrections| && t.corrections[i].action == VoidEvent
      && t.corrections[i].original == Some(original) && !Reversed(t, t.corrections[i].id)
  }

  /** What a new correction must satisfy: a void names a punch of this worker on the date that no
      active void names, an addition an acceptable timestamp on the date. */
  predicate MayCorrect(zone: Zone, t: Tables, c: Correction) {
    && InRange(c.date)
    && match c.action
       case VoidEvent =>
         && c.original.Some? && c.corrected == None && !ActivelyVoided(t, c.original.value)
         && (exists i :: 0 <= i < |t.rows| && t.rows[i].id == c.original.value
               && t.rows[i].worker == c.worker && OnDate(zone, t.rows[i].stamp, c.date))
       case AddClockIn => MayAdd(zone, c) && c.kind == Some(ClockIn)
       case AddClockOut => MayAdd(zone, c) && c.kind == Some(ClockOut)
  }

  predicate MayAdd(zone: Zone, c: Correction) {
    && c.corrected.Some? && InRange(c.corrected.value.date)
    && Accepts(zone, c.corrected.value) && OnDate(zone, c.corrected.value, c.date)
  }

  function CorrectionOf(corrections: seq<Correction>, id: nat): Option<Correction> {
    if corrections == [] then None
    else if corrections[|corrections| - 1].id == id then Some(corrections[|corrections| - 1])
    else CorrectionOf(corrections[..|corrections| - 1], id)
  }

  /** A repeated request changes nothing, nor does one for a correction that is missing or has been
      reversed already.  Ids are never reused, and a reversal carries its correction's date. */
  function Do(zone: Zone, t: Tables, step: Step): Tables {
    match step
    case Ingest(row) =>
      if InRange(row.stamp.date) && Accepts(zone, row.stamp) && !RowIdUsed(t, row.id)
      then t.(rows := t.rows + [row]) else t
    case Correct(c) =>
      if !CorrectionExists(t, c.id) && MayCorrect(zone, t, c)
      then t.(corrections := t.corrections + [c]) else t
    case Reverse(id, request) =>
      var correction := CorrectionOf(t.corrections, id);
      if RequestUsed(t, request) || correction == None || Reversed(t, id) then t
      else t.(reversals := t.reversals + [Reversal(id, correction.value.date, request)])
  }

  function Run(zone: Zone, t: Tables, steps: seq<Step>): Tables {
    if steps == [] then t else Do(zone, Run(zone, t, steps[..|steps| - 1]), steps[|steps| - 1])
  }

  // ----- the invariant -----

  ghost predicate ReversedOnce(t: Tables) {
    && (forall i, j :: 0 <= i < j < |t.reversals| ==> t.reversals[i].correction != t.reversals[j].correction)
    && (forall i :: 0 <= i < |t.reversals| ==> CorrectionExists(t, t.reversals[i].correction))
  }

  /** At most one void of a punch is active. */
  ghost predicate VoidedOnce(t: Tables) {
    forall i, j :: 0 <= i < j < |t.corrections| && BothVoid(t.corrections[i], t.corrections[j]) ==>
      Reversed(t, t.corrections[i].id) || Reversed(t, t.corrections[j].id)
  }

  predicate BothVoid(c: Correction, d: Correction) {
    c.action == VoidEvent && d.action == VoidEvent && c.original.Some? && c.original == d.original
  }

  ghost predicate Inv(zone: Zone, t: Tables) {
    TablesOk(zone, t) && ReversedOnce(t) && VoidedOnce(t)
  }

  lemma EmptyIsOk(zone: Zone)
    requires Regular(zone)
    ensures Inv(zone, Tables([], [], []))
  {
  }

  lemma {:induction false} CorrectionFound(corrections: seq<Correction>, id: nat)
    ensures CorrectionOf(corrections, id).Some? ==>
        CorrectionOf(corrections, id).value in corrections && CorrectionOf(corrections, id).value.id == id
    ensures CorrectionOf(corrections, id) == None ==> forall c :: c in corrections ==> c.id != id
  {
    if corrections != [] {
      CorrectionFound(corrections[..|corrections| - 1], id);
      assert corrections == corrections[..|corrections| - 1] + [corrections[|corrections| - 1]];
    }
  }

  lemma IngestKeepsInv(zone: Zone, t: Tables, row: Row)
    requires Inv(zone, t)
    ensures Inv(zone, Do(zone, t, Ingest(row)))
  {
    var after := Do(zone, t, Ingest(row));
    assert RowsOk(zone, after.rows) by {
      forall i | 0 <= i < |after.rows| ensures RowOk(zone, after.rows[i]) {
        assert i < |t.rows| ==> RowOk(zone, t.rows[i]);
      }
    }
  }

  lemma ExistsGrows(t: Tables, c: Correction, id: nat)
    requires CorrectionExists(t, id)
    ensures CorrectionExists(t.(corrections := t.corrections + [c]), id)
  {
    var i :| 0 <= i < |t.corrections| && t.corrections[i].id == id;
    assert (t.corrections + [c])[i].id == id;
  }

  lemma NewCorrectionIsOk(zone: Zone, t: Tables, c: Correction)
    requires CorrectionsOk(t.corrections) && !CorrectionExists(t, c.id) && MayCorrect(zone, t, c)
    ensures CorrectionsOk(t.corrections + [c])
  {
    assert c.corrected.Some? ==> InRange(c.corrected.value.date);
    forall i | 0 <= i < |t.corrections| ensures t.corrections[i].id != c.id {
    }
  }

  lemma NewCorrectionIsUnreversed(t: Tables, c: Correction)
    requires ReversalsOk(t) && ReversedOnce(t) && !CorrectionExists(t, c.id)
    ensures ReversalsOk(t.(corrections := t.corrections + [c]))
  {
    forall r | r in t.reversals ensures r.correction != c.id {
      var i :| 0 <= i < |t.reversals| && t.reversals[i] == r;
      assert CorrectionExists(t, t.reversals[i].correction);
    }
  }

  lemma CorrectKeepsTables(zone: Zone, t: Tables, c: Correction)
    requires Inv(zone, t) && !CorrectionExists(t, c.id) && MayCorrect(zone, t, c)
    ensures TablesOk(zone, t.(corrections := t.corrections + [c]))
  {
    NewCorrectionIsOk(zone, t, c);
    NewCorrectionIsUnreversed(t, c);
  }

  lemma CorrectKeepsVoids(zone: Zone, t: Tables, c: Correction)
    requires Inv(zone, t) && MayCorrect(zone, t, c)
    ensures VoidedOnce(t.(corrections := t.corrections + [c]))
  {
    var after := t.(corrections := t.corrections + [c]);
    forall i, j | 0 <= i < j < |after.corrections| && BothVoid(after.corrections[i], after.corrections[j])
      ensures Reversed(after, after.corrections[i].id) || Reversed(after, after.corrections[j].id)
    {
      if j < |t.corrections| {
        assert BothVoid(t.corrections[i], t.corrections[j]);
        assert Reversed(t, t.corrections[i].id) || Reversed(t, t.corrections[j].id);
      } else {
        assert !ActivelyVoided(t, c.original.value);
        assert Reversed(t, t.corrections[i].id);
      }
    }
  }

  lemma CorrectKeepsInv(zone: Zone, t: Tables, c: Correction)
    requires Inv(zone, t)
    ensures Inv(zone, Do(zone, t, Correct(c)))
  {
    if !CorrectionExists(t, c.id) && MayCorrect(zone, t, c) {
      CorrectKeepsTables(zone, t, c);
      CorrectKeepsVoids(zone, t, c);
      forall i | 0 <= i < |t.reversals|
        ensures CorrectionExists(t.(corrections := t.corrections + [c]), t.reversals[i].correction)
      {
        ExistsGrows(t, c, t.reversals[i].correction);
      }
    }
  }

  lemma ReversedGrows(t: Tables, r: Reversal, id: nat)
    ensures Reversed(t.(reversals := t.reversals + [r]), id) <==> Reversed(t, id) || r.correction == id
  {
    var after := t.(reversals := t.reversals + [r]);
    assert after.reversals[|t.reversals|] == r;
    if i :| 0 <= i < |t.reversals| && t.reversals[i].correction == id {
      assert after.reversals[i].correction == id;
    }
  }

  lemma ReverseKeepsTables(zone: Zone, t: Tables, c: Correction, request: nat)
    requires Inv(zone, t) && c in t.corrections
    ensures TablesOk(zone, t.(reversals := t.reversals + [Reversal(c.id, c.date, request)]))
  {
    forall d | d in t.corrections && d.id == c.id ensures d.date == c.date {
      var i :| 0 <= i < |t.corrections| && t.corrections[i] == c;
      var j :| 0 <= j < |t.corrections| && t.corrections[j] == d;
    }
  }

  lemma ReverseKeepsInv(zone: Zone, t: Tables, id: nat, request: nat)
    requires Inv(zone, t)
    ensures Inv(zone, Do(zone, t, Reverse(id, request)))
  {
    var after := Do(zone, t, Reverse(id, request));
    var correction := CorrectionOf(t.corrections, id);
    if after != t {
      CorrectionFound(t.corrections, id);
      ReverseKeepsTables(zone, t, correction.value, request);
      var i :| 0 <= i < |t.corrections| && t.corrections[i] == correction.value;
      assert CorrectionExists(after, id);
      ReverseKeepsCounts(t, Reversal(id, correction.value.date, request));
    }
  }

  lemma ReverseKeepsCounts(t: Tables, r: Reversal)
    requires ReversedOnce(t) && VoidedOnce(t) && CorrectionExists(t, r.correction) && !Reversed(t, r.correction)
    ensures ReversedOnce(t.(reversals := t.reversals + [r])) && VoidedOnce(t.(reversals := t.reversals + [r]))
  {
    var after := t.(reversals := t.reversals + [r]);
    forall i | 0 <= i < |after.reversals| ensures CorrectionExists(after, after.reversals[i].correction) {
      assert CorrectionExists(t, after.reversals[i].correction);
    }
    forall i, j | 0 <= i < j < |t.corrections| && BothVoid(t.corrections[i], t.corrections[j])
      ensures Reversed(after, t.corrections[i].id) || Reversed(after, t.corrections[j].id)
    {
      ReversedGrows(t, r, t.corrections[i].id);
      ReversedGrows(t, r, t.corrections[j].id);
    }
  }

  lemma {:induction false} RunKeepsInv(zone: Zone, t: Tables, steps: seq<Step>)
    requires Inv(zone, t)
    ensures Inv(zone, Run(zone, t, steps))
  {
    if steps != [] {
      var before := Run(zone, t, steps[..|steps| - 1]);
      RunKeepsInv(zone, t, steps[..|steps| - 1]);
      match steps[|steps| - 1]
      case Ingest(row) => IngestKeepsInv(zone, before, row);
      case Correct(c) => CorrectKeepsInv(zone, before, c);
      case Reverse(id, request) => ReverseKeepsInv(zone, before, id, request);
    }
  }

  // ----- what every run guarantees -----

  function OfCorrection(id: nat): Reversal -> bool {
    (r: Reversal) => r.correction == id
  }

  lemma {:induction false} DifferentAtMostOne(reversals: seq<Reversal>, id: nat)
    requires forall i, j :: 0 <= i < j < |reversals| ==> reversals[i].correction != reversals[j].correction
    ensures |Filter(reversals, OfCorrection(id))| <= 1
    ensures |Filter(reversals, OfCorrection(id))| == 1 ==>
        exists i :: 0 <= i < |reversals| && reversals[i].correction == id
  {
    if reversals != [] {
      DifferentAtMostOne(reversals[..|reversals| - 1], id);
    }
  }

  /** No correction is ever reversed twice. */
  lemma ReversedAtMostOnce(zone: Zone, t: Tables, steps: seq<Step>, id: nat)
    requires Inv(zone, t)
    ensures TimesReversed(Run(zone, t, steps), id) <= 1
  {
    RunKeepsInv(zone, t, steps);
    var after := Run(zone, t, steps);
    DifferentAtMostOne(after.reversals, id);
    FilterAgrees(after.reversals, OfCorrection(id), (r: Reversal) => r.correction == id);
  }

  /** In every reachable state every date can be read, every range of dates can be read, and each
      date of the range gets what its own read gives. */
  lemma EveryReadSucceeds(zone: Zone, t: Tables, steps: seq<Step>, from: Date, to: Date, day: int)
    requires Inv(zone, t) && InRange(from) && InRange(to) && DayNumber(from) <= day <= DayNumber(to)
    ensures TablesOk(zone, Run(zone, t, steps)) && InRange(DateOfDay(day))
    ensures SingleDate(zone, Run(zone, t, steps), DateOfDay(day)).Some?
    ensures !SomeDateFails(zone, Run(zone, t, steps), from, to)
    ensures RangeRead(zone, Run(zone, t, steps), from, to, day) == SingleDate(zone, Run(zone, t, steps), DateOfDay(day))
  {
    RunKeepsInv(zone, t, steps);
    var after := Run(zone, t, steps);
    DateInside(from, to, day);
    forall c | c in after.corrections ensures TimesReversed(after, c.id) <= 1 {
      ReversedAtMostOnce(zone, t, steps, c.id);
    }
    SingleDateFailsIff(zone, after, DateOfDay(day));
    RangeFailsIff(zone, after, from, to);
    ActiveMeans(after, WithinDates(from, to));
    RangeAgrees(zone, after, from, to, day);
  }

  /** From empty tables on, whatever is ingested, corrected and reversed, no correction is reversed
      twice and every date and range can be read, a range giving each date its own read. */
  lemma EveryReadSucceedsFromTheStart(zone: Zone, steps: seq<Step>, id: nat, from: Date, to: Date, day: int)
    requires Regular(zone) && InRange(from) && InRange(to) && DayNumber(from) <= day <= DayNumber(to)
    ensures var t := Run(zone, Tables([], [], []), steps);
            && TablesOk(zone, t) && InRange(DateOfDay(day)) && TimesReversed(t, id) <= 1
            && SingleDate(zone, t, DateOfDay(day)).Some?
            && RangeRead(zone, t, from, to, day) == SingleDate(zone, t, DateOfDay(day))
  {
    EmptyIsOk(zone);
    ReversedAtMostOnce(zone, Tables([], [], []), steps, id);
    EveryReadSucceeds(zone, Tables([], [], []), steps, from, to, day);
  }
}
