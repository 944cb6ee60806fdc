/** The attendance of one worker on one date, read on its own. */
module WorkerReads {
  import opened Options
  import opened Events
  import opened Calendar
  import opened FactoryZone
  import opened SortKeys
  import opened EffectiveAttendance
  import opened EffectiveReads
  import opened CorrectionLog

  // ----- the read -----

  function RowOf(worker: nat): Row -> bool {
    (row: Row) => row.worker == worker
  }

  function CorrectionBy(worker: nat): Correction -> bool {
    (c: Correction) => c.worker == worker
  }

  function RecordBy(worker: nat): Record -> bool {
    (r: Record) => r.worker == worker
  }

  /** The scan returns only the worker's rows. */
  function ScanOf(worker: nat, start: string, end: string): Row -> bool {
    (row: Row) => Between(start, end)(row) && row.worker == worker
  }

  function CorrectionOn(worker: nat, d: Date): Correction -> bool {
    (c: Correction) => c.worker == worker && c.date == d
  }

  function WorkerRows(zone: Zone, rows: seq<Row>, worker: nat, d: Date): seq<Row>
    requires InRange(d)
  {
    KeysAround(d, d);
    Filter(Filter(rows, ScanOf(worker, Key(Shift(d, -1)), Key(Shift(d, 2)))), OnDay(zone, DayNumber(d)))
  }

  /** The reversals of each correction are looked up one by one, at most two of them. */
  function ActiveOneByOne(t: Tables, corrections: seq<Correction>): Option<seq<Correction>> {
    if exists c :: c in corrections && TimesReversed(t, c.id) > 1 then None
    else Some(Filter(corrections, NeverReversed(t)))
  }

  lemma WorkerRowsOk(zone: Zone, rows: seq<Row>, worker: nat, d: Date)
    requires RowsOk(zone, rows) && InRange(d)
    ensures RowsOk(zone, WorkerRows(zone, rows, worker, d))
  {
    KeysAround(d, d);
    var scan := ScanOf(worker, Key(Shift(d, -1)), Key(Shift(d, 2)));
    FilteredRowsOk(zone, rows, scan);
    FilteredRowsOk(zone, Filter(rows, scan), OnDay(zone, DayNumber(d)));
  }

  function WorkerDate(zone: Zone, t: Tables, worker: nat, d: Date): Option<seq<Record>>
    requires TablesOk(zone, t) && InRange(d)
  {
    WorkerRowsOk(zone, t.rows, worker, d);
    FilteredCorrectionsOk(t.corrections, CorrectionOn(worker, d));
    FilteredCorrectionsOk(Filter(t.corrections, CorrectionOn(worker, d)), NeverReversed(t));
    var active := ActiveOneByOne(t, Filter(t.corrections, CorrectionOn(worker, d)));
    if active == None then None
    else Some(ApplyCorrections(zone, SortRecords(RecordsOf(zone, WorkerRows(zone, t.rows, worker, d))), active.value))
  }

  // ----- the worker's own tables -----

  /** What the tables hold about the worker, with all reversals. */
  function Own(t: Tables, worker: nat): Tables {
    Tables(Filter(t.rows, RowOf(worker)), Filter(t.corrections, CorrectionBy(worker)), t.reversals)
  }

  lemma OwnIsOk(zone: Zone, t: Tables, worker: nat)
    requires TablesOk(zone, t)
    ensures TablesOk(zone, Own(t, worker))
  {
    FilteredRowsOk(zone, t.rows, RowOf(worker));
    FilteredCorrectionsOk(t.corrections, CorrectionBy(worker));
    FilterMembers(t.corrections, CorrectionBy(worker));
  }

  lemma OwnRows(zone: Zone, rows: seq<Row>, worker: nat, d: Date)
    requires InRange(d)
    ensures WorkerRows(zone, rows, worker, d) == RowsOn(zone, Filter(rows, RowOf(worker)), d)
  {
    KeysAround(d, d);
    OwnRowsBetween(zone, rows, worker, Key(Shift(d, -1)), Key(Shift(d, 2)), DayNumber(d));
  }

  lemma OwnRowsBetween(zone: Zone, rows: seq<Row>, worker: nat, start: string, end: string, day: int)
    ensures Filter(Filter(rows, ScanOf(worker, start, end)), OnDay(zone, day)) ==
            Filter(Filter(rows, RowOf(worker)), BetweenOnDay(zone, start, end, day))
  {
    var scan, onDay, own, between :=
      ScanOf(worker, start, end), OnDay(zone, day), RowOf(worker), BetweenOnDay(zone, start, end, day);
    var all: Row -> bool := (row: Row) => scan(row) && onDay(row);
    forall i | 0 <= i < |rows| ensures all(rows[i]) == (own(rows[i]) && between(rows[i])) {
      SameRows(zone, rows[i], worker, start, end, day);
    }
    FilterTwice(rows, scan, onDay, all);
    FilterTwice(rows, own, between, all);
  }

  lemma SameRows(zone: Zone, row: Row, worker: nat, start: string, end: string, day: int)
    ensures ScanOf(worker, start, end)(row) && OnDay(zone, day)(row) <==>
            RowOf(worker)(row) && BetweenOnDay(zone, start, end, day)(row)
  {
  }

  lemma OwnCorrections(t: Tables, worker: nat, d: Date)
    requires ReversalsOk(t)
    ensures ActiveOneByOne(t, Filter(t.corrections, CorrectionOn(worker, d))) ==
            ActiveCorrections(Filter(Own(t, worker).corrections, ForDate(d)), t.reversals)
  {
    var own := Own(t, worker);
    FilterMembers(t.corrections, CorrectionBy(worker));
    FilterTwice(t.corrections, CorrectionBy(worker), ForDate(d), CorrectionOn(worker, d));
    ActiveMeans(own, ForDate(d));
    TwiceIsTwice(own, d);
    FilterAgrees(Filter(t.corrections, CorrectionOn(worker, d)), NeverReversed(t), NeverReversed(own));
  }

  lemma TwiceIsTwice(t: Tables, d: Date)
    ensures TwiceReversed(t, ForDate(d)) <==>
            exists c :: c in Filter(t.corrections, ForDate(d)) && TimesReversed(t, c.id) > 1
  {
    FilterMembers(t.corrections, ForDate(d));
  }

  lemma WorkerDateIsOwn(zone: Zone, t: Tables, worker: nat, d: Date)
    requires TablesOk(zone, t) && InRange(d)
    ensures TablesOk(zone, Own(t, worker))
    ensures WorkerDate(zone, t, worker, d) == SingleDate(zone, Own(t, worker), d)
  {
    OwnIsOk(zone, t, worker);
    OwnRows(zone, t.rows, worker, d);
    OwnCorrections(t, worker, d);
  }

  // ----- the worker's share of the date -----

  /** A void of a punch is made for the punch's own worker. */
  ghost predicate VoidsAreOwn(t: Tables) {
    forall c, row :: c in t.corrections && row in t.rows && c.action == VoidEvent && c.original == Some(row.id) ==>
      c.worker == row.worker
  }

  lemma OwnVoids(t: Tables, worker: nat, d: Date, row: Row)
    requires VoidsAreOwn(t) && row in t.rows && row.worker == worker
    ensures IsVoided(Own(t, worker), d, row.id) <==> IsVoided(t, d, row.id)
  {
    FilterMembers(t.corrections, CorrectionBy(worker));
    if IsVoided(t, d, row.id) {
      var c :| c in t.corrections && c.date == d && TimesReversed(t, c.id) == 0
        && c.action == VoidEvent && c.original == Some(row.id);
      assert c in Own(t, worker).corrections && TimesReversed(Own(t, worker), c.id) == 0;
    }
    if IsVoided(Own(t, worker), d, row.id) {
      var c :| c in Own(t, worker).corrections && c.date == d && TimesReversed(Own(t, worker), c.id) == 0
        && c.action == VoidEvent && c.original == Some(row.id);
      assert c in t.corrections && TimesReversed(t, c.id) == 0;
    }
  }

  lemma OwnPunches(zone: Zone, t: Tables, worker: nat, d: Date, r: Record)
    requires Regular(zone) && VoidsAreOwn(t)
    ensures IsPunchOn(zone, Own(t, worker), d, r) <==> IsPunchOn(zone, t, d, r) && r.worker == worker
  {
    var own := Own(t, worker);
    FilterMembers(t.rows, RowOf(worker));
    if IsPunchOn(zone, own, d, r) {
      var i :| 0 <= i < |own.rows| && PunchAt(zone, own, d, r, own.rows[i]);
      OwnVoids(t, worker, d, own.rows[i]);
      var j :| 0 <= j < |t.rows| && t.rows[j] == own.rows[i];
      assert PunchAt(zone, t, d, r, t.rows[j]);
    }
    if IsPunchOn(zone, t, d, r) && r.worker == worker {
      var i :| 0 <= i < |t.rows| && PunchAt(zone, t, d, r, t.rows[i]);
      OwnVoids(t, worker, d, t.rows[i]);
      var j :| 0 <= j < |own.rows| && own.rows[j] == t.rows[i];
      assert PunchAt(zone, own, d, r, own.rows[j]);
    }
  }

  lemma OwnAdditions(zone: Zone, t: Tables, worker: nat, d: Date, r: Record)
    requires Regular(zone)
    ensures IsAdditionOn(zone, Own(t, worker), d, r) <==> IsAdditionOn(zone, t, d, r) && r.worker == worker
  {
    var own := Own(t, worker);
    FilterMembers(t.corrections, CorrectionBy(worker));
    if IsAdditionOn(zone, own, d, r) {
      var c :| c in own.corrections && c.date == d && TimesReversed(own, c.id) == 0 && IsAdd(c)
        && StampOk(c.corrected.value) && r == Added(zone, c);
      assert c in t.corrections && TimesReversed(t, c.id) == 0;
    }
    if IsAdditionOn(zone, t, d, r) && r.worker == worker {
      var c :| c in t.corrections && c.date == d && TimesReversed(t, c.id) == 0 && IsAdd(c)
        && StampOk(c.corrected.value) && r == Added(zone, c);
      assert c in own.corrections && TimesReversed(own, c.id) == 0;
    }
  }

  // ----- lists in order -----

  lemma {:induction false} FilterKeepsOrder(records: seq<Record>, keep: Record -> bool)
    requires InOrder(records)
    ensures InOrder(Filter(records, keep))
  {
    if records != [] {
      var front, last := records[..|records| - 1], records[|records| - 1];
      FilterKeepsOrder(front, keep);
      FilterMembers(front, keep);
      forall r | r in Filter(front, keep) ensures RecordBefore(r, last) {
        var i :| 0 <= i < |front| && front[i] == r;
        assert records[i] == r && records[|records| - 1] == last;
      }
    }
  }

  lemma LastIsGreatest(a: seq<Record>, r: Record)
    requires InOrder(a) && a != []
    ensures r in a[..|a| - 1] <==> r in a && r != a[|a| - 1]
    ensures r in a && r != a[|a| - 1] ==> RecordBefore(r, a[|a| - 1])
  {
    RecordBeforeTotal(r, r);
    if r in a {
      var i :| 0 <= i < |a| && a[i] == r;
      if i < |a| - 1 {
        assert a[..|a| - 1][i] == r && RecordBefore(a[i], a[|a| - 1]);
      }
    }
  }

  /** A list in order is determined by its members. */
  lemma {:induction false} OrderFollowsMembers(a: seq<Record>, b: seq<Record>)
    requires InOrder(a) && InOrder(b) && forall r :: r in a <==> r in b
    ensures a == b
  {
    assert b != [] ==> b[0] in b;
    if a != [] {
      assert a[|a| - 1] in a;
      SameLast(a, b);
      var front, rest := a[..|a| - 1], b[..|b| - 1];
      forall r ensures r in front <==> r in rest {
        LastIsGreatest(a, r);
        LastIsGreatest(b, r);
      }
      OrderFollowsMembers(front, rest);
      SameFrontAndLast(a, b);
    }
  }

  lemma SameLast(a: seq<Record>, b: seq<Record>)
    requires InOrder(a) && InOrder(b) && a != [] && b != [] && forall r :: r in a <==> r in b
    ensures a[|a| - 1] == b[|b| - 1]
  {
    var x, y := a[|a| - 1], b[|b| - 1];
    assert x in a && y in b;
    LastIsGreatest(a, y);
    LastIsGreatest(b, x);
    RecordBeforeTotal(x, y);
  }

  // ----- the two reads agree -----

  /** Reading one worker's date gives the worker's share of the whole date's read. */
  lemma WorkerDateIsShare(zone: Zone, t: Tables, worker: nat, d: Date)
    requires TablesOk(zone, t) && InRange(d) && VoidsAreOwn(t) && SingleDate(zone, t, d).Some?
    ensures WorkerDate(zone, t, worker, d) == Some(Filter(SingleDate(zone, t, d).value, RecordBy(worker)))
  {
    WorkerDateIsOwn(zone, t, worker, d);
    SingleDateMeans(zone, t, d);
    SingleDateMeans(zone, Own(t, worker), d);
    OwnIsReadable(t, worker, d);
    SharesAgree(zone, t, worker, d, SingleDate(zone, t, d).value, SingleDate(zone, Own(t, worker), d).value);
  }

  lemma SharesAgree(zone: Zone, t: Tables, worker: nat, d: Date, whole: seq<Record>, own: seq<Record>)
    requires Regular(zone) && VoidsAreOwn(t) && InOrder(whole) && InOrder(own)
    requires forall r :: r in whole <==> Effective(zone, t, d, r)
    requires forall r :: r in own <==> Effective(zone, Own(t, worker), d, r)
    ensures own == Filter(whole, RecordBy(worker))
  {
    FilterKeepsOrder(whole, RecordBy(worker));
    FilterMembers(whole, RecordBy(worker));
    forall r ensures r in own <==> r in Filter(whole, RecordBy(worker)) {
      OwnPunches(zone, t, worker, d, r);
      OwnAdditions(zone, t, worker, d, r);
    }
    OrderFollowsMembers(own, Filter(whole, RecordBy(worker)));
  }

  lemma OwnIsReadable(t: Tables, worker: nat, d: Date)
    requires !TwiceReversed(t, ForDate(d))
    ensures !TwiceReversed(Own(t, worker), ForDate(d))
  {
    FilterMembers(t.corrections, CorrectionBy(worker));
    forall c | c in Own(t, worker).corrections && ForDate(d)(c) ensures TimesReversed(Own(t, worker), c.id) <= 1 {
      assert TimesReversed(Own(t, worker), c.id) == TimesReversed(t, c.id);
    }
  }

  /** The worker's read fails exactly if one of the worker's corrections of the date was reversed more
      than once, so a correction of another worker never stands in its way. */
  lemma WorkerDateFailsIff(zone: Zone, t: Tables, worker: nat, d: Date)
    requires TablesOk(zone, t) && InRange(d)
    ensures WorkerDate(zone, t, worker, d) == None <==>
            exists c :: c in t.corrections && c.worker == worker && c.date == d && TimesReversed(t, c.id) > 1
  {
    FilterMembers(t.corrections, CorrectionOn(worker, d));
  }

  // ----- in every reachable state -----

  /** Every void names a punch of its own worker. */
  ghost predicate VoidsNameOwn(t: Tables) {
    forall c :: c in t.corrections && c.action == VoidEvent && c.original.Some? ==> NamesOwn(t.rows, c)
  }

  ghost predicate NamesOwn(rows: seq<Row>, c: Correction)
    requires c.original.Some?
  {
    exists i :: 0 <= i < |rows| && rows[i].id == c.original.value && rows[i].worker == c.worker
  }

  lemma NamedIsOwn(zone: Zone, t: Tables)
    requires TablesOk(zone, t) && VoidsNameOwn(t)
    ensures VoidsAreOwn(t)
  {
    forall c, row | c in t.corrections && row in t.rows && c.action == VoidEvent && c.original == Some(row.id)
      ensures c.worker == row.worker
    {
      assert NamesOwn(t.rows, c);
      var i :| 0 <= i < |t.rows| && t.rows[i].id == c.original.value && t.rows[i].worker == c.worker;
      var j :| 0 <= j < |t.rows| && t.rows[j] == row;
    }
  }

  lemma StepKeepsNames(zone: Zone, t: Tables, step: Step)
    requires VoidsNameOwn(t)
    ensures VoidsNameOwn(Do(zone, t, step))
  {
    var after := Do(zone, t, step);
    forall c | c in after.corrections && c.action == VoidEvent && c.original.Some? ensures NamesOwn(after.rows, c) {
      if c in t.corrections {
        assert NamesOwn(t.rows, c);
        var i :| 0 <= i < |t.rows| && t.rows[i].id == c.original.value && t.rows[i].worker == c.worker;
        assert after.rows[i] == t.rows[i];
      } else {
        assert MayCorrect(zone, t, c);
      }
    }
  }

  lemma {:induction false} RunKeepsNames(zone: Zone, t: Tables, steps: seq<Step>)
    requires VoidsNameOwn(t)
    ensures VoidsNameOwn(Run(zone, t, steps))
  {
    if steps != [] {
      RunKeepsNames(zone, t, steps[..|steps| - 1]);
      StepKeepsNames(zone, Run(zone, t, steps[..|steps| - 1]), steps[|steps| - 1]);
    }
  }

  /** From empty tables on, the read of one worker's date always succeeds and is the worker's share of
      the whole date's read. */
  lemma WorkerReadsAgree(zone: Zone, steps: seq<Step>, worker: nat, d: Date)
    requires Regular(zone) && InRange(d)
    ensures var t := Run(zone, Tables([], [], []), steps);
            && TablesOk(zone, t) && SingleDate(zone, t, d).Some?
            && WorkerDate(zone, t, worker, d) == Some(Filter(SingleDate(zone, t, d).value, RecordBy(worker)))
  {
    var t := Run(zone, Tables([], [], []), steps);
    DayNumberOrders(d, DateOfDay(DayNumber(d)));
    EveryReadSucceedsFromTheStart(zone, steps, 0, d, d, DayNumber(d));
    RunKeepsNames(zone, Tables([], [], []), steps);
    NamedIsOwn(zone, t);
    WorkerDateIsShare(zone, t, worker, d);
  }
}
