/** The two ways of reading effective attendance, and why they agree. */
module EffectiveReads {
  import opened Options
  import opened Events
  import opened Calendar
  import opened FactoryZone
  import opened SortKeys
  import opened EffectiveAttendance

  ghost predicate StampOk(s: Stamp) {
    Valid(s.date) ==> InRange(s.date)
  }

  ghost predicate StampsOk(rows: seq<Row>) {
    forall i :: 0 <= i < |rows| ==> StampOk(rows[i].stamp)
  }

  ghost predicate RowOk(zone: Zone, row: Row) {
    InRange(row.stamp.date) && Accepts(zone, row.stamp)
  }

  ghost predicate RowsOk(zone: Zone, rows: seq<Row>) {
    && StampsOk(rows) && (forall i :: 0 <= i < |rows| ==> RowOk(zone, rows[i]))
    && (forall i, j :: 0 <= i < j < |rows| ==> rows[i].id != rows[j].id)
  }

  ghost predicate CorrectionsOk(corrections: seq<Correction>) {
    && (forall c :: c in corrections ==> Valid(c.date) && FourDigitYear(c.date))
    && (forall c :: c in corrections ==> c.corrected.Some? ==> StampOk(c.corrected.value))
    && (forall i, j :: 0 <= i < j < |corrections| ==> corrections[i].id != corrections[j].id)
  }

  /** A reversal carries its correction's date. */
  ghost predicate ReversalsOk(t: Tables) {
    forall r, c :: r in t.reversals && c in t.corrections && r.correction == c.id ==> r.date == c.date
  }

  /** Punches were accepted by ingest, and ids are unique. */
  ghost predicate TablesOk(zone: Zone, t: Tables) {
    Regular(zone) && RowsOk(zone, t.rows) && CorrectionsOk(t.corrections) && ReversalsOk(t)
  }

  // ----- punches -----

  function RecordOf(zone: Zone, row: Row): Record
    requires Regular(zone) && StampOk(row.stamp)
  {
    Record(Scanned(row.id), row.worker, row.kind, row.stamp, SortKey(zone, row.stamp))
  }

  function RecordsOf(zone: Zone, rows: seq<Row>): seq<Record>
    requires Regular(zone) && StampsOk(rows)
  {
    seq(|rows|, i requires 0 <= i < |rows| => RecordOf(zone, rows[i]))
  }

  /** The rows between two date keys, as the timestamp index returns them. */
  function Between(start: string, end: string): Row -> bool {
    (row: Row) => Valid(row.stamp.date) && FourDigitYear(row.stamp.date) && InScan(row, start, end)
  }

  function OnDay(zone: Zone, day: int): Row -> bool {
    (row: Row) => FactoryDay(zone, row.stamp) == Some(day)
  }

  function BetweenOnDay(zone: Zone, start: string, end: string, day: int): Row -> bool {
    (row: Row) => Between(start, end)(row) && OnDay(zone, day)(row)
  }

  lemma {:induction false} FilteredRowsOk(zone: Zone, rows: seq<Row>, keep: Row -> bool)
    requires RowsOk(zone, rows)
    ensures RowsOk(zone, Filter(rows, keep))
  {
    FilterMembers(rows, keep);
    if rows != [] {
      var front := rows[..|rows| - 1];
      FilteredRowsOk(zone, front, keep);
      FilterMembers(front, keep);
      var kept := Filter(front, keep);
      forall i | 0 <= i < |kept| ensures kept[i].id != rows[|rows| - 1].id {
        assert kept[i] in front;
      }
    }
  }

  lemma KeysAround(from: Date, to: Date)
    requires InRange(from) && InRange(to)
    ensures Valid(Shift(from, -1)) && FourDigitYear(Shift(from, -1))
    ensures Valid(Shift(to, 2)) && FourDigitYear(Shift(to, 2))
  {
    ShiftStaysInFourDigits(from, -1);
    ShiftStaysInFourDigits(to, 2);
  }

  /** A date's punches: the scan around the date, cut down to the date itself. */
  function RowsOn(zone: Zone, rows: seq<Row>, d: Date): seq<Row>
    requires InRange(d)
  {
    KeysAround(d, d);
    Filter(rows, BetweenOnDay(zone, Key(Shift(d, -1)), Key(Shift(d, 2)), DayNumber(d)))
  }

  /** Every punch of the date is found, and a wider scan finds them as well. */
  lemma ScanIsComplete(zone: Zone, rows: seq<Row>, from: Date, to: Date, d: Date)
    requires Regular(zone) && RowsOk(zone, rows) && InRange(from) && InRange(to) && InRange(d)
    requires DayNumber(from) <= DayNumber(d) <= DayNumber(to)
    ensures Valid(Shift(from, -1)) && FourDigitYear(Shift(from, -1))
    ensures Valid(Shift(to, 2)) && FourDigitYear(Shift(to, 2))
    ensures RowsOn(zone, rows, d) == Filter(rows, OnDay(zone, DayNumber(d)))
    ensures Filter(Filter(rows, Between(Key(Shift(from, -1)), Key(Shift(to, 2)))), OnDay(zone, DayNumber(d)))
         == Filter(rows, OnDay(zone, DayNumber(d)))
  {
    KeysAround(from, to);
    KeysAround(d, d);
    var start, end := Key(Shift(from, -1)), Key(Shift(to, 2));
    var day := DayNumber(d);
    forall i | 0 <= i < |rows| && OnDay(zone, day)(rows[i])
      ensures Between(start, end)(rows[i]) && BetweenOnDay(zone, Key(Shift(d, -1)), Key(Shift(d, 2)), day)(rows[i])
    {
      assert RowOk(zone, rows[i]);
      AcceptedSortsInWindow(zone, rows[i], from, to);
      AcceptedSortsInWindow(zone, rows[i], d, d);
    }
    FilterAgrees(rows, BetweenOnDay(zone, Key(Shift(d, -1)), Key(Shift(d, 2)), day), OnDay(zone, day));
    FilterTwice(rows, Between(start, end), OnDay(zone, day), OnDay(zone, day));
  }

  // ----- corrections -----

  function Dates(corrections: seq<Correction>): set<Date> {
    set c | c in corrections :: c.date
  }

  function ReversalsIn(dates: set<Date>, id: nat): Reversal -> bool {
    (r: Reversal) => r.correction == id && r.date in dates
  }

  /** Reversals are read by the dates of the corrections at hand. */
  function CountReversals(reversals: seq<Reversal>, dates: set<Date>, id: nat): nat {
    |Filter(reversals, ReversalsIn(dates, id))|
  }

  function Unreversed(reversals: seq<Reversal>, dates: set<Date>): Correction -> bool {
    (c: Correction) => CountReversals(reversals, dates, c.id) == 0
  }

  /** The corrections still in force; a correction reversed twice makes the read fail. */
  function ActiveCorrections(corrections: seq<Correction>, reversals: seq<Reversal>): Option<seq<Correction>> {
    if exists c :: c in corrections && CountReversals(reversals, Dates(corrections), c.id) > 1 then None
    else Some(Filter(corrections, Unreversed(reversals, Dates(corrections))))
  }

  function ForDate(d: Date): Correction -> bool {
    (c: Correction) => c.date == d
  }

  function WithinDates(from: Date, to: Date): Correction -> bool
    requires Valid(from) && FourDigitYear(from) && Valid(to) && FourDigitYear(to)
  {
    (c: Correction) =>
      Valid(c.date) && FourDigitYear(c.date) && !Less(Key(c.date), Key(from)) && !Less(Key(to), Key(c.date))
  }

  /** All reversals of a correction, whatever their date. */
  function TimesReversed(t: Tables, id: nat): nat {
    |Filter(t.reversals, (r: Reversal) => r.correction == id)|
  }

  lemma CountIsTimesReversed(t: Tables, dates: set<Date>, c: Correction)
    requires ReversalsOk(t) && c in t.corrections && c.date in dates
    ensures CountReversals(t.reversals, dates, c.id) == TimesReversed(t, c.id)
  {
    FilterAgrees(t.reversals, ReversalsIn(dates, c.id), (r: Reversal) => r.correction == c.id);
  }

  /** Corrections taken from the table are in force if they were never reversed; reading them fails
      exactly when one of them was reversed more than once. */
  lemma ActiveMeans(t: Tables, keep: Correction -> bool)
    requires ReversalsOk(t)
    ensures var read := Filter(t.corrections, keep);
            && (ActiveCorrections(read, t.reversals) == None <==> TwiceReversed(t, keep))
            && (ActiveCorrections(read, t.reversals).Some? ==>
                  ActiveCorrections(read, t.reversals).value == Filter(read, NeverReversed(t)))
  {
    var read := Filter(t.corrections, keep);
    FilterMembers(t.corrections, keep);
    forall c | c in read ensures CountReversals(t.reversals, Dates(read), c.id) == TimesReversed(t, c.id) {
      CountIsTimesReversed(t, Dates(read), c);
    }
    FilterAgrees(read, Unreversed(t.reversals, Dates(read)), NeverReversed(t));
    if TwiceReversed(t, keep) {
      var c :| c in t.corrections && keep(c) && TimesReversed(t, c.id) > 1;
      assert c in read;
    }
  }

  function NeverReversed(t: Tables): Correction -> bool {
    (c: Correction) => TimesReversed(t, c.id) == 0
  }

  ghost predicate TwiceReversed(t: Tables, keep: Correction -> bool) {
    exists c :: c in t.corrections && keep(c) && TimesReversed(t, c.id) > 1
  }

  lemma WithinDatesMeans(from: Date, to: Date, c: Correction)
    requires Valid(from) && FourDigitYear(from) && Valid(to) && FourDigitYear(to)
    requires Valid(c.date) && FourDigitYear(c.date)
    ensures WithinDates(from, to)(c) <==> DayNumber(from) <= DayNumber(c.date) <= DayNumber(to)
  {
    KeyOrder(c.date, from);
    KeyOrder(to, c.date);
  }

  /** A date's share of the corrections that the range read finds is what its own read finds. */
  lemma ActiveOfDate(t: Tables, from: Date, to: Date, d: Date)
    requires CorrectionsOk(t.corrections) && ReversalsOk(t)
    requires Valid(from) && FourDigitYear(from) && Valid(to) && FourDigitYear(to) && Valid(d)
    requires DayNumber(from) <= DayNumber(d) <= DayNumber(to)
    requires ActiveCorrections(Filter(t.corrections, WithinDates(from, to)), t.reversals).Some?
    ensures ActiveCorrections(Filter(t.corrections, ForDate(d)), t.reversals) ==
      Some(Filter(ActiveCorrections(Filter(t.corrections, WithinDates(from, to)), t.reversals).value, ForDate(d)))
  {
    var within := WithinDates(from, to);
    ActiveMeans(t, within);
    ActiveMeans(t, ForDate(d));
    forall c | c in t.corrections && c.date == d ensures within(c) {
      WithinDatesMeans(from, to, c);
    }
    var both: Correction -> bool := (c: Correction) => c.date == d && NeverReversed(t)(c);
    var inForce: Correction -> bool := (c: Correction) => within(c) && NeverReversed(t)(c);
    FilterTwice(t.corrections, ForDate(d), NeverReversed(t), both);
    FilterTwice(t.corrections, within, NeverReversed(t), inForce);
    FilterTwice(t.corrections, inForce, ForDate(d), both);
  }

  // ----- applying corrections -----

  predicate IsAdd(c: Correction) {
    c.action != VoidEvent && c.corrected.Some? && c.kind.Some?
  }

  function Voided(active: seq<Correction>): set<nat> {
    set c | c in active && c.action == VoidEvent && c.original.Some? :: c.original.value
  }

  function Kept(voided: set<nat>): Record -> bool {
    (r: Record) => !(r.id.Scanned? && r.id.id in voided)
  }

  function Added(zone: Zone, c: Correction): Record
    requires Regular(zone) && IsAdd(c) && StampOk(c.corrected.value)
  {
    Record(Corrected(c.id), c.worker, c.kind.value, c.corrected.value, SortKey(zone, c.corrected.value))
  }

  function Additions(zone: Zone, active: seq<Correction>): seq<Record>
    requires Regular(zone) && CorrectionsOk(active)
  {
    if active == [] then []
    else
      Additions(zone, active[..|active| - 1])
      + (if IsAdd(active[|active| - 1]) then [Added(zone, active[|active| - 1])] else [])
  }

  function ApplyCorrections(zone: Zone, raw: seq<Record>, active: seq<Correction>): seq<Record>
    requires Regular(zone) && CorrectionsOk(active)
  {
    SortRecords(Filter(raw, Kept(Voided(active))) + Additions(zone, active))
  }

  lemma {:induction false} FilteredCorrectionsOk(corrections: seq<Correction>, keep: Correction -> bool)
    requires CorrectionsOk(corrections)
    ensures CorrectionsOk(Filter(corrections, keep))
  {
    FilterMembers(corrections, keep);
    if corrections != [] {
      var front := corrections[..|corrections| - 1];
      FilteredCorrectionsOk(front, keep);
      FilterMembers(front, keep);
      var kept := Filter(front, keep);
      forall i | 0 <= i < |kept| ensures kept[i].id != corrections[|corrections| - 1].id {
        assert kept[i] in front;
      }
    }
  }

  lemma ActiveOk(corrections: seq<Correction>, reversals: seq<Reversal>)
    requires CorrectionsOk(corrections)
    ensures ActiveCorrections(corrections, reversals).Some? ==>
        CorrectionsOk(ActiveCorrections(corrections, reversals).value)
  {
    FilteredCorrectionsOk(corrections, Unreversed(reversals, Dates(corrections)));
  }

  ghost predicate AddedBy(zone: Zone, active: seq<Correction>, r: Record)
    requires Regular(zone) && CorrectionsOk(active)
  {
    exists c :: c in active && IsAdd(c) && r == Added(zone, c)
  }

  lemma AddedByOneMore(zone: Zone, active: seq<Correction>, last: Correction, r: Record)
    requires Regular(zone) && CorrectionsOk(active) && CorrectionsOk(active + [last])
    ensures AddedBy(zone, active + [last], r) <==> AddedBy(zone, active, r) || (IsAdd(last) && r == Added(zone, last))
  {
    var all := active + [last];
    assert last in all;
    if c :| c in active && IsAdd(c) && r == Added(zone, c) {
      assert c in all;
    }
  }

  lemma {:induction false} AdditionsMembers(zone: Zone, active: seq<Correction>, r: Record)
    requires Regular(zone) && CorrectionsOk(active)
    ensures r in Additions(zone, active) <==> AddedBy(zone, active, r)
  {
    if active != [] {
      var front, last := active[..|active| - 1], active[|active| - 1];
      AdditionsMembers(zone, front, r);
      assert active == front + [last];
      AddedByOneMore(zone, front, last, r);
    }
  }

  lemma {:induction false} AdditionsDiffer(zone: Zone, active: seq<Correction>)
    requires Regular(zone) && CorrectionsOk(active)
    ensures IdsDiffer(multiset(Additions(zone, active)))
  {
    if active != [] {
      var front, last := active[..|active| - 1], active[|active| - 1];
      AdditionsDiffer(zone, front);
      if IsAdd(last) {
        forall r: Record | r in multiset(Additions(zone, front)) ensures r.id != Corrected(last.id) {
          AdditionsMembers(zone, front, r);
        }
      }
    }
  }

  lemma OneMoreDiffers(records: multiset<Record>, r: Record)
    requires IdsDiffer(records) && forall x :: x in records ==> x.id != r.id
    ensures IdsDiffer(records + multiset{r})
  {
  }

  lemma RecordIdsAreRows(zone: Zone, rows: seq<Row>, id: nat)
    requires Regular(zone) && RowsOk(zone, rows) && forall i :: 0 <= i < |rows| ==> rows[i].id != id
    ensures forall r :: r in multiset(RecordsOf(zone, rows)) ==> r.id != Scanned(id)
  {
    forall r | r in multiset(RecordsOf(zone, rows)) ensures r.id != Scanned(id) {
      var i :| 0 <= i < |rows| && RecordsOf(zone, rows)[i] == r;
    }
  }

  lemma RecordsGrow(zone: Zone, rows: seq<Row>, row: Row)
    requires Regular(zone) && StampsOk(rows) && StampOk(row.stamp)
    ensures RecordsOf(zone, rows + [row]) == RecordsOf(zone, rows) + [RecordOf(zone, row)]
  {
  }

  lemma RecordsDifferMore(zone: Zone, rows: seq<Row>, row: Row)
    requires Regular(zone) && StampsOk(rows) && StampOk(row.stamp)
    requires IdsDiffer(multiset(RecordsOf(zone, rows)))
    requires forall r :: r in multiset(RecordsOf(zone, rows)) ==> r.id != Scanned(row.id)
    ensures StampsOk(rows + [row]) && IdsDiffer(multiset(RecordsOf(zone, rows + [row])))
  {
    RecordsGrow(zone, rows, row);
    OneMoreDiffers(multiset(RecordsOf(zone, rows)), RecordOf(zone, row));
  }

  lemma FrontIsOk(zone: Zone, rows: seq<Row>)
    requires RowsOk(zone, rows) && rows != []
    ensures var front, last := rows[..|rows| - 1], rows[|rows| - 1];
            && RowsOk(zone, front) && StampOk(last.stamp) && front + [last] == rows
            && (forall i :: 0 <= i < |front| ==> front[i].id != last.id)
  {
    assert RowOk(zone, rows[|rows| - 1]);
  }

  lemma {:induction false} RecordsDiffer(zone: Zone, rows: seq<Row>)
    requires Regular(zone) && RowsOk(zone, rows)
    ensures IdsDiffer(multiset(RecordsOf(zone, rows)))
  {
    if rows != [] {
      var front, last := rows[..|rows| - 1], rows[|rows| - 1];
      FrontIsOk(zone, rows);
      RecordsDiffer(zone, front);
      RecordIdsAreRows(zone, front, last.id);
      RecordsDifferMore(zone, front, last);
    }
  }

  lemma FilterDiffers(records: seq<Record>, keep: Record -> bool)
    requires IdsDiffer(multiset(records)) && forall r :: r in records ==> r.id.Scanned?
    ensures IdsDiffer(multiset(Filter(records, keep)))
    ensures forall r :: r in multiset(Filter(records, keep)) ==> r.id.Scanned?
  {
    forall r ensures multiset(Filter(records, keep))[r] <= multiset(records)[r] {
      FilterCount(records, keep, r);
    }
    FilterMembers(records, keep);
  }

  /** What is sorted in the end has distinct ids. */
  lemma EffectiveDiffer(zone: Zone, rows: seq<Row>, active: seq<Correction>)
    requires Regular(zone) && RowsOk(zone, rows) && CorrectionsOk(active)
    ensures IdsDiffer(multiset(Filter(RecordsOf(zone, rows), Kept(Voided(active))) + Additions(zone, active)))
  {
    RecordsDiffer(zone, rows);
    AdditionsDiffer(zone, active);
    AdditionsAreCorrected(zone, active);
    RecordsArePunches(zone, rows);
    FilterDiffers(RecordsOf(zone, rows), Kept(Voided(active)));
    PartsDiffer(Filter(RecordsOf(zone, rows), Kept(Voided(active))), Additions(zone, active));
  }

  lemma RecordsArePunches(zone: Zone, rows: seq<Row>)
    requires Regular(zone) && StampsOk(rows)
    ensures forall r :: r in RecordsOf(zone, rows) ==> r.id.Scanned?
  {
  }

  lemma AdditionsAreCorrected(zone: Zone, active: seq<Correction>)
    requires Regular(zone) && CorrectionsOk(active)
    ensures forall r :: r in multiset(Additions(zone, active)) ==> r.id.Corrected?
  {
    forall r: Record | r in multiset(Additions(zone, active)) ensures r.id.Corrected? {
      AdditionsMembers(zone, active, r);
    }
  }

  lemma PartsDiffer(kept: seq<Record>, added: seq<Record>)
    requires IdsDiffer(multiset(kept)) && IdsDiffer(multiset(added))
    requires forall r :: r in multiset(kept) ==> r.id.Scanned?
    requires forall r :: r in multiset(added) ==> r.id.Corrected?
    ensures IdsDiffer(multiset(kept + added))
  {
    DisjointDiffer(multiset(kept), multiset(added));
    assert multiset(kept + added) == multiset(kept) + multiset(added);
  }

  lemma DisjointDiffer(a: multiset<Record>, b: multiset<Record>)
    requires IdsDiffer(a) && IdsDiffer(b)
    requires (forall r :: r in a ==> r.id.Scanned?) && (forall r :: r in b ==> r.id.Corrected?)
    ensures IdsDiffer(a + b)
  {
  }

  /** Whether the punches are sorted before corrections are applied makes no difference. */
  lemma ApplyIgnoresOrder(zone: Zone, rows: seq<Row>, active: seq<Correction>)
    requires Regular(zone) && RowsOk(zone, rows) && CorrectionsOk(active)
    ensures ApplyCorrections(zone, SortRecords(RecordsOf(zone, rows)), active)
         == ApplyCorrections(zone, RecordsOf(zone, rows), active)
  {
    var raw, keep := RecordsOf(zone, rows), Kept(Voided(active));
    SortKeepsRecords(raw);
    forall r ensures multiset(Filter(SortRecords(raw), keep))[r] == multiset(Filter(raw, keep))[r] {
      FilterCount(raw, keep, r);
      FilterCount(SortRecords(raw), keep, r);
    }
    assert multiset(Filter(SortRecords(raw), keep)) == multiset(Filter(raw, keep));
    EffectiveDiffer(zone, rows, active);
    SortIgnoresOrder(Filter(raw, keep) + Additions(zone, active),
                     Filter(SortRecords(raw), keep) + Additions(zone, active));
  }

  // ----- one date -----

  lemma RowsOnOk(zone: Zone, rows: seq<Row>, d: Date)
    requires RowsOk(zone, rows) && InRange(d)
    ensures RowsOk(zone, RowsOn(zone, rows, d))
  {
    KeysAround(d, d);
    FilteredRowsOk(zone, rows, BetweenOnDay(zone, Key(Shift(d, -1)), Key(Shift(d, 2)), DayNumber(d)));
  }

  function SingleDate(zone: Zone, t: Tables, d: Date): Option<seq<Record>>
    requires TablesOk(zone, t) && InRange(d)
  {
    RowsOnOk(zone, t.rows, d);
    FilteredCorrectionsOk(t.corrections, ForDate(d));
    ActiveOk(Filter(t.corrections, ForDate(d)), t.reversals);
    var active := ActiveCorrections(Filter(t.corrections, ForDate(d)), t.reversals);
    if active == None then None
    else Some(ApplyCorrections(zone, SortRecords(RecordsOf(zone, RowsOn(zone, t.rows, d))), active.value))
  }

  /** An active correction of the date voids this punch. */
  ghost predicate IsVoided(t: Tables, d: Date, id: nat) {
    exists c :: c in t.corrections && c.date == d && TimesReversed(t, c.id) == 0
      && c.action == VoidEvent && c.original == Some(id)
  }

  ghost predicate IsPunchOn(zone: Zone, t: Tables, d: Date, r: Record)
    requires Regular(zone)
  {
    exists i :: 0 <= i < |t.rows| && PunchAt(zone, t, d, r, t.rows[i])
  }

  ghost predicate PunchAt(zone: Zone, t: Tables, d: Date, r: Record, row: Row)
    requires Regular(zone)
  {
    && StampOk(row.stamp) && r == RecordOf(zone, row)
    && FactoryDay(zone, row.stamp) == Some(DayNumber(d)) && !IsVoided(t, d, row.id)
  }

  ghost predicate IsAdditionOn(zone: Zone, t: Tables, d: Date, r: Record)
    requires Regular(zone)
  {
    exists c :: c in t.corrections && c.date == d && TimesReversed(t, c.id) == 0 && IsAdd(c)
      && StampOk(c.corrected.value) && r == Added(zone, c)
  }

  lemma VoidedMeans(t: Tables, d: Date, active: seq<Correction>, id: nat)
    requires CorrectionsOk(t.corrections) && ReversalsOk(t)
    requires ActiveCorrections(Filter(t.corrections, ForDate(d)), t.reversals) == Some(active)
    ensures forall c :: c in active <==> c in t.corrections && c.date == d && TimesReversed(t, c.id) == 0
    ensures id in Voided(active) <==> IsVoided(t, d, id)
  {
    ActiveMeans(t, ForDate(d));
    FilterMembers(t.corrections, ForDate(d));
    FilterMembers(Filter(t.corrections, ForDate(d)), NeverReversed(t));
  }

  lemma RowsOnMembers(zone: Zone, rows: seq<Row>, d: Date)
    requires Regular(zone) && RowsOk(zone, rows) && InRange(d)
    ensures RowsOk(zone, RowsOn(zone, rows, d))
    ensures forall row :: row in RowsOn(zone, rows, d) <==> row in rows && OnDay(zone, DayNumber(d))(row)
  {
    ScanIsComplete(zone, rows, d, d, d);
    FilteredRowsOk(zone, rows, OnDay(zone, DayNumber(d)));
    FilterMembers(rows, OnDay(zone, DayNumber(d)));
  }

  lemma RecordIn(zone: Zone, rows: seq<Row>, row: Row)
    requires Regular(zone) && StampsOk(rows) && row in rows
    ensures StampOk(row.stamp) && RecordOf(zone, row) in RecordsOf(zone, rows)
  {
    var i :| 0 <= i < |rows| && rows[i] == row;
    assert RecordsOf(zone, rows)[i] == RecordOf(zone, row);
  }

  lemma RecordFrom(zone: Zone, rows: seq<Row>, r: Record) returns (row: Row)
    requires Regular(zone) && StampsOk(rows) && r in RecordsOf(zone, rows)
    ensures row in rows && StampOk(row.stamp) && r == RecordOf(zone, row)
  {
    var i :| 0 <= i < |rows| && RecordsOf(zone, rows)[i] == r;
    row := rows[i];
  }

  lemma PunchIsKept(zone: Zone, t: Tables, d: Date, rows: seq<Row>, active: seq<Correction>, r: Record)
    requires Regular(zone) && StampsOk(rows) && IsPunchOn(zone, t, d, r)
    requires forall row :: row in rows <==> row in t.rows && OnDay(zone, DayNumber(d))(row)
    requires forall id :: id in Voided(active) <==> IsVoided(t, d, id)
    ensures r in Filter(RecordsOf(zone, rows), Kept(Voided(active)))
  {
    var i :| 0 <= i < |t.rows| && PunchAt(zone, t, d, r, t.rows[i]);
    RecordIn(zone, rows, t.rows[i]);
    FilterMembers(RecordsOf(zone, rows), Kept(Voided(active)));
  }

  lemma KeptIsPunch(zone: Zone, t: Tables, d: Date, rows: seq<Row>, active: seq<Correction>, r: Record)
    requires Regular(zone) && StampsOk(rows) && r in Filter(RecordsOf(zone, rows), Kept(Voided(active)))
    requires forall row :: row in rows <==> row in t.rows && OnDay(zone, DayNumber(d))(row)
    requires forall id :: id in Voided(active) <==> IsVoided(t, d, id)
    ensures IsPunchOn(zone, t, d, r)
  {
    FilterMembers(RecordsOf(zone, rows), Kept(Voided(active)));
    var row := RecordFrom(zone, rows, r);
    var i :| 0 <= i < |t.rows| && t.rows[i] == row;
    assert PunchAt(zone, t, d, r, t.rows[i]);
  }

  ghost predicate Effective(zone: Zone, t: Tables, d: Date, r: Record)
    requires Regular(zone)
  {
    IsPunchOn(zone, t, d, r) || IsAdditionOn(zone, t, d, r)
  }

  lemma PartsAreEffective(zone: Zone, t: Tables, d: Date, active: seq<Correction>, r: Record)
    requires TablesOk(zone, t) && InRange(d) && CorrectionsOk(active)
    requires ActiveCorrections(Filter(t.corrections, ForDate(d)), t.reversals) == Some(active)
    requires RowsOk(zone, RowsOn(zone, t.rows, d))
    ensures r in Filter(RecordsOf(zone, RowsOn(zone, t.rows, d)), Kept(Voided(active))) + Additions(zone, active)
       <==> Effective(zone, t, d, r)
  {
    RowsOnMembers(zone, t.rows, d);
    forall id ensures id in Voided(active) <==> IsVoided(t, d, id) {
      VoidedMeans(t, d, active, id);
    }
    VoidedMeans(t, d, active, 0);
    if IsPunchOn(zone, t, d, r) {
      PunchIsKept(zone, t, d, RowsOn(zone, t.rows, d), active, r);
    }
    if r in Filter(RecordsOf(zone, RowsOn(zone, t.rows, d)), Kept(Voided(active))) {
      KeptIsPunch(zone, t, d, RowsOn(zone, t.rows, d), active, r);
    }
    AdditionsMembers(zone, active, r);
  }

  lemma SingleDateFailsIff(zone: Zone, t: Tables, d: Date)
    requires TablesOk(zone, t) && InRange(d)
    ensures SingleDate(zone, t, d) == None <==> TwiceReversed(t, ForDate(d))
  {
    ActiveMeans(t, ForDate(d));
  }

  /** A date's effective attendance is its punches less the voided ones plus the added ones, with
      reversed corrections left out, in the order of their exact instants.  It fails exactly when
      one of the date's corrections was reversed more than once. */
  lemma SingleDateMeans(zone: Zone, t: Tables, d: Date)
    requires TablesOk(zone, t) && InRange(d)
    ensures SingleDate(zone, t, d) == None <==> TwiceReversed(t, ForDate(d))
    ensures SingleDate(zone, t, d).Some? ==>
        var records := SingleDate(zone, t, d).value;
        InOrder(records) && forall r :: r in records <==> Effective(zone, t, d, r)
  {
    SingleDateFailsIff(zone, t, d);
    if SingleDate(zone, t, d).Some? {
      SingleDateRecords(zone, t, d);
    }
  }

  lemma SingleDateIsSorted(zone: Zone, t: Tables, d: Date, active: seq<Correction>)
    requires TablesOk(zone, t) && InRange(d)
    requires ActiveCorrections(Filter(t.corrections, ForDate(d)), t.reversals) == Some(active)
    ensures RowsOk(zone, RowsOn(zone, t.rows, d)) && CorrectionsOk(active)
    ensures SingleDate(zone, t, d) ==
      Some(SortRecords(
        Filter(RecordsOf(zone, RowsOn(zone, t.rows, d)), Kept(Voided(active))) + Additions(zone, active)))
  {
    RowsOnMembers(zone, t.rows, d);
    FilteredCorrectionsOk(t.corrections, ForDate(d));
    ActiveOk(Filter(t.corrections, ForDate(d)), t.reversals);
    ApplyIgnoresOrder(zone, RowsOn(zone, t.rows, d), active);
  }

  lemma SortedMeans(parts: seq<Record>, r: Record)
    ensures r in SortRecords(parts) <==> r in parts
  {
    SortKeepsRecords(parts);
    SameMembers(SortRecords(parts), parts, r);
  }

  lemma SingleDateRecords(zone: Zone, t: Tables, d: Date)
    requires TablesOk(zone, t) && InRange(d) && SingleDate(zone, t, d).Some?
    ensures var records := SingleDate(zone, t, d).value;
        InOrder(records) && forall r :: r in records <==> Effective(zone, t, d, r)
  {
    var rows := RowsOn(zone, t.rows, d);
    var active := ActiveCorrections(Filter(t.corrections, ForDate(d)), t.reversals).value;
    SingleDateIsSorted(zone, t, d, active);
    EffectiveDiffer(zone, rows, active);
    var parts := Filter(RecordsOf(zone, rows), Kept(Voided(active))) + Additions(zone, active);
    SortOrders(parts);
    forall r ensures r in SortRecords(parts) <==> Effective(zone, t, d, r) {
      SortedMeans(parts, r);
      PartsAreEffective(zone, t, d, active, r);
    }
  }

  // ----- a range of dates -----

  lemma DateInside(from: Date, to: Date, day: int)
    requires InRange(from) && InRange(to) && DayNumber(from) <= day <= DayNumber(to)
    ensures InRange(DateOfDay(day))
  {
    DayNumberOrders(from, DateOfDay(day));
    DayNumberOrders(DateOfDay(day), to);
  }

  /** What the range read gives for one of its dates. */
  function RangeRead(zone: Zone, t: Tables, from: Date, to: Date, day: int): Option<seq<Record>>
    requires TablesOk(zone, t) && InRange(from) && InRange(to)
  {
    KeysAround(from, to);
    var scanned := Filter(t.rows, Between(Key(Shift(from, -1)), Key(Shift(to, 2))));
    var active := ActiveCorrections(Filter(t.corrections, WithinDates(from, to)), t.reversals);
    if active == None then None
    else
      FilteredRowsOk(zone, t.rows, Between(Key(Shift(from, -1)), Key(Shift(to, 2))));
      FilteredRowsOk(zone, scanned, OnDay(zone, day));
      FilteredCorrectionsOk(t.corrections, WithinDates(from, to));
      ActiveOk(Filter(t.corrections, WithinDates(from, to)), t.reversals);
      FilteredCorrectionsOk(active.value, ForDate(DateOfDay(day)));
      Some(ApplyCorrections(zone, RecordsOf(zone, Filter(scanned, OnDay(zone, day))),
                            Filter(active.value, ForDate(DateOfDay(day)))))
  }

  /** What the range read computes for one of its dates is the date's own read. */
  lemma RangeAgrees(zone: Zone, t: Tables, from: Date, to: Date, day: int)
    requires TablesOk(zone, t) && InRange(from) && InRange(to) && DayNumber(from) <= day <= DayNumber(to)
    requires ActiveCorrections(Filter(t.corrections, WithinDates(from, to)), t.reversals).Some?
    ensures Valid(Shift(from, -1)) && FourDigitYear(Shift(from, -1))
    ensures Valid(Shift(to, 2)) && FourDigitYear(Shift(to, 2))
    ensures InRange(DateOfDay(day))
    ensures var scanned := Filter(t.rows, Between(Key(Shift(from, -1)), Key(Shift(to, 2))));
            var active := ActiveCorrections(Filter(t.corrections, WithinDates(from, to)), t.reversals).value;
            && RowsOk(zone, Filter(scanned, OnDay(zone, day)))
            && CorrectionsOk(Filter(active, ForDate(DateOfDay(day))))
            && SingleDate(zone, t, DateOfDay(day)) ==
                 Some(ApplyCorrections(zone, RecordsOf(zone, Filter(scanned, OnDay(zone, day))),
                                       Filter(active, ForDate(DateOfDay(day)))))
  {
    var d := DateOfDay(day);
    var active := ActiveCorrections(Filter(t.corrections, WithinDates(from, to)), t.reversals).value;
    DateInside(from, to, day);
    ScanIsComplete(zone, t.rows, from, to, d);
    FilteredRowsOk(zone, t.rows, OnDay(zone, day));
    FilteredCorrectionsOk(t.corrections, WithinDates(from, to));
    ActiveOk(Filter(t.corrections, WithinDates(from, to)), t.reversals);
    FilteredCorrectionsOk(active, ForDate(d));
    ActiveOfDate(t, from, to, d);
    ApplyIgnoresOrder(zone, RowsOn(zone, t.rows, d), Filter(active, ForDate(d)));
  }

  ghost predicate SomeDateFails(zone: Zone, t: Tables, from: Date, to: Date)
    requires TablesOk(zone, t)
  {
    exists d :: InRange(d) && DayNumber(from) <= DayNumber(d) <= DayNumber(to) && SingleDate(zone, t, d) == None
  }

  ghost predicate AgreesOn(zone: Zone, t: Tables, day: int, records: seq<Record>)
    requires TablesOk(zone, t)
  {
    InRange(DateOfDay(day)) && SingleDate(zone, t, DateOfDay(day)) == Some(records)
  }

  lemma TwiceReversedFails(zone: Zone, t: Tables, from: Date, to: Date, c: Correction)
    requires TablesOk(zone, t) && InRange(from) && InRange(to)
    requires c in t.corrections && WithinDates(from, to)(c) && TimesReversed(t, c.id) > 1
    ensures SomeDateFails(zone, t, from, to)
  {
    WithinDatesMeans(from, to, c);
    DateInside(from, to, DayNumber(c.date));
    DayNumberOrders(c.date, DateOfDay(DayNumber(c.date)));
    SingleDateFailsIff(zone, t, c.date);
    assert TwiceReversed(t, ForDate(c.date));
  }

  lemma FailureIsTwiceReversed(zone: Zone, t: Tables, from: Date, to: Date)
    requires TablesOk(zone, t) && InRange(from) && InRange(to) && SomeDateFails(zone, t, from, to)
    ensures TwiceReversed(t, WithinDates(from, to))
  {
    var d :| InRange(d) && DayNumber(from) <= DayNumber(d) <= DayNumber(to) && SingleDate(zone, t, d) == None;
    SingleDateFailsIff(zone, t, d);
    var c :| c in t.corrections && c.date == d && TimesReversed(t, c.id) > 1;
    WithinDatesMeans(from, to, c);
  }

  /** The range read fails exactly when the read of one of its dates fails. */
  lemma RangeFailsIff(zone: Zone, t: Tables, from: Date, to: Date)
    requires TablesOk(zone, t) && InRange(from) && InRange(to)
    ensures ActiveCorrections(Filter(t.corrections, WithinDates(from, to)), t.reversals) == None <==>
            SomeDateFails(zone, t, from, to)
  {
    ActiveMeans(t, WithinDates(from, to));
    if c :| c in t.corrections && WithinDates(from, to)(c) && TimesReversed(t, c.id) > 1 {
      TwiceReversedFails(zone, t, from, to, c);
    }
    if SomeDateFails(zone, t, from, to) {
      FailureIsTwiceReversed(zone, t, from, to);
    }
  }

  /** One scan for all the dates: every date's result is what its own read gives. */
  method ListEffectiveAttendanceByFactoryDates(zone: Zone, t: Tables, from: Date, to: Date)
    returns (r: Option<map<int, seq<Record>>>)
    requires TablesOk(zone, t) && InRange(from) && InRange(to) && DayNumber(from) <= DayNumber(to)
    ensures r == None <==> SomeDateFails(zone, t, from, to)
    ensures r.Some? ==> forall day :: day in r.value <==> DayNumber(from) <= day <= DayNumber(to)
    ensures r.Some? ==> forall day :: day in r.value ==> AgreesOn(zone, t, day, r.value[day])
  {
    RangeFailsIff(zone, t, from, to);
    KeysAround(from, to);
    var start, end := Key(Shift(from, -1)), Key(Shift(to, 2));
    var active := ActiveCorrections(Filter(t.corrections, WithinDates(from, to)), t.reversals);
    if active == None {
      return None;
    }
    FilteredRowsOk(zone, t.rows, Between(start, end));
    var rowsByDate := GroupByDay(zone, Filter(t.rows, Between(start, end)), DayNumber(from), DayNumber(to));
    var result := ApplyPerDate(zone, t, from, to, rowsByDate, active.value);
    return Some(result);
  }

  lemma RangeDay(
    zone: Zone, t: Tables, from: Date, to: Date, rowsByDate: map<int, seq<Record>>, active: seq<Correction>, day: int)
    requires TablesOk(zone, t) && InRange(from) && InRange(to) && DayNumber(from) <= day <= DayNumber(to)
    requires ActiveCorrections(Filter(t.corrections, WithinDates(from, to)), t.reversals) == Some(active)
    requires Valid(Shift(from, -1)) && FourDigitYear(Shift(from, -1))
    requires Valid(Shift(to, 2)) && FourDigitYear(Shift(to, 2))
    requires RowsOk(zone, Filter(t.rows, Between(Key(Shift(from, -1)), Key(Shift(to, 2)))))
    requires Groups(zone, Filter(t.rows, Between(Key(Shift(from, -1)), Key(Shift(to, 2)))), rowsByDate,
                    DayNumber(from), DayNumber(to))
    ensures day in rowsByDate && CorrectionsOk(Filter(active, ForDate(DateOfDay(day))))
    ensures AgreesOn(zone, t, day, ApplyCorrections(zone, rowsByDate[day], Filter(active, ForDate(DateOfDay(day)))))
  {
    RangeAgrees(zone, t, from, to, day);
    assert day in rowsByDate;
  }

  /** The results of the dates from `from` up to but not including `to`. */
  ghost predicate PerDate(zone: Zone, t: Tables, result: map<int, seq<Record>>, from: int, to: int)
    requires TablesOk(zone, t)
  {
    && (forall day :: day in result <==> from <= day < to)
    && (forall day :: day in result ==> AgreesOn(zone, t, day, result[day]))
  }

  lemma PerDateGrows(zone: Zone, t: Tables, result: map<int, seq<Record>>, from: int, day: int, records: seq<Record>)
    requires TablesOk(zone, t) && from <= day
    requires PerDate(zone, t, result, from, day) && AgreesOn(zone, t, day, records)
    ensures PerDate(zone, t, result[day := records], from, day + 1)
  {
    var next := result[day := records];
    forall d | d in next ensures AgreesOn(zone, t, d, next[d]) {
      assert d != day ==> d in result && next[d] == result[d];
    }
  }

  method ApplyPerDate(
    zone: Zone, t: Tables, from: Date, to: Date, rowsByDate: map<int, seq<Record>>, active: seq<Correction>)
    returns (result: map<int, seq<Record>>)
    requires TablesOk(zone, t) && InRange(from) && InRange(to) && DayNumber(from) <= DayNumber(to)
    requires ActiveCorrections(Filter(t.corrections, WithinDates(from, to)), t.reversals) == Some(active)
    requires Valid(Shift(from, -1)) && FourDigitYear(Shift(from, -1))
    requires Valid(Shift(to, 2)) && FourDigitYear(Shift(to, 2))
    requires RowsOk(zone, Filter(t.rows, Between(Key(Shift(from, -1)), Key(Shift(to, 2)))))
    requires Groups(zone, Filter(t.rows, Between(Key(Shift(from, -1)), Key(Shift(to, 2)))), rowsByDate,
                    DayNumber(from), DayNumber(to))
    ensures PerDate(zone, t, result, DayNumber(from), DayNumber(to) + 1)
  {
    result := map[];
    var day := DayNumber(from);
    while day <= DayNumber(to)
      invariant DayNumber(from) <= day <= DayNumber(to) + 1
      invariant PerDate(zone, t, result, DayNumber(from), day)
    {
      RangeDay(zone, t, from, to, rowsByDate, active, day);
      var records := ApplyCorrections(zone, rowsByDate[day], Filter(active, ForDate(DateOfDay(day))));
      PerDateGrows(zone, t, result, DayNumber(from), day, records);
      result := result[day := records];
      day := day + 1;
    }
  }

  ghost predicate Grouped(zone: Zone, rows: seq<Row>, day: int, records: seq<Record>)
    requires Regular(zone) && RowsOk(zone, rows)
  {
    RowsOk(zone, Filter(rows, OnDay(zone, day))) && records == RecordsOf(zone, Filter(rows, OnDay(zone, day)))
  }

  /** Each date of the range has the records of its rows. */
  ghost predicate Groups(zone: Zone, rows: seq<Row>, groups: map<int, seq<Record>>, from: int, to: int)
    requires Regular(zone) && RowsOk(zone, rows)
  {
    && (forall day :: day in groups <==> from <= day <= to)
    && (forall day :: day in groups ==> Grouped(zone, rows, day, groups[day]))
  }

  lemma FilterOneMore(rows: seq<Row>, row: Row, keep: Row -> bool)
    ensures Filter(rows + [row], keep) == if keep(row) then Filter(rows, keep) + [row] else Filter(rows, keep)
  {
    FilterSnoc(rows, row, keep);
    assert Filter(rows, keep) + [] == Filter(rows, keep);
  }

  lemma GroupGrows(zone: Zone, rows: seq<Row>, row: Row, day: int, records: seq<Record>)
    requires Regular(zone) && RowsOk(zone, rows) && RowsOk(zone, rows + [row])
    requires Grouped(zone, rows, day, records) && StampOk(row.stamp)
    ensures Grouped(zone, rows + [row], day,
                    if FactoryDay(zone, row.stamp) == Some(day) then records + [RecordOf(zone, row)] else records)
  {
    FilteredRowsOk(zone, rows + [row], OnDay(zone, day));
    FilterOneMore(rows, row, OnDay(zone, day));
    if OnDay(zone, day)(row) {
      RecordsGrow(zone, Filter(rows, OnDay(zone, day)), row);
    }
  }

  /** A row joins the group of its factory date, if that date is wanted. */
  function AddToGroup(zone: Zone, groups: map<int, seq<Record>>, row: Row): map<int, seq<Record>>
    requires Regular(zone) && StampOk(row.stamp)
  {
    var day := FactoryDay(zone, row.stamp);
    if day.Some? && day.value in groups then groups[day.value := groups[day.value] + [RecordOf(zone, row)]]
    else groups
  }

  lemma AddKeepsGroups(zone: Zone, rows: seq<Row>, row: Row, groups: map<int, seq<Record>>, from: int, to: int)
    requires Regular(zone) && RowsOk(zone, rows) && RowsOk(zone, rows + [row]) && StampOk(row.stamp)
    requires Groups(zone, rows, groups, from, to)
    ensures Groups(zone, rows + [row], AddToGroup(zone, groups, row), from, to)
  {
    var after := AddToGroup(zone, groups, row);
    forall day | day in after ensures Grouped(zone, rows + [row], day, after[day]) {
      GroupGrows(zone, rows, row, day, groups[day]);
    }
  }

  lemma PrefixRowsOk(zone: Zone, rows: seq<Row>, n: nat)
    requires RowsOk(zone, rows) && n <= |rows|
    ensures RowsOk(zone, rows[..n])
    ensures n < |rows| ==> StampOk(rows[n].stamp) && rows[..n + 1] == rows[..n] + [rows[n]]
  {
    assert n < |rows| ==> RowOk(zone, rows[n]);
  }

  method EmptyGroups(from: int, to: int) returns (groups: map<int, seq<Record>>)
    ensures forall day :: day in groups <==> from <= day <= to
    ensures forall day :: day in groups ==> groups[day] == []
  {
    groups := map[];
    var day := from;
    while day <= to
      invariant from <= day && (if from <= to then day <= to + 1 else day == from)
      invariant forall d :: d in groups <==> from <= d < day
      invariant forall d :: d in groups ==> groups[d] == []
    {
      groups := groups[day := []];
      day := day + 1;
    }
  }

  /** One pass over the scanned rows. */
  method GroupByDay(zone: Zone, scanned: seq<Row>, from: int, to: int) returns (rowsByDate: map<int, seq<Record>>)
    requires Regular(zone) && RowsOk(zone, scanned)
    ensures Groups(zone, scanned, rowsByDate, from, to)
  {
    rowsByDate := EmptyGroups(from, to);
    var n := 0;
    while n < |scanned|
      invariant 0 <= n <= |scanned| && RowsOk(zone, scanned[..n])
      invariant Groups(zone, scanned[..n], rowsByDate, from, to)
    {
      PrefixRowsOk(zone, scanned, n);
      PrefixRowsOk(zone, scanned, n + 1);
      AddKeepsGroups(zone, scanned[..n], scanned[n], rowsByDate, from, to);
      rowsByDate := AddToGroup(zone, rowsByDate, scanned[n]);
      n := n + 1;
    }
    assert scanned[..n] == scanned;
  }
}
