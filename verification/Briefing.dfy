/** Two builders that judge the same workers: the shift briefing with its tallies and department
    rows, and the list of shift exceptions. */
module Briefing {
  import opened Options
  import opened Events
  import opened FactoryZone
  import opened Schedules

  /** An effective punch of the date.  `epoch` is its instant, `wallMinute` the factory minute. */
  datatype Punch = Punch(worker: nat, kind: EventType, epoch: Option<int>, wallMinute: int)

  /** `department` is the display name, `departmentKey` its trimmed lower-case form. */
  datatype Worker = Worker(id: nat, department: string, departmentKey: string, joined: Option<int>)

  /** What both builders read: the date, its weekday, the active schedules and one frozen clock. */
  datatype Day = Day(zone: Zone, day: int, weekday: int, now: Now, schedules: seq<Schedule>)

  datatype Status = Present | Late | Missing | NotYetDue | ClockedOut

  datatype ExceptionType = MissingArrival | LateArrival | UnassignedSchedule | AmbiguousSchedule | UnsupportedSchedule

  datatype ShiftException = ShiftException(kind: ExceptionType, worker: nat)

  // ----- what both builders derive -----

  function EventsOf(attendance: seq<Punch>, worker: nat): seq<Punch> {
    if attendance == [] then []
    else
      var last := attendance[|attendance| - 1];
      EventsOf(attendance[..|attendance| - 1], worker) + (if last.worker == worker then [last] else [])
  }

  function FirstIn(events: seq<Punch>): Option<Punch> {
    if events == [] then None
    else if events[0].kind == ClockIn then Some(events[0])
    else FirstIn(events[1..])
  }

  function LastEvent(events: seq<Punch>): Option<Punch> {
    if events == [] then None else Some(events[|events| - 1])
  }

  function AssignmentOf(d: Day, w: Worker): Assignment {
    ResolveAssignment(w.departmentKey, d.schedules, d.weekday)
  }

  function AssignedSchedule(d: Day, w: Worker): Option<Schedule> {
    if AssignmentOf(d, w).Unique? then Some(AssignmentOf(d, w).schedule) else None
  }

  function MembershipOf(d: Day, w: Worker, events: seq<Punch>): Membership {
    RosterMembership(d.zone, w.joined, d.day, AssignedSchedule(d, w), events != [])
  }

  predicate IsLate(d: Day, schedule: Schedule, firstIn: Punch) {
    var minutes := MinutesElapsed(d.zone, d.day, schedule.start, firstIn.epoch, firstIn.wallMinute);
    minutes.Some? && minutes.value > 0
  }

  function WorkerStatus(
    d: Day, schedule: Schedule, firstIn: Option<Punch>, lastEvent: Option<Punch>, arrivalChecks: bool): Status
  {
    var out := lastEvent.Some? && lastEvent.value.kind == ClockOut;
    if !arrivalChecks then if out then ClockedOut else Present
    else
      match firstIn
      case None => if TimeHasPassed(d.zone, d.day, schedule.start, d.now) then Missing else NotYetDue
      case Some(punch) => if out then ClockedOut else if IsLate(d, schedule, punch) then Late else Present
  }

  // ----- the briefing's judgement of a worker -----

  /** Left out, without a schedule to be judged by, or with a status.  `late` means late today,
      whether or not the worker has left again; `row` names the department row. */
  datatype Verdict = Omitted | Unscheduled(reason: ExceptionType) | Scheduled(status: Status, late: bool, row: string)

  function RowName(w: Worker, s: Schedule): string {
    (if w.department == "" then "Unassigned" else w.department) + ":" + s.name + ":" + s.start + ":" + s.end
  }

  function VerdictOf(d: Day, attendance: seq<Punch>, w: Worker): Verdict {
    var events := EventsOf(attendance, w.id);
    var membership := MembershipOf(d, w, events);
    if membership == Omit then Omitted
    else
      match AssignmentOf(d, w)
      case NoSchedule => Unscheduled(UnassignedSchedule)
      case Ambiguous(_, _) => Unscheduled(AmbiguousSchedule)
      case Unique(_, schedule) =>
        if !IsSupportedRange(schedule.start, schedule.end) then Unscheduled(UnsupportedSchedule)
        else
          Scheduled(WorkerStatus(d, schedule, FirstIn(events), LastEvent(events), membership == Full),
                    WorkerStatus(d, schedule, FirstIn(events), None, membership == Full) == Late,
                    RowName(w, schedule))
  }

  function Verdicts(d: Day, attendance: seq<Punch>, workers: seq<Worker>): (r: seq<Verdict>)
    ensures |r| == |workers|
  {
    seq(|workers|, i requires 0 <= i < |workers| => VerdictOf(d, attendance, workers[i]))
  }

  function CountStatus(verdicts: seq<Verdict>, status: Status): nat {
    if verdicts == [] then 0
    else
      var last := verdicts[|verdicts| - 1];
      CountStatus(verdicts[..|verdicts| - 1], status) + (if last.Scheduled? && last.status == status then 1 else 0)
  }

  /** The exception that a verdict calls for. */
  predicate Calls(v: Verdict, kind: ExceptionType) {
    match kind
    case MissingArrival => v.Scheduled? && v.status == Missing
    case LateArrival => v.Scheduled? && v.late
    case _ => v == Unscheduled(kind)
  }

  function CountCalls(verdicts: seq<Verdict>, kind: ExceptionType): nat {
    if verdicts == [] then 0
    else CountCalls(verdicts[..|verdicts| - 1], kind) + (if Calls(verdicts[|verdicts| - 1], kind) then 1 else 0)
  }

  lemma {:induction false} MissingIsCalled(verdicts: seq<Verdict>)
    ensures CountStatus(verdicts, Missing) == CountCalls(verdicts, MissingArrival)
  {
    if verdicts != [] {
      MissingIsCalled(verdicts[..|verdicts| - 1]);
    }
  }

  // ----- the exceptions -----

  /** The arrival and schedule exceptions of one worker, in the order they are raised. */
  function Raised(d: Day, attendance: seq<Punch>, w: Worker): seq<ShiftException> {
    var events := EventsOf(attendance, w.id);
    var membership := MembershipOf(d, w, events);
    var schedule := AssignedSchedule(d, w);
    var unsupported := schedule.Some? && !IsSupportedRange(schedule.value.start, schedule.value.end);
    var checks := membership == Full && schedule.Some? && !unsupported;
    var firstIn := FirstIn(events);
    if membership == Omit then []
    else
      (if AssignmentOf(d, w).Ambiguous? then [ShiftException(AmbiguousSchedule, w.id)]
       else if AssignmentOf(d, w).NoSchedule? then [ShiftException(UnassignedSchedule, w.id)] else [])
      + (if unsupported then [ShiftException(UnsupportedSchedule, w.id)] else [])
      + (if checks && firstIn == None && TimeHasPassed(d.zone, d.day, schedule.value.start, d.now)
         then [ShiftException(MissingArrival, w.id)] else [])
      + (if checks && firstIn.Some? && IsLate(d, schedule.value, firstIn.value)
         then [ShiftException(LateArrival, w.id)] else [])
  }

  function AllRaised(d: Day, attendance: seq<Punch>, workers: seq<Worker>): seq<ShiftException> {
    if workers == [] then []
    else AllRaised(d, attendance, workers[..|workers| - 1]) + Raised(d, attendance, workers[|workers| - 1])
  }

  function CountKind(exceptions: seq<ShiftException>, kind: ExceptionType): nat {
    if exceptions == [] then 0
    else CountKind(exceptions[..|exceptions| - 1], kind) + (if exceptions[|exceptions| - 1].kind == kind then 1 else 0)
  }

  lemma {:induction false} CountKindAppends(a: seq<ShiftException>, b: seq<ShiftException>, kind: ExceptionType)
    ensures CountKind(a + b, kind) == CountKind(a, kind) + CountKind(b, kind)
  {
    if b == [] {
      assert a + b == a;
    } else {
      CountKindAppends(a, b[..|b| - 1], kind);
      assert (a + b)[..|a + b| - 1] == a + b[..|b| - 1];
    }
  }

  lemma CountOne(kind: ExceptionType, e: ShiftException)
    ensures CountKind([e], kind) == if e.kind == kind then 1 else 0
  {
    assert [e][..0] == [];
  }

  /** One worker raises at most one of these exceptions: the one the briefing's verdict calls for. */
  lemma RaisedIsTheCall(d: Day, attendance: seq<Punch>, w: Worker)
    ensures var r := Raised(d, attendance, w);
            && (forall kind :: Calls(VerdictOf(d, attendance, w), kind) ==> r == [ShiftException(kind, w.id)])
            && ((forall kind :: !Calls(VerdictOf(d, attendance, w), kind)) ==> r == [])
  {
    var v := VerdictOf(d, attendance, w);
    assert v.Unscheduled? ==> Calls(v, v.reason);
    assert v.Scheduled? && v.status == Missing ==> Calls(v, MissingArrival);
    assert v.Scheduled? && v.late ==> Calls(v, LateArrival);
  }

  lemma RaisedCounts(d: Day, attendance: seq<Punch>, w: Worker, kind: ExceptionType)
    ensures CountKind(Raised(d, attendance, w), kind) == if Calls(VerdictOf(d, attendance, w), kind) then 1 else 0
  {
    RaisedIsTheCall(d, attendance, w);
    var v := VerdictOf(d, attendance, w);
    if other :| Calls(v, other) {
      CountOne(kind, ShiftException(other, w.id));
    }
  }

  /** The two builders agree, for any workers, schedules, punches and clock. */
  lemma {:induction false} BuildersAgree(d: Day, attendance: seq<Punch>, workers: seq<Worker>, kind: ExceptionType)
    ensures CountKind(AllRaised(d, attendance, workers), kind) == CountCalls(Verdicts(d, attendance, workers), kind)
  {
    if workers != [] {
      var front, last := workers[..|workers| - 1], workers[|workers| - 1];
      BuildersAgree(d, attendance, front, kind);
      RaisedCounts(d, attendance, last, kind);
      CountKindAppends(AllRaised(d, attendance, front), Raised(d, attendance, last), kind);
      assert Verdicts(d, attendance, workers)[..|workers| - 1] == Verdicts(d, attendance, front);
    }
  }

  method RaiseExceptions(d: Day, attendance: seq<Punch>, w: Worker) returns (exceptions: seq<ShiftException>)
    ensures exceptions == Raised(d, attendance, w)
  {
    exceptions := [];
    var assignment := AssignmentOf(d, w);
    var schedule := AssignedSchedule(d, w);
    var events := EventsOf(attendance, w.id);
    var membership := MembershipOf(d, w, events);
    if membership == Omit {
      return;
    }
    var firstIn := FirstIn(events);
    if !assignment.Unique? {
      exceptions := [ShiftException(if assignment.Ambiguous? then AmbiguousSchedule else UnassignedSchedule, w.id)];
    }
    if schedule.Some? && !IsSupportedRange(schedule.value.start, schedule.value.end) {
      exceptions := exceptions + [ShiftException(UnsupportedSchedule, w.id)];
      schedule := None;
    }
    if membership == Full && schedule.Some? && firstIn == None
       && TimeHasPassed(d.zone, d.day, schedule.value.start, d.now) {
      exceptions := exceptions + [ShiftException(MissingArrival, w.id)];
    }
    if membership == Full && schedule.Some? && firstIn.Some? && IsLate(d, schedule.value, firstIn.value) {
      exceptions := exceptions + [ShiftException(LateArrival, w.id)];
    }
  }

  method BuildShiftExceptions(d: Day, attendance: seq<Punch>, workers: seq<Worker>)
    returns (exceptions: seq<ShiftException>)
    ensures exceptions == AllRaised(d, attendance, workers)
  {
    exceptions := [];
    var n := 0;
    while n < |workers|
      invariant 0 <= n <= |workers|
      invariant exceptions == AllRaised(d, attendance, workers[..n])
    {
      var raised := RaiseExceptions(d, attendance, workers[n]);
      assert workers[..n + 1][..n] == workers[..n];
      exceptions := exceptions + raised;
      n := n + 1;
    }
    assert workers[..n] == workers;
  }

  // ----- the tallies -----

  datatype Tally = Tally(expected: nat, present: nat, late: nat, missing: nat, notYetDue: nat, clockedOut: nat)

  /** A department's row; rows keep the order in which they were first needed. */
  datatype Row = Row(name: string, tally: Tally)

  datatype Summary = Summary(
    total: Tally, arrivedLate: nat, unavailable: nat, uncertain: nat, unsupported: nat, rows: seq<Row>)

  const EMPTY := Tally(0, 0, 0, 0, 0, 0)

  /** One worker of this status.  A late worker is also present. */
  function One(status: Status): Tally {
    match status
    case Present => Tally(1, 1, 0, 0, 0, 0)
    case Late => Tally(1, 1, 1, 0, 0, 0)
    case Missing => Tally(1, 0, 0, 1, 0, 0)
    case NotYetDue => Tally(1, 0, 0, 0, 1, 0)
    case ClockedOut => Tally(1, 0, 0, 0, 0, 1)
  }

  function Plus(a: Tally, b: Tally): Tally {
    Tally(a.expected + b.expected, a.present + b.present, a.late + b.late, a.missing + b.missing,
          a.notYetDue + b.notYetDue, a.clockedOut + b.clockedOut)
  }

  datatype Column = InExpected | InPresent | InLate | InMissing | InNotYetDue | InClockedOut

  function Get(t: Tally, c: Column): nat {
    match c
    case InExpected => t.expected
    case InPresent => t.present
    case InLate => t.late
    case InMissing => t.missing
    case InNotYetDue => t.notYetDue
    case InClockedOut => t.clockedOut
  }

  /** The columns are all there is to a tally. */
  lemma ColumnsDetermine(a: Tally, b: Tally)
    requires forall c :: Get(a, c) == Get(b, c)
    ensures a == b
  {
    assert Get(a, InExpected) == Get(b, InExpected) && Get(a, InPresent) == Get(b, InPresent);
    assert Get(a, InLate) == Get(b, InLate) && Get(a, InMissing) == Get(b, InMissing);
    assert Get(a, InNotYetDue) == Get(b, InNotYetDue) && Get(a, InClockedOut) == Get(b, InClockedOut);
  }

  /** A column summed over the department rows. */
  function Total(rows: seq<Row>, c: Column): nat {
    if rows == [] then 0 else Total(rows[..|rows| - 1], c) + Get(rows[|rows| - 1].tally, c)
  }

  /** Count into the row of this name, or into a new one. */
  function CountInto(rows: seq<Row>, name: string, one: Tally): seq<Row> {
    if rows == [] then [Row(name, one)]
    else
      var last := rows[|rows| - 1];
      if last.name == name then rows[..|rows| - 1] + [Row(name, Plus(last.tally, one))]
      else if Named(rows, name) then CountInto(rows[..|rows| - 1], name, one) + [last]
      else rows + [Row(name, one)]
  }

  predicate Named(rows: seq<Row>, name: string) {
    exists i :: 0 <= i < |rows| && rows[i].name == name
  }

  /** Every expected worker is counted exactly once, late ones inside the present ones. */
  predicate Balanced(t: Tally) {
    t.expected == t.present + t.missing + t.notYetDue + t.clockedOut && t.late <= t.present
  }

  ghost predicate RowsBalance(rows: seq<Row>) {
    forall i :: 0 <= i < |rows| ==> Balanced(rows[i].tally)
  }

  ghost predicate NamesDiffer(rows: seq<Row>) {
    forall i, j :: 0 <= i < j < |rows| ==> rows[i].name != rows[j].name
  }

  lemma {:induction false} TotalAdds(rows: seq<Row>, name: string, one: Tally, c: Column)
    ensures Total(CountInto(rows, name, one), c) == Total(rows, c) + Get(one, c)
  {
    if rows == [] {
      assert [Row(name, one)][..0] == [];
    } else {
      var front, last := rows[..|rows| - 1], rows[|rows| - 1];
      if last.name == name {
        assert (front + [Row(name, Plus(last.tally, one))])[..|front|] == front;
      } else if Named(rows, name) {
        TotalAdds(front, name, one, c);
        var more := CountInto(front, name, one);
        assert (more + [last])[..|more|] == more;
      } else {
        assert (rows + [Row(name, one)])[..|rows|] == rows;
      }
    }
  }

  lemma {:induction false} CountKeepsBalance(rows: seq<Row>, name: string, one: Tally)
    requires Balanced(one) && RowsBalance(rows)
    ensures RowsBalance(CountInto(rows, name, one))
  {
    if rows != [] {
      CountKeepsBalance(rows[..|rows| - 1], name, one);
    }
  }

  /** Each name has one row. */
  lemma {:induction false} CountKeepsNames(rows: seq<Row>, name: string, one: Tally)
    requires NamesDiffer(rows)
    ensures var r := CountInto(rows, name, one);
            && NamesDiffer(r)
            && (forall other :: Named(r, other) <==> other == name || Named(rows, other))
  {
    var r := CountInto(rows, name, one);
    if rows == [] {
      assert r[0].name == name;
    } else {
      var front, last := rows[..|rows| - 1], rows[|rows| - 1];
      assert rows == front + [last];
      if last.name != name && Named(rows, name) {
        CountKeepsNames(front, name, one);
        var more := CountInto(front, name, one);
        assert r == more + [last];
        forall i | 0 <= i < |more| ensures more[i].name != last.name {
          assert Named(more, more[i].name);
        }
        forall other ensures Named(r, other) <==> other == name || Named(rows, other) {
          NamedSnoc(more, last, other);
          NamedSnoc(front, last, other);
        }
      } else {
        forall other ensures Named(r, other) <==> other == name || Named(rows, other) {
          if last.name == name {
            NamedSnoc(front, last, other);
            NamedSnoc(front, Row(name, Plus(last.tally, one)), other);
          } else {
            NamedSnoc(rows, Row(name, one), other);
          }
        }
      }
    }
  }

  lemma NamedSnoc(rows: seq<Row>, row: Row, name: string)
    ensures Named(rows + [row], name) <==> Named(rows, name) || row.name == name
  {
    var r := rows + [row];
    assert r[|rows|] == row;
    if i :| 0 <= i < |rows| && rows[i].name == name {
      assert r[i].name == name;
    }
  }

  /** What the briefing reports is what the verdicts say, and it balances: overall, in each
      department row, and summed over the rows. */
  ghost predicate ReportOk(verdicts: seq<Verdict>, s: Summary) {
    StatusesCounted(verdicts, s.total) && CallsCounted(verdicts, s) && RowsOk(verdicts, s)
  }

  ghost predicate StatusesCounted(verdicts: seq<Verdict>, t: Tally) {
    && t.late == CountStatus(verdicts, Late)
    && t.present == CountStatus(verdicts, Present) + CountStatus(verdicts, Late)
    && t.missing == CountStatus(verdicts, Missing)
    && t.notYetDue == CountStatus(verdicts, NotYetDue)
    && t.clockedOut == CountStatus(verdicts, ClockedOut)
  }

  ghost predicate CallsCounted(verdicts: seq<Verdict>, s: Summary) {
    && s.arrivedLate == CountCalls(verdicts, LateArrival)
    && s.uncertain == CountCalls(verdicts, UnassignedSchedule)
    && s.unsupported == CountCalls(verdicts, UnsupportedSchedule)
    && s.unavailable == s.uncertain + s.unsupported + CountCalls(verdicts, AmbiguousSchedule)
  }

  ghost predicate RowsOk(verdicts: seq<Verdict>, s: Summary) {
    Balanced(s.total) && RowsAddUp(s.rows, s.total) && RowsCount(verdicts, s.rows)
  }

  /** The tally of the workers whose verdict names this row. */
  function RowTally(verdicts: seq<Verdict>, name: string): Tally {
    if verdicts == [] then EMPTY
    else
      var before, last := RowTally(verdicts[..|verdicts| - 1], name), verdicts[|verdicts| - 1];
      if last.Scheduled? && last.row == name then Plus(before, One(last.status)) else before
  }

  function Lookup(rows: seq<Row>, name: string): Tally {
    if rows == [] then EMPTY
    else if rows[|rows| - 1].name == name then rows[|rows| - 1].tally
    else Lookup(rows[..|rows| - 1], name)
  }

  /** Each row counts exactly its own workers. */
  ghost predicate RowsCount(verdicts: seq<Verdict>, rows: seq<Row>) {
    forall name :: Lookup(rows, name) == RowTally(verdicts, name)
  }

  lemma {:induction false} CountIntoLooksUp(rows: seq<Row>, name: string, one: Tally, other: string)
    ensures Lookup(CountInto(rows, name, one), other) ==
            if other == name then Plus(Lookup(rows, name), one) else Lookup(rows, other)
  {
    if rows == [] {
      assert [Row(name, one)][..0] == [];
      assert Plus(EMPTY, one) == one;
    } else {
      var front, last := rows[..|rows| - 1], rows[|rows| - 1];
      if last.name == name {
        LookupSnoc(front, Row(name, Plus(last.tally, one)), other);
      } else if Named(rows, name) {
        CountIntoLooksUp(front, name, one, other);
        LookupSnoc(CountInto(front, name, one), last, other);
      } else {
        NotNamed(rows, name);
        LookupSnoc(rows, Row(name, one), other);
        assert Plus(EMPTY, one) == one;
      }
    }
  }

  lemma LookupSnoc(rows: seq<Row>, row: Row, name: string)
    ensures Lookup(rows + [row], name) == if row.name == name then row.tally else Lookup(rows, name)
  {
    assert (rows + [row])[..|rows|] == rows;
  }

  lemma {:induction false} NotNamed(rows: seq<Row>, name: string)
    requires !Named(rows, name)
    ensures Lookup(rows, name) == EMPTY
  {
    if rows != [] {
      var front := rows[..|rows| - 1];
      assert rows[|rows| - 1].name != name;
      forall i | 0 <= i < |front| ensures front[i].name != name {
        assert front[i] == rows[i] && rows[i].name != name;
      }
      NotNamed(front, name);
    }
  }

  lemma RowTallySnoc(verdicts: seq<Verdict>, v: Verdict, name: string)
    ensures RowTally(verdicts + [v], name) ==
            if v.Scheduled? && v.row == name then Plus(RowTally(verdicts, name), One(v.status))
            else RowTally(verdicts, name)
  {
    assert (verdicts + [v])[..|verdicts|] == verdicts;
  }

  ghost predicate RowsAddUp(rows: seq<Row>, total: Tally) {
    RowsBalance(rows) && NamesDiffer(rows) && forall c :: Total(rows, c) == Get(total, c)
  }

  lemma OneBalances(t: Tally, status: Status)
    requires Balanced(t)
    ensures Balanced(One(status)) && Balanced(Plus(t, One(status)))
  {
    match status
    case Present =>
    case Late =>
    case Missing =>
    case NotYetDue =>
    case ClockedOut =>
  }

  lemma TotalsAdd(rows: seq<Row>, total: Tally, name: string, one: Tally)
    requires forall c :: Total(rows, c) == Get(total, c)
    ensures forall c :: Total(CountInto(rows, name, one), c) == Get(Plus(total, one), c)
  {
    forall c ensures Total(CountInto(rows, name, one), c) == Get(Plus(total, one), c) {
      TotalAdds(rows, name, one, c);
    }
  }

  lemma CountKeepsRows(rows: seq<Row>, total: Tally, name: string, one: Tally)
    requires RowsAddUp(rows, total) && Balanced(one)
    ensures RowsAddUp(CountInto(rows, name, one), Plus(total, one))
  {
    TotalsAdd(rows, total, name, one);
    CountKeepsBalance(rows, name, one);
    CountKeepsNames(rows, name, one);
  }

  predicate WellReasoned(v: Verdict) {
    v.Unscheduled? ==> v.reason in {UnassignedSchedule, AmbiguousSchedule, UnsupportedSchedule}
  }

  lemma StatusesGrow(before: seq<Verdict>, v: Verdict, t: Tally)
    requires StatusesCounted(before, t)
    ensures StatusesCounted(before + [v], if v.Scheduled? then Plus(t, One(v.status)) else t)
  {
    forall status ensures CountStatus(before + [v], status) ==
      CountStatus(before, status) + (if v.Scheduled? && v.status == status then 1 else 0) {
      assert (before + [v])[..|before|] == before;
    }
  }

  lemma CallsGrow(before: seq<Verdict>, v: Verdict, s: Summary, after: Summary)
    requires CallsCounted(before, s) && WellReasoned(v)
    requires after.arrivedLate == s.arrivedLate + (if Calls(v, LateArrival) then 1 else 0)
    requires after.unavailable == s.unavailable + (if v.Unscheduled? then 1 else 0)
    requires after.uncertain == s.uncertain + (if Calls(v, UnassignedSchedule) then 1 else 0)
    requires after.unsupported == s.unsupported + (if Calls(v, UnsupportedSchedule) then 1 else 0)
    ensures CallsCounted(before + [v], after)
  {
    forall kind ensures CountCalls(before + [v], kind) == CountCalls(before, kind) + (if Calls(v, kind) then 1 else 0) {
      assert (before + [v])[..|before|] == before;
    }
  }

  predicate IsNothing(s: Summary) {
    && s.total == EMPTY && |s.rows| == 0
    && s.arrivedLate == s.unavailable == s.uncertain == s.unsupported == 0
  }

  lemma NoRows(verdicts: seq<Verdict>, s: Summary)
    requires |verdicts| == 0 && |s.rows| == 0 && s.total == EMPTY
    ensures RowsAddUp(s.rows, s.total) && RowsCount(verdicts, s.rows) && Balanced(s.total)
  {
    forall c ensures Total(s.rows, c) == Get(s.total, c) {
    }
    forall name ensures Lookup(s.rows, name) == RowTally(verdicts, name) {
    }
  }

  lemma NothingCounted(verdicts: seq<Verdict>, s: Summary)
    requires |verdicts| == 0 && IsNothing(s)
    ensures StatusesCounted(verdicts, s.total) && CallsCounted(verdicts, s)
  {
  }

  lemma StartReport(verdicts: seq<Verdict>, s: Summary)
    requires |verdicts| == 0 && IsNothing(s)
    ensures ReportOk(verdicts, s)
  {
    NothingCounted(verdicts, s);
    NoRows(verdicts, s);
  }

  lemma NextReport(verdicts: seq<Verdict>, n: nat, s: Summary, after: Summary)
    requires n < |verdicts| && ReportOk(verdicts[..n], s) && WellReasoned(verdicts[n])
    requires Counts(s, verdicts[n], after)
    ensures ReportOk(verdicts[..n + 1], after)
  {
    ReportGrows(verdicts[..n], s, verdicts[n], after);
    PrefixGrows(verdicts, n);
  }

  lemma WholeReport(verdicts: seq<Verdict>, n: nat, s: Summary)
    requires n == |verdicts| && ReportOk(verdicts[..n], s)
    ensures ReportOk(verdicts, s)
  {
    assert verdicts[..|verdicts|] == verdicts;
  }

  lemma PrefixGrows(verdicts: seq<Verdict>, n: nat)
    requires n < |verdicts|
    ensures verdicts[..n] + [verdicts[n]] == verdicts[..n + 1]
  {
  }

  /** What one worker's verdict adds. */
  ghost predicate Counts(s: Summary, v: Verdict, after: Summary) {
    && after.total == (if v.Scheduled? then Plus(s.total, One(v.status)) else s.total)
    && after.arrivedLate == s.arrivedLate + (if Calls(v, LateArrival) then 1 else 0)
    && after.unavailable == s.unavailable + (if v.Unscheduled? then 1 else 0)
    && after.uncertain == s.uncertain + (if Calls(v, UnassignedSchedule) then 1 else 0)
    && after.unsupported == s.unsupported + (if Calls(v, UnsupportedSchedule) then 1 else 0)
    && after.rows == (if v.Scheduled? then CountInto(s.rows, v.row, One(v.status)) else s.rows)
  }

  lemma CountsGrow(before: seq<Verdict>, v: Verdict, rows: seq<Row>)
    requires RowsCount(before, rows)
    ensures RowsCount(before + [v], if v.Scheduled? then CountInto(rows, v.row, One(v.status)) else rows)
  {
    var after := if v.Scheduled? then CountInto(rows, v.row, One(v.status)) else rows;
    forall name ensures Lookup(after, name) == RowTally(before + [v], name) {
      RowTallySnoc(before, v, name);
      if v.Scheduled? {
        CountIntoLooksUp(rows, v.row, One(v.status), name);
      }
    }
  }

  lemma RowsGrow(before: seq<Verdict>, s: Summary, v: Verdict, after: Summary)
    requires RowsOk(before, s) && Counts(s, v, after)
    ensures RowsOk(before + [v], after)
  {
    CountsGrow(before, v, s.rows);
    if v.Scheduled? {
      OneBalances(s.total, v.status);
      CountKeepsRows(s.rows, s.total, v.row, One(v.status));
    }
  }

  lemma ReportGrows(before: seq<Verdict>, s: Summary, v: Verdict, after: Summary)
    requires ReportOk(before, s) && WellReasoned(v) && Counts(s, v, after)
    ensures ReportOk(before + [v], after)
  {
    StatusesGrow(before, v, s.total);
    CallsGrow(before, v, s, after);
    RowsGrow(before, s, v, after);
  }

  method CountVerdict(s: Summary, v: Verdict) returns (after: Summary)
    requires WellReasoned(v)
    ensures Counts(s, v, after)
  {
    match v
    case Omitted =>
      return s;
    case Unscheduled(reason) =>
      after := s.(unavailable := s.unavailable + 1);
      if reason == UnassignedSchedule {
        after := after.(uncertain := after.uncertain + 1);
      }
      if reason == UnsupportedSchedule {
        after := after.(unsupported := after.unsupported + 1);
      }
    case Scheduled(status, late, row) =>
      after := s.(total := Plus(s.total, One(status)), rows := CountInto(s.rows, row, One(status)));
      if late {
        after := after.(arrivedLate := after.arrivedLate + 1);
      }
  }

  method JudgeWorker(d: Day, attendance: seq<Punch>, w: Worker) returns (v: Verdict)
    ensures v == VerdictOf(d, attendance, w) && WellReasoned(v)
  {
    var assignment := AssignmentOf(d, w);
    var schedule := AssignedSchedule(d, w);
    var events := EventsOf(attendance, w.id);
    var membership := MembershipOf(d, w, events);
    if membership == Omit {
      return Omitted;
    }
    if schedule == None || !IsSupportedRange(schedule.value.start, schedule.value.end) {
      return Unscheduled(if assignment.Unique? then UnsupportedSchedule
                         else if assignment.NoSchedule? then UnassignedSchedule else AmbiguousSchedule);
    }
    var firstIn, lastEvent := FirstIn(events), LastEvent(events);
    var status := WorkerStatus(d, schedule.value, firstIn, lastEvent, membership == Full);
    var late := WorkerStatus(d, schedule.value, firstIn, None, membership == Full) == Late;
    return Scheduled(status, late, RowName(w, schedule.value));
  }

  method CountNext(verdicts: seq<Verdict>, n: nat, s: Summary) returns (after: Summary)
    requires n < |verdicts| && ReportOk(verdicts[..n], s) && WellReasoned(verdicts[n])
    ensures ReportOk(verdicts[..n + 1], after)
  {
    after := CountVerdict(s, verdicts[n]);
    NextReport(verdicts, n, s, after);
  }

  method StartTally(verdicts: seq<Verdict>) returns (s: Summary, n: nat)
    ensures n == 0 && ReportOk(verdicts[..n], s)
  {
    s, n := EmptySummary(), 0;
    StartReport(verdicts[..n], s);
  }

  function EmptySummary(): (s: Summary)
    ensures IsNothing(s)
  {
    Summary(EMPTY, 0, 0, 0, 0, [])
  }

  method TallyVerdicts(verdicts: seq<Verdict>) returns (s: Summary)
    requires forall i :: 0 <= i < |verdicts| ==> WellReasoned(verdicts[i])
    ensures ReportOk(verdicts, s)
  {
    var n;
    s, n := StartTally(verdicts);
    while n < |verdicts|
      invariant 0 <= n <= |verdicts| && ReportOk(verdicts[..n], s)
    {
      s := CountNext(verdicts, n, s);
      n := n + 1;
    }
    WholeReport(verdicts, n, s);
  }

  lemma VerdictsGrow(d: Day, attendance: seq<Punch>, workers: seq<Worker>, n: nat)
    requires n < |workers|
    ensures Verdicts(d, attendance, workers[..n + 1])
         == Verdicts(d, attendance, workers[..n]) + [VerdictOf(d, attendance, workers[n])]
  {
  }

  method JudgeWorkers(d: Day, attendance: seq<Punch>, workers: seq<Worker>) returns (verdicts: seq<Verdict>)
    ensures verdicts == Verdicts(d, attendance, workers)
    ensures forall i :: 0 <= i < |verdicts| ==> WellReasoned(verdicts[i])
  {
    verdicts := [];
    var n := 0;
    while n < |workers|
      invariant 0 <= n <= |workers|
      invariant verdicts == Verdicts(d, attendance, workers[..n])
      invariant forall i :: 0 <= i < |verdicts| ==> WellReasoned(verdicts[i])
    {
      var v := JudgeWorker(d, attendance, workers[n]);
      VerdictsGrow(d, attendance, workers, n);
      verdicts := verdicts + [v];
      n := n + 1;
    }
    assert workers[..n] == workers;
  }

  /** The briefing: its counts are true, and its tallies balance. */
  method BuildShiftBriefing(d: Day, attendance: seq<Punch>, workers: seq<Worker>) returns (s: Summary)
    ensures ReportOk(Verdicts(d, attendance, workers), s)
  {
    var verdicts := JudgeWorkers(d, attendance, workers);
    s := TallyVerdicts(verdicts);
  }

  /** The counts that the briefing shares with the exceptions. */
  ghost predicate Agree(s: Summary, exceptions: seq<ShiftException>) {
    && s.total.missing == CountKind(exceptions, MissingArrival)
    && s.arrivedLate == CountKind(exceptions, LateArrival)
    && s.unavailable == CountKind(exceptions, UnassignedSchedule) + CountKind(exceptions, UnsupportedSchedule)
                        + CountKind(exceptions, AmbiguousSchedule)
  }

  lemma ReportAgrees(verdicts: seq<Verdict>, s: Summary, exceptions: seq<ShiftException>)
    requires ReportOk(verdicts, s)
    requires forall kind :: CountKind(exceptions, kind) == CountCalls(verdicts, kind)
    ensures Agree(s, exceptions)
  {
    MissingIsCalled(verdicts);
  }

  /** For any workers, schedules, punches and clock, both builders count the same. */
  lemma CountsAgree(d: Day, attendance: seq<Punch>, workers: seq<Worker>, s: Summary)
    requires ReportOk(Verdicts(d, attendance, workers), s)
    ensures Agree(s, AllRaised(d, attendance, workers))
  {
    forall kind ensures CountKind(AllRaised(d, attendance, workers), kind)
                     == CountCalls(Verdicts(d, attendance, workers), kind) {
      BuildersAgree(d, attendance, workers, kind);
    }
    ReportAgrees(Verdicts(d, attendance, workers), s, AllRaised(d, attendance, workers));
  }
}
