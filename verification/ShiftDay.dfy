/** One date as the supervisor sees it: the briefing reads the date by itself, the exceptions read it
    as the middle of three, and both count the same. */
module ShiftDay {
  import opened Options
  import opened Events
  import opened Calendar
  import opened FactoryZone
  import opened SortKeys
  import opened Schedules
  import EffectiveAttendance
  import opened EffectiveReads
  import CorrectionLog
  import opened Briefing

  type Tables = EffectiveAttendance.Tables
  type Record = EffectiveAttendance.Record

  /** The minute that the factory clock shows for a timestamp. */
  function WallMinuteOf(zone: Zone, s: Stamp): int {
    if s.suffix.Offset? && EpochOf(zone, s).Some? then Local(zone, EpochOf(zone, s).value) / 60 % 1_440
    else s.hour * 60 + s.minute
  }

  /** However the timestamp is written, it is the minute that the factory wall shows at its instant. */
  lemma MinuteIsShown(zone: Zone, s: Stamp, t: int)
    requires Regular(zone) && EpochOf(zone, s) == Some(t)
    ensures var midnight := DateOf(zone, t) * SECONDS_PER_DAY;
            midnight + 60 * WallMinuteOf(zone, s) <= Local(zone, t) < midnight + 60 * (WallMinuteOf(zone, s) + 1)
  {
    if s.suffix.Offset? {
      WallMinute(Local(zone, t), DateOf(zone, t));
    } else {
      ResolveIsEarliest(zone, WallSecond(s));
      EffectiveAttendance.WallIsOnDate(s);
    }
  }

  function PunchOf(zone: Zone, r: Record): Punch {
    Punch(r.worker, r.kind, EpochOf(zone, r.stamp), WallMinuteOf(zone, r.stamp))
  }

  function PunchesOf(zone: Zone, records: seq<Record>): seq<Punch> {
    EffectiveAttendance.Map(records, (r: Record) => PunchOf(zone, r))
  }

  ghost predicate HasNeighbours(d: Date) {
    InRange(Previous(d)) && InRange(d) && InRange(Next(d))
  }

  datatype Overview = Unreadable | Overview(briefing: Summary, exceptions: seq<ShiftException>)

  lemma InTheMiddle(d: Date)
    requires HasNeighbours(d)
    ensures DayNumber(Previous(d)) < DayNumber(d) < DayNumber(Next(d)) && DateOfDay(DayNumber(d)) == d
  {
    PreviousTakesADay(d);
    NextAddsADay(d);
    DayNumberOrders(d, DateOfDay(DayNumber(d)));
  }

  /** Both builders on one state of the tables: whenever the dates can be read, the counts of the
      briefing are true and are those of the exceptions. */
  method BriefShift(day: Day, t: Tables, date: Date, workers: seq<Worker>) returns (r: Overview)
    requires TablesOk(day.zone, t) && HasNeighbours(date) && day.day == DayNumber(date)
    ensures r.Unreadable? <==> SomeDateFails(day.zone, t, Previous(date), Next(date))
    ensures r.Overview? ==> SingleDate(day.zone, t, date).Some?
    ensures r.Overview? ==>
        ReportOk(Verdicts(day, PunchesOf(day.zone, SingleDate(day.zone, t, date).value), workers), r.briefing)
    ensures r.Overview? ==> Agree(r.briefing, r.exceptions)
  {
    InTheMiddle(date);
    var threeDates := ListEffectiveAttendanceByFactoryDates(day.zone, t, Previous(date), Next(date));
    if threeDates == None {
      return Unreadable;
    }
    assert AgreesOn(day.zone, t, DayNumber(date), threeDates.value[DayNumber(date)]);
    var single := SingleDate(day.zone, t, date);
    var exceptions := BuildShiftExceptions(day, PunchesOf(day.zone, threeDates.value[DayNumber(date)]), workers);
    var briefing := BuildShiftBriefing(day, PunchesOf(day.zone, single.value), workers);
    CountsAgree(day, PunchesOf(day.zone, single.value), workers, briefing);
    return Overview(briefing, exceptions);
  }

  /** In every reachable state of the tables the overview can be built. */
  lemma OverviewIsReadable(zone: Zone, t: Tables, steps: seq<CorrectionLog.Step>, date: Date)
    requires CorrectionLog.Inv(zone, t) && HasNeighbours(date)
    ensures TablesOk(zone, CorrectionLog.Run(zone, t, steps))
    ensures !SomeDateFails(zone, CorrectionLog.Run(zone, t, steps), Previous(date), Next(date))
  {
    InTheMiddle(date);
    CorrectionLog.EveryReadSucceeds(zone, t, steps, Previous(date), Next(date), DayNumber(date));
  }
}
