/** Which schedule a worker has on a factory date, and what the clock says about it. */
module Schedules {
  import opened Options
  import opened Calendar
  import opened FactoryZone
  import opened SortKeys

  /** Departments are given trimmed and in lower case; the empty one means none. */
  datatype Schedule = Schedule(
    id: nat, name: string, department: string, active: bool, days: set<int>, start: string, end: string)

  // ----- times of day -----

  predicate IsTime(s: string) {
    && |s| == 5 && s[2] == ':' && AllDigits(s[..2]) && AllDigits(s[3..])
    && Number(s[..2]) < 24 && Number(s[3..]) < 60
  }

  function MinuteOf(s: string): (m: int)
    requires IsTime(s)
    ensures 0 <= m < 1_440
  {
    Number(s[..2]) * 60 + Number(s[3..])
  }

  /** Same-day ranges only: the end after the start, compared as strings. */
  predicate IsSupportedRange(start: string, end: string) {
    IsTime(start) && IsTime(end) && Less(start, end)
  }

  lemma TimeSplits(s: string)
    requires IsTime(s)
    ensures s == Joined(Digits(Number(s[..2]), 2), ':', Digits(Number(s[3..]), 2))
  {
    DigitsOfNumber(s[..2]);
    DigitsOfNumber(s[3..]);
  }

  /** Comparing times as strings compares them as minutes of the day. */
  lemma SupportedMeansLater(start: string, end: string)
    requires IsTime(start) && IsTime(end)
    ensures IsSupportedRange(start, end) <==> MinuteOf(start) < MinuteOf(end)
  {
    TimeSplits(start);
    TimeSplits(end);
    TwoDigitsOrder(Number(start[..2]), Number(end[..2]));
    TwoDigitsOrder(Number(start[3..]), Number(end[3..]));
    JoinedOrder(Digits(Number(start[..2]), 2), Digits(Number(end[..2]), 2), ':',
                Digits(Number(start[3..]), 2), Digits(Number(end[3..]), 2));
  }

  function WallAt(day: int, minute: int): int {
    day * SECONDS_PER_DAY + minute * 60
  }

  // ----- deadlines -----

  /** The current instant, with a fraction of a second. */
  datatype Now = Now(epoch: int, fraction: real)

  predicate IsNow(now: Now) {
    0.0 <= now.fraction < 1.0
  }

  predicate NowBefore(a: Now, b: Now) {
    a.epoch < b.epoch || (a.epoch == b.epoch && a.fraction <= b.fraction)
  }

  /** Strictly after the first instant that shows the deadline; a deadline in the skipped hour has
      none and compares with the wall clock instead. */
  predicate TimeHasPassed(zone: Zone, day: int, time: string, now: Now) {
    IsTime(time) &&
    var wall := WallAt(day, MinuteOf(time));
    match Resolve(zone, wall)
    case Some(deadline) => now.epoch as real + now.fraction > deadline as real
    case None => Local(zone, now.epoch) > wall
  }

  /** Between an instant beyond a wall second and a later one before it, the clock falls back. */
  lemma {:induction false} FallsBackBetween(zone: Zone, wall: int, a: int, b: int) returns (t: int)
    requires a < b && Local(zone, a) > wall && Local(zone, b) <= wall
    ensures a <= t < b && Local(zone, t) > wall && Local(zone, t + 1) <= wall
    decreases b - a
  {
    if Local(zone, a + 1) <= wall {
      t := a;
    } else {
      t := FallsBackBetween(zone, wall, a + 1, b);
    }
  }

  /** A clock that falls back behind a wall second shows it again within the hour. */
  lemma FallBackShows(zone: Zone, wall: int, t: int) returns (u: int)
    requires Regular(zone) && Local(zone, t) > wall && Local(zone, t + 1) <= wall
    ensures Local(zone, u) == wall
  {
    assert ChangesOnce(zone, t);
    var m :| ChangesOnlyAt(zone, t, m);
    assert zone(t + 1) - zone(t) >= -MAX_SHIFT_OF_OFFSET;
    u := t + 1 + (wall - Local(zone, t + 1));
    assert t + 1 <= u <= t + MAX_SHIFT_OF_OFFSET;
    assert zone(t + 1) == zone(t + 2 * SECONDS_PER_DAY);
    assert zone(u) == zone(t + 2 * SECONDS_PER_DAY);
  }

  /** A deadline that has passed stays passed, also through the repeated hour. */
  lemma PassedStaysPassed(zone: Zone, day: int, time: string, now: Now, later: Now)
    requires Regular(zone) && IsNow(now) && IsNow(later) && NowBefore(now, later)
    requires TimeHasPassed(zone, day, time, now)
    ensures TimeHasPassed(zone, day, time, later)
  {
    var wall := WallAt(day, MinuteOf(time));
    if Resolve(zone, wall) == None {
      ResolveIsEarliest(zone, wall);
      if now.epoch < later.epoch && Local(zone, later.epoch) <= wall {
        var t := FallsBackBetween(zone, wall, now.epoch, later.epoch);
        var u := FallBackShows(zone, wall, t);
      }
    }
  }

  /** Whole minutes from a deadline to a punch, by their instants if both have one and by the
      factory wall clock otherwise. */
  function MinutesElapsed(zone: Zone, day: int, time: string, epoch: Option<int>, wallMinute: int): Option<int> {
    if !IsTime(time) then None
    else
      match (Resolve(zone, WallAt(day, MinuteOf(time))), epoch)
      case (Some(deadline), Some(punch)) => Some(punch / 60 - deadline / 60)
      case _ => Some(wallMinute - MinuteOf(time))
  }

  /** A punch of the date that counts as late came after the deadline had passed, so nobody is late
      for a shift that is not due yet; and once it has passed no punch counts as early. */
  lemma LateMeansPassed(zone: Zone, day: int, time: string, epoch: int)
    requires IsTime(time) && DateOf(zone, epoch) == day
    ensures var minutes := MinutesElapsed(zone, day, time, Some(epoch), Local(zone, epoch) / 60 % 1_440);
            && minutes.Some?
            && (minutes.value > 0 ==> TimeHasPassed(zone, day, time, Now(epoch, 0.0)))
            && (TimeHasPassed(zone, day, time, Now(epoch, 0.0)) ==> minutes.value >= 0)
  {
    WallMinute(Local(zone, epoch), day);
  }

  lemma WallMinute(wall: int, day: int)
    requires wall / SECONDS_PER_DAY == day
    ensures day * SECONDS_PER_DAY + wall / 60 % 1_440 * 60 <= wall
    ensures wall < day * SECONDS_PER_DAY + (wall / 60 % 1_440 + 1) * 60
  {
    assert wall / 60 / 1_440 == day;
  }

  // ----- assignment -----

  datatype Assignment =
    | Unique(byDepartment: bool, schedule: Schedule)
    | NoSchedule
    | Ambiguous(byDepartment: bool, candidates: seq<Schedule>)

  function Matching(schedules: seq<Schedule>, department: string, day: int): seq<Schedule> {
    if schedules == [] then []
    else
      var last := schedules[|schedules| - 1];
      Matching(schedules[..|schedules| - 1], department, day)
      + (if last.active && day in last.days && last.department == department then [last] else [])
  }

  /** The department's schedules if it has any that day, else those without a department; several
      of them have no winner. */
  function ResolveAssignment(department: string, schedules: seq<Schedule>, day: int): Assignment {
    var own := if department == "" then [] else Matching(schedules, department, day);
    var candidates := if own != [] then own else Matching(schedules, "", day);
    if candidates == [] then NoSchedule
    else if |candidates| == 1 then Unique(own != [], candidates[0])
    else Ambiguous(own != [], candidates)
  }

  predicate Applies(s: Schedule, department: string, day: int) {
    s.active && day in s.days && s.department == department
  }

  lemma {:induction false} MatchingMembers(schedules: seq<Schedule>, department: string, day: int)
    ensures forall s :: s in Matching(schedules, department, day) <==> s in schedules && Applies(s, department, day)
  {
    if schedules != [] {
      MatchingMembers(schedules[..|schedules| - 1], department, day);
      assert schedules == schedules[..|schedules| - 1] + [schedules[|schedules| - 1]];
    }
  }

  /** An assigned schedule is one of the schedules, active that day and of its tier, and the only
      one of it; a default is assigned only to workers whose department has no schedule that day. */
  lemma AssignmentIsTheOnlyOne(department: string, schedules: seq<Schedule>, day: int)
    requires ResolveAssignment(department, schedules, day).Unique?
    ensures var a := ResolveAssignment(department, schedules, day);
            && a.schedule in schedules && Applies(a.schedule, if a.byDepartment then department else "", day)
            && (a.byDepartment ==> department != "")
            && (forall s :: s in schedules && Applies(s, if a.byDepartment then department else "", day) ==>
                  s == a.schedule)
            && (!a.byDepartment ==> forall s :: s in schedules && Applies(s, department, day) ==> department == "")
  {
    MatchingMembers(schedules, department, day);
    MatchingMembers(schedules, "", day);
  }

  /** A worker has no schedule exactly if none applies, of the department or without one. */
  lemma UnassignedIff(department: string, schedules: seq<Schedule>, day: int)
    ensures ResolveAssignment(department, schedules, day).NoSchedule? <==>
            forall s :: s in schedules ==> !Applies(s, department, day) && !Applies(s, "", day)
  {
    MatchingMembers(schedules, department, day);
    MatchingMembers(schedules, "", day);
    var own, rest := Matching(schedules, department, day), Matching(schedules, "", day);
    assert own != [] ==> own[0] in own;
    assert rest != [] ==> rest[0] in rest;
  }

  // ----- membership -----

  datatype Membership = Omit | NoArrivalChecks | Full

  /** `joined` is the worker row's creation instant, when it is known. */
  predicate JoinedAfterStart(zone: Zone, joined: Option<int>, day: int, schedule: Option<Schedule>) {
    && joined.Some?
    && var joinDay := DateOf(zone, joined.value);
    && joinDay >= day
    && (joinDay > day ||
        (schedule.Some? && IsSupportedRange(schedule.value.start, schedule.value.end) &&
         var elapsed := MinutesElapsed(zone, day, schedule.value.start, joined, Local(zone, joined.value) / 60 % 1_440);
         elapsed.Some? && elapsed.value > 0))
  }

  function RosterMembership(
    zone: Zone, joined: Option<int>, day: int, schedule: Option<Schedule>, punched: bool): Membership
  {
    if !JoinedAfterStart(zone, joined, day, schedule) then Full
    else if punched then NoArrivalChecks else Omit
  }
}
