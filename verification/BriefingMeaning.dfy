/** What the briefing's verdict on a worker says about the punches, the schedule and the clock. */
module BriefingMeaning {
  import opened Options
  import opened Events
  import opened Calendar
  import opened FactoryZone
  import opened SortKeys
  import opened Schedules
  import opened Briefing

  // ----- the worker's punches -----

  predicate IsPunchOf(attendance: seq<Punch>, worker: nat, i: nat) {
    i < |attendance| && attendance[i].worker == worker
  }

  ghost predicate Punched(attendance: seq<Punch>, worker: nat) {
    exists i: nat :: IsPunchOf(attendance, worker, i)
  }

  /** The worker's first clock-in of the date. */
  ghost predicate IsArrival(attendance: seq<Punch>, worker: nat, i: nat) {
    && IsPunchOf(attendance, worker, i) && attendance[i].kind == ClockIn
    && (forall j: nat :: j < i && IsPunchOf(attendance, worker, j) ==> attendance[j].kind == ClockOut)
  }

  ghost predicate Arrived(attendance: seq<Punch>, worker: nat) {
    exists i: nat :: IsArrival(attendance, worker, i)
  }

  ghost predicate IsLatest(attendance: seq<Punch>, worker: nat, i: nat) {
    IsPunchOf(attendance, worker, i) && forall j: nat :: IsPunchOf(attendance, worker, j) ==> j <= i
  }

  /** The worker's last punch is a clock-out. */
  ghost predicate HasLeft(attendance: seq<Punch>, worker: nat) {
    exists i: nat :: IsLatest(attendance, worker, i) && attendance[i].kind == ClockOut
  }

  lemma PunchOfFront(attendance: seq<Punch>, worker: nat)
    requires attendance != []
    ensures var n := |attendance| - 1;
            forall i: nat :: IsPunchOf(attendance, worker, i) <==>
                             IsPunchOf(attendance[..n], worker, i) || (i == n && attendance[n].worker == worker)
  {
  }

  lemma LeftInFront(attendance: seq<Punch>, worker: nat)
    requires attendance != []
    ensures var n := |attendance| - 1;
            HasLeft(attendance, worker) <==>
            if attendance[n].worker == worker then attendance[n].kind == ClockOut else HasLeft(attendance[..n], worker)
  {
    var n := |attendance| - 1;
    var front := attendance[..n];
    PunchOfFront(attendance, worker);
    if attendance[n].worker == worker {
      assert IsLatest(attendance, worker, n);
    } else {
      forall i: nat ensures IsLatest(front, worker, i) <==> IsLatest(attendance, worker, i) {
      }
    }
  }

  lemma EventsSnoc(attendance: seq<Punch>, worker: nat)
    requires attendance != []
    ensures var n := |attendance| - 1;
            EventsOf(attendance, worker) ==
            if attendance[n].worker == worker then EventsOf(attendance[..n], worker) + [attendance[n]]
            else EventsOf(attendance[..n], worker)
  {
    assert EventsOf(attendance[..|attendance| - 1], worker) + [] == EventsOf(attendance[..|attendance| - 1], worker);
  }

  lemma {:induction false} LastOf(attendance: seq<Punch>, worker: nat)
    ensures EventsOf(attendance, worker) == [] <==> !Punched(attendance, worker)
    ensures HasLeft(attendance, worker) <==>
            var last := LastEvent(EventsOf(attendance, worker)); last.Some? && last.value.kind == ClockOut
  {
    if attendance != [] {
      var n := |attendance| - 1;
      LastOf(attendance[..n], worker);
      PunchOfFront(attendance, worker);
      LeftInFront(attendance, worker);
      EventsSnoc(attendance, worker);
      assert attendance[n].worker == worker ==> IsPunchOf(attendance, worker, n);
    }
  }

  lemma {:induction false} FirstInAppends(events: seq<Punch>, punch: Punch)
    ensures FirstIn(events + [punch]) ==
            if FirstIn(events).Some? then FirstIn(events) else if punch.kind == ClockIn then Some(punch) else None
  {
    if events != [] {
      FirstInAppends(events[1..], punch);
      assert (events + [punch])[1..] == events[1..] + [punch];
    } else {
      assert (events + [punch])[1..] == [];
    }
  }

  lemma ArrivalInFront(attendance: seq<Punch>, worker: nat, i: nat)
    requires i + 1 < |attendance|
    ensures IsArrival(attendance[..|attendance| - 1], worker, i) <==> IsArrival(attendance, worker, i)
  {
    var front := attendance[..|attendance| - 1];
    assert forall j: nat :: j <= i ==> (IsPunchOf(front, worker, j) <==> IsPunchOf(attendance, worker, j));
  }

  lemma {:induction false} FirstOf(attendance: seq<Punch>, worker: nat)
    ensures FirstIn(EventsOf(attendance, worker)) == None ==>
            forall i: nat :: IsPunchOf(attendance, worker, i) ==> attendance[i].kind == ClockOut
    ensures FirstIn(EventsOf(attendance, worker)).Some? ==>
            exists i: nat ::
              IsArrival(attendance, worker, i) && FirstIn(EventsOf(attendance, worker)) == Some(attendance[i])
  {
    if attendance != [] {
      var n := |attendance| - 1;
      var front := attendance[..n];
      FirstOf(front, worker);
      PunchOfFront(attendance, worker);
      EventsSnoc(attendance, worker);
      FirstInAppends(EventsOf(front, worker), attendance[n]);
      var before := FirstIn(EventsOf(front, worker));
      if before.Some? {
        var i: nat :| IsArrival(front, worker, i) && before == Some(front[i]);
        ArrivalInFront(attendance, worker, i);
      } else if attendance[n].worker == worker && attendance[n].kind == ClockIn {
        assert IsArrival(attendance, worker, n);
      }
    }
  }

  // ----- the clock -----

  ghost predicate Shows(zone: Zone, wall: int, t: int) {
    Local(zone, t) == wall
  }

  /** A minute of the clock begins after `t` and up to `u`. */
  ghost predicate MinuteBegins(t: int, u: int) {
    exists m: int :: t < Minute(m) <= u
  }

  function Minute(m: int): int {
    60 * m
  }

  lemma MinutesBetween(t: int, u: int)
    ensures MinuteBegins(t, u) <==> u / 60 > t / 60
  {
    if u / 60 > t / 60 {
      assert t < Minute(t / 60 + 1) <= u;
    }
  }

  ghost predicate BeginsAfterShown(zone: Zone, wall: int, t: int, u: int) {
    Shows(zone, wall, t) && MinuteBegins(t, u)
  }

  /** The instant, or else the minute of the wall clock, is in a later minute than the first one that shows
      this time of the day. */
  ghost predicate IsLaterMinute(zone: Zone, day: int, time: string, epoch: Option<int>, wallMinute: int)
    requires IsTime(time)
  {
    var wall := WallAt(day, MinuteOf(time));
    if epoch.Some? && exists t :: Shows(zone, wall, t)
    then exists t :: BeginsAfterShown(zone, wall, t, epoch.value)
    else wallMinute > MinuteOf(time)
  }

  lemma ElapsedMeans(zone: Zone, day: int, time: string, epoch: Option<int>, wallMinute: int)
    requires Regular(zone) && IsTime(time)
    ensures var minutes := MinutesElapsed(zone, day, time, epoch, wallMinute);
            minutes.Some? && (minutes.value > 0 <==> IsLaterMinute(zone, day, time, epoch, wallMinute))
  {
    var wall := WallAt(day, MinuteOf(time));
    ResolveIsEarliest(zone, wall);
    var first := Resolve(zone, wall);
    if first.Some? && epoch.Some? {
      assert Shows(zone, wall, first.value);
      MinutesBetween(first.value, epoch.value);
      if t :| BeginsAfterShown(zone, wall, t, epoch.value) {
        MinutesBetween(t, epoch.value);
      }
      if epoch.value / 60 > first.value / 60 {
        assert BeginsAfterShown(zone, wall, first.value, epoch.value);
      }
    }
  }

  /** The clock has shown this time of the day, or, if it skips that time, shows a later one. */
  ghost predicate HasShown(zone: Zone, day: int, time: string, now: Now)
    requires IsTime(time)
  {
    var wall := WallAt(day, MinuteOf(time));
    if exists t :: Shows(zone, wall, t)
    then exists t :: Shows(zone, wall, t) && t as real < now.epoch as real + now.fraction
    else Local(zone, now.epoch) > wall
  }

  lemma PassedMeans(zone: Zone, day: int, time: string, now: Now)
    requires Regular(zone) && IsTime(time)
    ensures TimeHasPassed(zone, day, time, now) <==> HasShown(zone, day, time, now)
  {
    var wall := WallAt(day, MinuteOf(time));
    ResolveIsEarliest(zone, wall);
    if Resolve(zone, wall).Some? {
      assert Shows(zone, wall, Resolve(zone, wall).value);
    }
  }

  // ----- the verdict -----

  /** The worker was created on a later date, or on this one in a later minute than the shift's start. */
  ghost predicate IsNewcomer(d: Day, w: Worker) {
    && w.joined.Some?
    && (DateOf(d.zone, w.joined.value) > d.day
        || (DateOf(d.zone, w.joined.value) == d.day
            && AssignmentOf(d, w).Unique? && JoinedLate(d, w, AssignmentOf(d, w).schedule)))
  }

  ghost predicate JoinedLate(d: Day, w: Worker, s: Schedule)
    requires w.joined.Some?
  {
    && IsSupportedRange(s.start, s.end)
    && IsLaterMinute(d.zone, d.day, s.start, w.joined, Local(d.zone, w.joined.value) / 60 % 1_440)
  }

  lemma NewcomerMeans(d: Day, w: Worker)
    requires Regular(d.zone)
    ensures JoinedAfterStart(d.zone, w.joined, d.day, AssignedSchedule(d, w)) <==> IsNewcomer(d, w)
  {
    if w.joined.Some? && AssignmentOf(d, w).Unique? {
      var s := AssignmentOf(d, w).schedule;
      if IsSupportedRange(s.start, s.end) {
        ElapsedMeans(d.zone, d.day, s.start, w.joined, Local(d.zone, w.joined.value) / 60 % 1_440);
      }
    }
  }

  /** The worker's first clock-in is in a later minute than the shift's start. */
  ghost predicate ArrivedLate(d: Day, attendance: seq<Punch>, worker: nat, s: Schedule)
    requires IsTime(s.start)
  {
    exists i: nat :: IsArrival(attendance, worker, i)
      && IsLaterMinute(d.zone, d.day, s.start, attendance[i].epoch, attendance[i].wallMinute)
  }

  lemma LateMeans(d: Day, attendance: seq<Punch>, worker: nat, s: Schedule)
    requires Regular(d.zone) && IsTime(s.start)
    ensures var firstIn := FirstIn(EventsOf(attendance, worker));
            && (firstIn.Some? <==> Arrived(attendance, worker))
            && (firstIn.Some? && IsLate(d, s, firstIn.value) <==> ArrivedLate(d, attendance, worker, s))
  {
    FirstOf(attendance, worker);
    var firstIn := FirstIn(EventsOf(attendance, worker));
    if firstIn.Some? {
      var i: nat :| IsArrival(attendance, worker, i) && firstIn == Some(attendance[i]);
      assert forall j: nat :: IsArrival(attendance, worker, j) ==> !(i < j) && !(j < i);
      ElapsedMeans(d.zone, d.day, s.start, attendance[i].epoch, attendance[i].wallMinute);
    }
  }

  /** What the status of a worker with the schedule `s` must be. */
  ghost predicate StatusFits(d: Day, attendance: seq<Punch>, w: Worker, s: Schedule, status: Status, late: bool)
    requires IsTime(s.start)
  {
    var newcomer, left := IsNewcomer(d, w), HasLeft(attendance, w.id);
    var arrived := Arrived(attendance, w.id);
    && (status == Missing <==> !newcomer && !arrived && HasShown(d.zone, d.day, s.start, d.now))
    && (status == NotYetDue <==> !newcomer && !arrived && !HasShown(d.zone, d.day, s.start, d.now))
    && (status == ClockedOut <==> left && (newcomer || arrived))
    && (status == Late <==> !newcomer && !left && ArrivedLate(d, attendance, w.id, s))
    && (late <==> !newcomer && ArrivedLate(d, attendance, w.id, s))
  }

  lemma StatusMeans(d: Day, attendance: seq<Punch>, w: Worker, s: Schedule)
    requires Regular(d.zone) && IsTime(s.start)
    ensures var events, checks := EventsOf(attendance, w.id), !IsNewcomer(d, w);
            StatusFits(d, attendance, w, s, WorkerStatus(d, s, FirstIn(events), LastEvent(events), checks),
                       WorkerStatus(d, s, FirstIn(events), None, checks) == Late)
  {
    LastOf(attendance, w.id);
    LateMeans(d, attendance, w.id, s);
    PassedMeans(d.zone, d.day, s.start, d.now);
  }

  /** This schedule alone applies to the worker: of its department, or, if that has none that day, of
      those without a department. */
  ghost predicate IsTheSchedule(d: Day, w: Worker, s: Schedule) {
    exists tier :: tier in [w.departmentKey, ""] && IsOnly(d, tier, s)
      && (tier == "" ==> NoneApplies(d, w.departmentKey) || w.departmentKey == "")
  }

  ghost predicate IsOnly(d: Day, department: string, s: Schedule) {
    && s in d.schedules && Schedules.Applies(s, department, d.weekday)
    && forall t :: t in d.schedules && Schedules.Applies(t, department, d.weekday) ==> t == s
  }

  ghost predicate NoneApplies(d: Day, department: string) {
    forall s :: s in d.schedules ==> !Schedules.Applies(s, department, d.weekday)
  }

  /** A worker is left out exactly if it joined too late and has not punched.  Otherwise it has no schedule
      exactly if none applies, and a status, if it has one, by the only schedule that applies, by its
      punches and by the clock. */
  lemma VerdictMeans(d: Day, attendance: seq<Punch>, w: Worker)
    requires Regular(d.zone)
    ensures var v := VerdictOf(d, attendance, w);
            && (v == Omitted <==> IsNewcomer(d, w) && !Punched(attendance, w.id))
            && (v != Omitted ==>
                 (v == Unscheduled(UnassignedSchedule) <==> NoneApplies(d, w.departmentKey) && NoneApplies(d, "")))
            && (v.Unscheduled? && v.reason == UnsupportedSchedule ==>
                 exists s :: IsTheSchedule(d, w, s) && !IsSupportedRange(s.start, s.end))
            && (v.Scheduled? ==>
                 exists s :: IsTheSchedule(d, w, s) && IsSupportedRange(s.start, s.end)
                   && StatusFits(d, attendance, w, s, v.status, v.late) && v.row == RowName(w, s))
  {
    NewcomerMeans(d, w);
    LastOf(attendance, w.id);
    UnassignedIff(w.departmentKey, d.schedules, d.weekday);
    if AssignmentOf(d, w).Unique? {
      AssignmentIsTheOnlyOne(w.departmentKey, d.schedules, d.weekday);
      var s := AssignmentOf(d, w).schedule;
      var tier := if AssignmentOf(d, w).byDepartment then w.departmentKey else "";
      assert IsOnly(d, tier, s);
      assert IsTheSchedule(d, w, s);
      if IsSupportedRange(s.start, s.end) {
        StatusMeans(d, attendance, w, s);
      }
    }
  }

  // ----- rows -----

  function Department(w: Worker): string {
    if w.department == "" then "Unassigned" else w.department
  }

  lemma SuffixesAgree(a: string, b: string, s: string, t: string)
    requires |s| == |t|
    ensures a + s == b + t <==> a == b && s == t
  {
    if a + s == b + t {
      assert a == (a + s)[..|a|] && b == (b + t)[..|b|];
      assert s == (a + s)[|a|..] && t == (b + t)[|b|..];
    }
  }

  /** Two workers are counted in the same row exactly if their shifts start and end alike and their
      departments and schedules are named alike when joined by a colon. */
  lemma RowsCoincideIff(v: Worker, s: Schedule, w: Worker, t: Schedule)
    requires IsSupportedRange(s.start, s.end) && IsSupportedRange(t.start, t.end)
    ensures RowName(v, s) == RowName(w, t) <==>
            s.start == t.start && s.end == t.end && Department(v) + ":" + s.name == Department(w) + ":" + t.name
  {
    var a, b := Department(v) + ":" + s.name, Department(w) + ":" + t.name;
    SuffixesAgree(a, b, ":" + s.start + ":" + s.end, ":" + t.start + ":" + t.end);
    SuffixesAgree(":" + s.start + ":", ":" + t.start + ":", s.end, t.end);
    assert RowName(v, s) == a + (":" + s.start + ":" + s.end);
    assert RowName(w, t) == b + (":" + t.start + ":" + t.end);
    assert ":" + s.start + ":" == ":" + t.start + ":" ==> s.start == (":" + s.start + ":")[1..6] == t.start;
  }

  /** So a department or a schedule whose name has a colon can share a row with another one. */
  lemma RowsCanCoincide(v: Worker, s: Schedule, w: Worker, t: Schedule)
    requires v.department == "A" && s.name == "B:C" && w.department == "A:B" && t.name == "C"
    requires s.start == t.start && s.end == t.end
    ensures RowName(v, s) == RowName(w, t)
  {
    assert "A" + ":" + "B:C" == "A:B" + ":" + "C";
  }
}
