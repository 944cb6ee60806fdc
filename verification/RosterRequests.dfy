/** What the requests to the roster amount to, on the server and on every kiosk. */
module RosterRequests {
  import opened Options
  import opened RosterServer
  import opened RosterProtocol
  import opened RosterProofs
  import opened RosterProgress

  // ----- what each request says about a worker -----

  /** How many workers there are after these steps: those from the start and one for each creation. */
  ghost function Known(start: System, steps: seq<Step>): nat {
    if steps == [] then |start.server.workers|
    else
      var last := steps[|steps| - 1];
      Known(start, steps[..|steps| - 1]) + (if last.Write? && last.id == None then 1 else 0)
  }

  /** With `known` workers so far, the step creates worker `w`. */
  predicate Creates(known: nat, step: Step, w: nat) {
    step.Write? && step.id == None && w == known
  }

  predicate WritesTo(known: nat, step: Step, w: nat) {
    step.Write? && (Creates(known, step, w) || (step.id == Some(w) && w < known))
  }

  /** What a step says about whether the worker is active: a write that supplies the field, a new row
      that does not, a removal or a purge. */
  function SaysActive(known: nat, step: Step, w: nat): Option<bool> {
    if WritesTo(known, step, w) && step.fields.active.Some? then step.fields.active
    else if Creates(known, step, w) || (w < known && (step == Remove(w) || step == Purge(w))) then Some(false)
    else None
  }

  /** What a step says about the worker's template.  A removal keeps it, a purge does not. */
  function SaysTemplate(known: nat, step: Step, w: nat): Option<bool> {
    if WritesTo(known, step, w) && step.fields.template.Some? then step.fields.template
    else if Creates(known, step, w) || (w < known && step == Purge(w)) then Some(false)
    else None
  }

  /** What the last step that says something says, else what was so at the start. */
  ghost function ActiveBy(start: System, steps: seq<Step>, n: nat, w: nat): bool
    requires n <= |steps|
  {
    if n == 0 then w < |start.server.workers| && start.server.workers[w].active
    else SaysActive(Known(start, steps[..n - 1]), steps[n - 1], w).GetOr(ActiveBy(start, steps, n - 1, w))
  }

  ghost function TemplateBy(start: System, steps: seq<Step>, n: nat, w: nat): bool
    requires n <= |steps|
  {
    if n == 0 then w < |start.server.workers| && start.server.workers[w].template
    else SaysTemplate(Known(start, steps[..n - 1]), steps[n - 1], w).GetOr(TemplateBy(start, steps, n - 1, w))
  }

  // ----- the server follows the requests -----

  lemma {:induction false} CommitAllGrows(s: System, ids: seq<nat>)
    requires forall i :: 0 <= i < |ids| ==> ids[i] < |s.server.workers|
    ensures s.server.counter <= CommitAll(s, ids).server.counter
    ensures forall w :: 0 <= w < |s.server.workers| ==>
              CommitAll(s, ids).server.workers[w].active == s.server.workers[w].active &&
              CommitAll(s, ids).server.workers[w].template == s.server.workers[w].template
    decreases |ids|
  {
    if ids != [] {
      CommitAllGrows(s, ids[..|ids| - 1]);
    }
  }

  lemma CounterGrows(s: System, step: Step)
    requires Shaped(s)
    ensures s.server.counter <= Do(s, step).server.counter
  {
    match step
    case Backfill => CommitAllGrows(s, BackfillIds(s.server));
    case Write(_, _) => WriteCounts(s, step);
    case Remove(_) => WriteCounts(s, step);
    case Purge(_) => WriteCounts(s, step);
    case _ =>
  }

  lemma WriteCounts(s: System, step: Step)
    requires Shaped(s) && (step.Write? || step.Remove? || step.Purge?)
    ensures s.server.counter <= Do(s, step).server.counter
  {
  }

  /** Every step has had room in the sequence. */
  ghost predicate HasRoom(s: System) {
    s.server.counter < MAX_SAFE_INTEGER
  }

  ghost predicate Follows(start: System, steps: seq<Step>, w: nat, s: System) {
    && |s.server.workers| == Known(start, steps)
    && ActiveIn(s, w) == ActiveBy(start, steps, |steps|, w)
    && TemplateIn(s, w) == TemplateBy(start, steps, |steps|, w)
  }

  lemma {:induction false} ByPrefix(start: System, steps: seq<Step>, more: seq<Step>, n: nat, w: nat)
    requires n <= |steps| <= |more| && steps == more[..|steps|]
    ensures ActiveBy(start, steps, n, w) == ActiveBy(start, more, n, w)
    ensures TemplateBy(start, steps, n, w) == TemplateBy(start, more, n, w)
  {
    if n > 0 {
      assert steps[n - 1] == more[n - 1] && steps[..n - 1] == more[..n - 1];
      ByPrefix(start, steps, more, n - 1, w);
    }
  }

  ghost function ActiveIn(s: System, w: nat): bool {
    w < |s.server.workers| && s.server.workers[w].active
  }

  ghost function TemplateIn(s: System, w: nat): bool {
    w < |s.server.workers| && s.server.workers[w].template
  }

  /** The step does what it says. */
  ghost predicate Obeys(s: System, step: Step, w: nat, t: System) {
    var known := |s.server.workers|;
    && |t.server.workers| == known + (if step.Write? && step.id == None then 1 else 0)
    && ActiveIn(t, w) == SaysActive(known, step, w).GetOr(ActiveIn(s, w))
    && TemplateIn(t, w) == SaysTemplate(known, step, w).GetOr(TemplateIn(s, w))
  }

  lemma WriteObeys(s: System, fields: Fields, id: Option<nat>, w: nat)
    requires Shaped(s) && HasRoom(s)
    ensures Obeys(s, Write(fields, id), w, Do(s, Write(fields, id)))
  {
  }

  lemma RemoveObeys(s: System, v: nat, w: nat)
    requires Shaped(s) && HasRoom(s)
    ensures Obeys(s, Remove(v), w, Do(s, Remove(v))) && Obeys(s, Purge(v), w, Do(s, Purge(v)))
  {
  }

  lemma BackfillObeys(s: System, w: nat)
    requires Shaped(s)
    ensures Obeys(s, Backfill, w, Do(s, Backfill))
  {
    CommitAllGrows(s, BackfillIds(s.server));
  }

  lemma KioskStepObeys(s: System, step: Step, w: nat)
    requires Shaped(s) && !step.Write? && !step.Remove? && !step.Purge? && !step.Backfill?
    ensures Obeys(s, step, w, Do(s, step))
  {
  }

  lemma StepObeys(s: System, step: Step, w: nat)
    requires Shaped(s) && HasRoom(s)
    ensures Obeys(s, step, w, Do(s, step))
  {
    match step
    case Write(fields, id) => WriteObeys(s, fields, id, w);
    case Remove(v) => RemoveObeys(s, v, w);
    case Purge(v) => RemoveObeys(s, v, w);
    case Backfill => BackfillObeys(s, w);
    case _ => KioskStepObeys(s, step, w);
  }

  lemma StepFollows(start: System, steps: seq<Step>, w: nat, s: System, t: System)
    requires steps != [] && Follows(start, steps[..|steps| - 1], w, s) && Obeys(s, steps[|steps| - 1], w, t)
    ensures Follows(start, steps, w, t)
  {
    var n := |steps| - 1;
    ByPrefix(start, steps[..n], steps, n, w);
  }

  /** While the sequence has room, every worker is active, and has a template, exactly as the last
      request that says so says. */
  lemma {:induction false} ServerFollowsRequests(start: System, steps: seq<Step>, w: nat)
    requires Shaped(start) && HasRoom(Run(start, steps))
    ensures Follows(start, steps, w, Run(start, steps))
  {
    if steps != [] {
      var before := Run(start, steps[..|steps| - 1]);
      CounterGrows(before, steps[|steps| - 1]);
      ServerFollowsRequests(start, steps[..|steps| - 1], w);
      StepObeys(before, steps[|steps| - 1], w);
      StepFollows(start, steps, w, before, Run(start, steps));
    }
  }

  /** A row that the server hands out shows a template exactly if the requests so far say so. */
  lemma PagesFollowRequests(
    start: System, steps: seq<Step>, ss: Session, settled: bool, j: nat)
    requires Shaped(start) && HasRoom(Run(start, steps))
    requires var server := Run(start, steps).server;
             && (ss.cursor.FullScan? ==> ss.cursor.next <= |server.workers|)
             && |ss.rows| <= j < |NextPage(server, ss, settled).rows|
    ensures var row := NextPage(Run(start, steps).server, ss, settled).rows[j];
            row.present <==> ActiveBy(start, steps, |steps|, row.id) && TemplateBy(start, steps, |steps|, row.id)
  {
    var server := Run(start, steps).server;
    NextPageRows(server, ss, settled);
    ServerFollowsRequests(start, steps, NextPage(server, ss, settled).rows[j].id);
  }

  /** After any requests, two undisturbed syncs leave on the kiosk exactly the templates of the workers
      that the last requests about them left active and with a template. */
  lemma SyncsFollowRequests(
    start: System, steps: seq<Step>, k: nat, forceFull: bool, again: bool, flags: seq<bool>, m: nat, w: nat)
    requires Upgraded(start) && Orderly(start.server) && k < |start.devices| && HasRoom(Run(start, steps))
    requires var s := Run(start, steps);
             && s.server.kiosks[k].hasCredential
             && CountTrue(flags) >= PageBound(s.server) && m >= StepBound(s.server)
    ensures var s := Run(start, steps);
            var t := Run(s, SyncSteps(k, forceFull, flags, m, ReceiptOf(s.server, k), true));
            && |t.devices| == |s.devices| && t.server.kiosks[k].hasCredential
            && var u := Run(t, SyncSteps(k, again, flags, m, ReceiptOf(t.server, k), true));
               && |u.devices| == |s.devices|
               && (w in u.devices[k].local <==>
                     ActiveBy(start, steps, |steps|, w) && TemplateBy(start, steps, |steps|, w))
  {
    TwoSyncsConverge(start, steps, k, forceFull, again, flags, m);
    ServerFollowsRequests(start, steps, w);
  }

  // ----- a removed worker -----

  /** Step `m` makes the worker inactive, and no later one makes it active again. */
  ghost predicate InactiveSince(start: System, steps: seq<Step>, m: nat, w: nat) {
    && m < |steps| && w < Known(start, steps[..m]) && SaysActive(Known(start, steps[..m]), steps[m], w) == Some(false)
    && forall i :: m < i < |steps| ==> SaysActive(Known(start, steps[..i]), steps[i], w) != Some(true)
  }

  /** From the version `base` on, no version of the worker holds a template. */
  ghost predicate AbsentFrom(s: System, w: nat, base: nat) {
    && w < |s.server.workers| && !s.server.workers[w].active
    && forall v: nat :: base <= v && IsVersion(s, w, v) ==> !PresentAt(s, w, v)
  }

  lemma {:induction false} CommitAllLogs(s: System, ids: seq<nat>, w: nat)
    requires forall i :: 0 <= i < |ids| ==> ids[i] < |s.server.workers|
    requires w < |s.server.workers| && !s.server.workers[w].active
    ensures var t := CommitAll(s, ids);
            && s.log <= t.log && s.legacy == t.legacy && !t.server.workers[w].active
            && forall i :: |s.log| <= i < |t.log| && t.log[i].worker == w ==> !t.log[i].present
    decreases |ids|
  {
    if ids != [] {
      CommitAllLogs(s, ids[..|ids| - 1], w);
    }
  }

  /** What a step logs about a worker that it leaves inactive holds no template. */
  lemma StepLogs(s: System, step: Step, w: nat)
    requires Shaped(s) && w < |s.server.workers| && !ActiveIn(Do(s, step), w)
    requires !s.server.workers[w].active
    ensures var t := Do(s, step);
            && s.log <= t.log && s.legacy == t.legacy && |s.server.workers| <= |t.server.workers|
            && forall i :: |s.log| <= i < |t.log| && t.log[i].worker == w ==> !t.log[i].present
  {
    if step == Backfill {
      CommitAllLogs(s, BackfillIds(s.server), w);
    }
  }

  lemma AbsentStays(s: System, step: Step, w: nat, base: nat)
    requires Shaped(s) && HasRoom(s) && AbsentFrom(s, w, base) && base <= |s.log|
    requires SaysActive(|s.server.workers|, step, w) != Some(true)
    ensures AbsentFrom(Do(s, step), w, base)
  {
    StepObeys(s, step, w);
    StepLogs(s, step, w);
    var t := Do(s, step);
    forall v: nat | base <= v && IsVersion(t, w, v) ensures !PresentAt(t, w, v) {
      if v <= |s.log| {
        assert IsVersion(s, w, v);
      }
    }
  }

  lemma InactiveIsAbsent(s: System, w: nat)
    requires Inv(s) && w < |s.server.workers| && !s.server.workers[w].active
    ensures AbsentFrom(s, w, LastWrite(s.log, |s.log|, w))
  {
    CurrentVersion(s, w);
    assert RowOk(s, w);
  }

  lemma InactiveNow(start: System, steps: seq<Step>, w: nat)
    requires Shaped(start) && steps != [] && HasRoom(Run(start, steps))
    requires var known := Known(start, steps[..|steps| - 1]);
             w < known && SaysActive(known, steps[|steps| - 1], w) == Some(false)
    ensures w < |Run(start, steps).server.workers| && !Run(start, steps).server.workers[w].active
  {
    ServerFollowsRequests(start, steps, w);
  }

  lemma {:induction false} RoomBefore(start: System, steps: seq<Step>, n: nat)
    requires Shaped(start) && n <= |steps| && HasRoom(Run(start, steps))
    ensures HasRoom(Run(start, steps[..n]))
  {
    if n < |steps| {
      CounterGrows(Run(start, steps[..|steps| - 1]), steps[|steps| - 1]);
      RoomBefore(start, steps[..|steps| - 1], n);
      assert steps[..|steps| - 1][..n] == steps[..n];
    } else {
      assert steps[..n] == steps;
    }
  }

  /** Where the log was when the worker became inactive. */
  ghost function SequenceOf(start: System, steps: seq<Step>, m: nat): nat
    requires Shaped(start) && m < |steps|
  {
    |Run(start, steps[..m + 1]).log|
  }

  lemma LogGrows(s: System, step: Step)
    requires Inv(s)
    ensures s.log <= Do(s, step).log
  {
    if step == Backfill {
      CommitAllOnlyLogs(s, BackfillIds(s.server));
    }
  }

  lemma {:induction false} CommitAllOnlyLogs(s: System, ids: seq<nat>)
    requires forall i :: 0 <= i < |ids| ==> ids[i] < |s.server.workers|
    ensures s.log <= CommitAll(s, ids).log
    decreases |ids|
  {
    if ids != [] {
      CommitAllOnlyLogs(s, ids[..|ids| - 1]);
    }
  }

  lemma AbsentFirst(start: System, steps: seq<Step>, w: nat)
    requires Upgraded(start) && steps != [] && HasRoom(Run(start, steps))
    requires var known := Known(start, steps[..|steps| - 1]);
             w < known && SaysActive(known, steps[|steps| - 1], w) == Some(false)
    ensures var s := Run(start, steps); AbsentFrom(s, w, LastWrite(s.log, |s.log|, w))
  {
    RunKeepsInv(start, steps);
    InactiveNow(start, steps, w);
    InactiveIsAbsent(Run(start, steps), w);
  }

  lemma AbsentNext(start: System, steps: seq<Step>, w: nat, base: nat)
    requires Upgraded(start) && steps != [] && HasRoom(Run(start, steps))
    requires var before := Run(start, steps[..|steps| - 1]); AbsentFrom(before, w, base) && base <= |before.log|
    requires SaysActive(Known(start, steps[..|steps| - 1]), steps[|steps| - 1], w) != Some(true)
    ensures AbsentFrom(Run(start, steps), w, base)
    ensures Run(start, steps[..|steps| - 1]).log <= Run(start, steps).log
  {
    var front, last := steps[..|steps| - 1], steps[|steps| - 1];
    RunKeepsInv(start, front);
    CounterGrows(Run(start, front), last);
    ServerFollowsRequests(start, front, w);
    LogGrows(Run(start, front), last);
    AbsentStays(Run(start, front), last, w, base);
  }

  /** Absent in every version that is at least as new as the last one of the log `past`. */
  ghost predicate AbsentSince(s: System, w: nat, past: seq<Commit>) {
    past <= s.log && AbsentFrom(s, w, LastWrite(past, |past|, w))
  }

  lemma AbsentGoesOn(start: System, steps: seq<Step>, w: nat, past: seq<Commit>)
    requires Upgraded(start) && steps != [] && HasRoom(Run(start, steps))
    requires AbsentSince(Run(start, steps[..|steps| - 1]), w, past)
    requires SaysActive(Known(start, steps[..|steps| - 1]), steps[|steps| - 1], w) != Some(true)
    ensures AbsentSince(Run(start, steps), w, past)
  {
    AbsentNext(start, steps, w, LastWrite(past, |past|, w));
  }

  lemma {:induction false} InactiveStaysAbsent(start: System, steps: seq<Step>, m: nat, w: nat, cut: seq<Step>)
    requires Upgraded(start) && HasRoom(Run(start, steps)) && InactiveSince(start, steps, m, w) && cut == steps[..m + 1]
    ensures AbsentSince(Run(start, steps), w, Run(start, cut).log)
    decreases |steps|
  {
    if m + 1 == |steps| {
      assert cut == steps;
      AbsentFirst(start, steps, w);
    } else {
      var front := steps[..|steps| - 1];
      assert front[..m + 1] == cut;
      RoomBefore(start, steps, |steps| - 1);
      InactiveEarlier(start, steps, m, w);
      InactiveStaysAbsent(start, front, m, w, cut);
      AbsentGoesOn(start, steps, w, Run(start, cut).log);
    }
  }

  lemma InactiveEarlier(start: System, steps: seq<Step>, m: nat, w: nat)
    requires InactiveSince(start, steps, m, w) && m + 1 < |steps|
    ensures InactiveSince(start, steps[..|steps| - 1], m, w)
  {
    var front := steps[..|steps| - 1];
    assert front[..m] == steps[..m];
    forall i | m < i < |front| ensures SaysActive(Known(start, front[..i]), front[i], w) != Some(true) {
      assert front[..i] == steps[..i];
    }
  }

  /** A removed worker leaves every kiosk: whatever else happens, once a kiosk has reported a sequence at
      or after the removal, it stores no template of the worker, until a request activates the worker
      again. */
  lemma RemovedIsGone(start: System, steps: seq<Step>, m: nat, w: nat, k: nat)
    requires Upgraded(start) && HasRoom(Run(start, steps)) && InactiveSince(start, steps, m, w)
    requires k < |start.devices| && Run(start, steps).server.kiosks[k].applied.Some?
    requires Run(start, steps).server.kiosks[k].applied.value >= SequenceOf(start, steps, m)
    ensures w !in Run(start, steps).devices[k].local
  {
    var s := Run(start, steps);
    var cut := steps[..m + 1];
    InactiveStaysAbsent(start, steps, m, w, cut);
    RunKeepsInv(start, steps);
    AbsentIsGone(s, w, Run(start, cut).log, k);
  }

  lemma AbsentIsGone(s: System, w: nat, past: seq<Commit>, k: nat)
    requires Inv(s) && AbsentSince(s, w, past) && k < |s.devices|
    requires s.server.kiosks[k].applied.Some? && s.server.kiosks[k].applied.value >= |past|
    ensures w !in s.devices[k].local
  {
    CertificationHolds(s, k, w);
    LastWriteOfPrefix(past, s.log, |past|, w);
    LastWriteMonotone(s.log, |past|, s.server.kiosks[k].applied.value, w);
  }
}
