/** Clock inference over runs: what a scan is answered, in terms of the person's last recorded event,
    also when the person's row was deleted and came back under another local id. */
module KioskClock {
  import opened Options
  import opened Events
  import opened KioskLog
  import opened KioskPruning

  // ----- a person -----

  /** A person is a local row, an identity, or both: the row may be deleted, and only an identity can
      bring it back. */
  datatype Person = Person(local: Option<nat>, server: Option<nat>)

  ghost function LocalOf(workers: map<nat, Option<nat>>, server: nat): (w: Option<nat>)
    ensures w.Some? ==> w.value in workers && workers[w.value] == Some(server)
    ensures w == None ==> forall x :: x in workers ==> workers[x] != Some(server)
  {
    if exists x :: x in workers && workers[x] == Some(server) then
      var x :| x in workers && workers[x] == Some(server);
      Some(x)
    else None
  }

  /** Where the person is when the rows are these. */
  ghost function Follow(p: Person, workers: map<nat, Option<nat>>): Person {
    if p.local.Some? && p.local.value in workers then
      Person(p.local, if workers[p.local.value].Some? then workers[p.local.value] else p.server)
    else if p.server.Some? then Person(LocalOf(workers, p.server.value), p.server)
    else Person(None, None)
  }

  /** No two rows have the same identity. */
  ghost predicate OneRowEach(k: Kiosk) {
    forall x, y :: x in k.workers && y in k.workers && k.workers[x].Some? && k.workers[x] == k.workers[y] ==> x == y
  }

  lemma OneRowStays(k: Kiosk, op: Op)
    requires IdentityOk(k) && OneRowEach(k)
    ensures OneRowEach(Perform(k, op, false).0)
  {
  }

  /** The row is of an event of this person. */
  ghost predicate IsOf(row: LogRow, p: Person) {
    (p.local.Some? && row.worker == p.local.value) || (p.server.Some? && row.server == p.server)
  }

  /** `last` is the person's last recorded event, if there is any. */
  ghost predicate Tracked(k: Kiosk, p: Person, last: Option<nat>) {
    && IdentityOk(k) && OneRowEach(k)
    && (p.local.Some? ==> p.local.value in k.workers && k.workers[p.local.value] == p.server)
    && (p.local == None && p.server.Some? ==> forall x :: x in k.workers ==> k.workers[x] != p.server)
    && (last.Some? ==> last.value in k.logs && (p != Person(None, None) ==> IsOf(k.logs[last.value], p)))
    && (forall j :: j in k.logs && IsOf(k.logs[j], p) ==> last.Some? && j <= last.value)
  }

  /** An operation that neither records an event of the person, nor repairs the last one's time, nor
      makes the person's a row, or an identity, that has other events. */
  ghost predicate Quiet(k: Kiosk, op: Op, p: Person, last: Option<nat>) {
    var q := Follow(p, Perform(k, op, false).0.workers);
    && (op.Scan? || op.Manual? ==> p.local != Some(op.w) || Perform(k, op, false).1 == Clocked(None))
    && (op.Release? ==> last != Some(op.id))
    && (q.local != p.local && q.local.Some? ==> q.local.value !in k.workers)
    && (q.server != p.server ==>
          forall j :: j in k.logs && k.logs[j].server == q.server ==> last.Some? && j <= last.value)
  }

  // ----- the last event stays the last one -----

  lemma RecordingKeepsTrack(k: Kiosk, op: Op, p: Person, last: Option<nat>)
    requires Tracked(k, p, last) && Quiet(k, op, p, last) && (op.Scan? || op.Manual?)
    ensures Tracked(Perform(k, op, false).0, Follow(p, Perform(k, op, false).0.workers), last)
  {
    IdentityIsKept(k, op, false);
    OneRowStays(k, op);
  }

  lemma FreezingKeepsTrack(k: Kiosk, w: nat, p: Person, last: Option<nat>)
    requires Tracked(k, p, last)
    ensures Tracked(FreezeIdentity(k, w), Follow(p, k.workers), last)
  {
    FreezeKeepsIdentity(k, w);
  }

  /** The row goes after its events have its identity. */
  lemma RowGoes(k: Kiosk, w: nat, p: Person, last: Option<nat>)
    requires Tracked(k, p, last)
    requires forall i :: i in k.logs && w in k.workers && k.logs[i].worker == w ==> k.logs[i].server == k.workers[w]
    requires IdentityOk(k.(workers := k.workers - {w}))
    ensures Tracked(k.(workers := k.workers - {w}), Follow(p, k.workers - {w}), last)
  {
  }

  lemma RemovalKeepsTrack(k: Kiosk, w: nat, p: Person, last: Option<nat>)
    requires Tracked(k, p, last)
    ensures Tracked(DeleteWorker(k, w), Follow(p, DeleteWorker(k, w).workers), last)
  {
    FreezingKeepsTrack(k, w, p, last);
    assert Follow(p, k.workers) == p;
    RowGoes(FreezeIdentity(k, w), w, p, last);
  }

  lemma EnrollmentKeepsTrack(k: Kiosk, op: Op, p: Person, last: Option<nat>)
    requires Tracked(k, p, last) && Quiet(k, op, p, last) && op.Enroll?
    ensures Tracked(Perform(k, op, false).0, Follow(p, Perform(k, op, false).0.workers), last)
  {
    IdentityIsKept(k, op, false);
    OneRowStays(k, op);
  }

  lemma MarkingKeepsTrack(k: Kiosk, ids: set<nat>, p: Person, last: Option<nat>)
    requires Tracked(k, p, last)
    ensures Tracked(MarkSynced(k, ids), Follow(p, k.workers), last)
  {
    MarkingKeepsIdentity(k, ids);
  }

  lemma ReleaseKeepsTrack(k: Kiosk, id: nat, epoch: Option<real>, p: Person, last: Option<nat>)
    requires Tracked(k, p, last)
    ensures Tracked(Retry(k, id, epoch), Follow(p, k.workers), last)
  {
  }

  lemma OtherKeepsTrack(k: Kiosk, op: Op, p: Person, last: Option<nat>)
    requires Tracked(k, p, last) && (op.Debounce? || op.LastAction? || op.Quarantine? || op.Prune?)
    ensures Tracked(Perform(k, op, false).0, Follow(p, Perform(k, op, false).0.workers), last)
  {
  }

  lemma QuietKeepsTrack(k: Kiosk, op: Op, p: Person, last: Option<nat>)
    requires Tracked(k, p, last) && Quiet(k, op, p, last)
    ensures Tracked(Perform(k, op, false).0, Follow(p, Perform(k, op, false).0.workers), last)
  {
    match op
    case Scan(_, _, _, _) => RecordingKeepsTrack(k, op, p, last);
    case Manual(_, _, _, _) => RecordingKeepsTrack(k, op, p, last);
    case Remove(w) => RemovalKeepsTrack(k, w, p, last);
    case Startup(w) => FreezingKeepsTrack(k, w, p, last);
    case Enroll(_, _) => EnrollmentKeepsTrack(k, op, p, last);
    case Synced(ids) => MarkingKeepsTrack(k, ids, p, last);
    case Release(id, epoch) => ReleaseKeepsTrack(k, id, epoch, p, last);
    case _ => OtherKeepsTrack(k, op, p, last);
  }

  // ----- over a run -----

  /** The kiosk with its whole log, before operation `n`. */
  ghost function At(k: Kiosk, ops: seq<Op>, n: nat): Kiosk
    requires n <= |ops|
  {
    if n == 0 then k else Perform(At(k, ops, n - 1), ops[n - 1], false).0
  }

  /** The person after the operations from number `from` on. */
  ghost function PersonAt(k: Kiosk, ops: seq<Op>, from: nat, n: nat, p: Person): Person
    requires from <= n <= |ops|
  {
    if n == from then p else Follow(PersonAt(k, ops, from, n - 1, p), At(k, ops, n).workers)
  }

  ghost predicate QuietBetween(k: Kiosk, ops: seq<Op>, from: nat, to: nat, p: Person, last: Option<nat>)
    requires from <= to <= |ops|
  {
    from == to ||
    (QuietBetween(k, ops, from, to - 1, p, last)
     && Quiet(At(k, ops, to - 1), ops[to - 1], PersonAt(k, ops, from, to - 1, p), last))
  }

  /** The event is as it was recorded. */
  ghost predicate SameEvent(k: Kiosk, later: Kiosk, last: Option<nat>) {
    last.Some? ==>
      && last.value in k.logs && last.value in later.logs
      && later.logs[last.value].action == k.logs[last.value].action
      && later.logs[last.value].epoch == k.logs[last.value].epoch
  }

  lemma QuietKeepsEvent(k: Kiosk, op: Op, p: Person, last: Option<nat>)
    requires Tracked(k, p, last) && Quiet(k, op, p, last)
    ensures SameEvent(k, Perform(k, op, false).0, last)
  {
  }

  /** Whether `last` is still the person's last event, and as it was at the start. */
  ghost function OnTrack(start: Kiosk, k: Kiosk, p: Person, last: Option<nat>): (bool, bool) {
    (Tracked(k, p, last), SameEvent(start, k, last))
  }

  lemma TrackStep(
    start: Kiosk, k: Kiosk, after: Kiosk, op: Op, p: Person, q: Person, last: Option<nat>)
    requires OnTrack(start, k, p, last) == (true, true) && Quiet(k, op, p, last)
    requires after == Perform(k, op, false).0 && q == Follow(p, after.workers)
    ensures OnTrack(start, after, q, last) == (true, true)
  {
    QuietKeepsTrack(k, op, p, last);
    QuietKeepsEvent(k, op, p, last);
  }

  lemma {:induction false} TrackGoesOn(k: Kiosk, ops: seq<Op>, from: nat, to: nat, p: Person, last: Option<nat>)
    requires from <= to <= |ops| && QuietBetween(k, ops, from, to, p, last)
    requires OnTrack(At(k, ops, from), At(k, ops, from), p, last) == (true, true)
    ensures OnTrack(At(k, ops, from), At(k, ops, to), PersonAt(k, ops, from, to, p), last) == (true, true)
  {
    if from < to {
      var n := to - 1;
      TrackGoesOn(k, ops, from, n, p, last);
      TrackStep(At(k, ops, from), At(k, ops, n), At(k, ops, to), ops[n],
                PersonAt(k, ops, from, n, p), PersonAt(k, ops, from, to, p), last);
    }
  }

  // ----- what the kiosk answers -----

  ghost predicate Within(scan: real, epoch: real, hours: real) {
    scan - epoch <= hours * 3600.0
  }

  /** What a scan must be answered, given the person's last event: on an automatic kiosk an exit
      exactly behind a readable entry that is not stale. */
  ghost function Direction(
    kind: KioskType, scan: Option<real>, stale: real, last: Option<(EventType, Option<real>)>): Option<EventType> {
    match kind
    case Entry => Some(ClockIn)
    case Exit => Some(ClockOut)
    case Auto =>
      if scan == None then None
      else if last.Some? && last.value.0 == ClockIn && last.value.1.Some?
              && Within(scan.value, last.value.1.value, stale) then Some(ClockOut)
      else Some(ClockIn)
  }

  lemma TrackedIsLast(k: Kiosk, p: Person, last: Option<nat>)
    requires Tracked(k, p, last) && p.local.Some?
    ensures LastAttendance(k, p.local.value) == last
  {
  }

  /** Every read and every scan is answered by the person's last event. */
  lemma AnswersFollowLast(k: Kiosk, op: Op, p: Person, last: Option<nat>, event: Option<(EventType, Option<real>)>)
    requires op.Scan? || op.Debounce? || op.LastAction?
    requires Tracked(k, p, last) && p.local == Some(op.w) && Shows(k, last, event)
    ensures IsAnswer(op, event, Perform(k, op, false).1)
  {
    TrackedIsLast(k, p, last);
  }

  /** What is recorded: one row, with the answer's direction, the scan's time, and the worker's
      identity. */
  lemma RecordedRow(k: Kiosk, op: Op, action: EventType)
    requires (op.Scan? || op.Manual?) && Perform(k, op, false).1 == Clocked(Some(action))
    ensures op.w in k.workers
    ensures Perform(k, op, false).0 ==
            k.(logs := k.logs[k.nextLog := LogRow(op.w, k.workers[op.w], action, op.scan, false)],
               nextLog := k.nextLog + 1)
    ensures op.Manual? ==> action == op.action
  {
  }

  lemma EventIsTracked(k: Kiosk, op: Op, action: EventType)
    requires IdentityOk(k) && OneRowEach(k) && (op.Scan? || op.Manual?)
    requires Perform(k, op, false).1 == Clocked(Some(action))
    ensures op.w in k.workers
    ensures Tracked(Perform(k, op, false).0, Person(Some(op.w), k.workers[op.w]), Some(k.nextLog))
  {
    RecordedRow(k, op, action);
    IdentityIsKept(k, op, false);
  }

  // ----- every run of the kiosk -----

  /** What operation `n` of the run is answered, with all the pruning that the run does. */
  ghost function AnswerAt(k: Kiosk, ops: seq<Op>, n: nat): Option<Answer> {
    if n < |Run(k, ops, true).1| then Some(Run(k, ops, true).1[n]) else None
  }

  lemma {:induction false} AtOfPrefix(k: Kiosk, ops: seq<Op>, m: nat, n: nat)
    requires n <= m <= |ops|
    ensures At(k, ops[..m], n) == At(k, ops, n)
  {
    if n > 0 {
      AtOfPrefix(k, ops, m, n - 1);
    }
  }

  lemma {:induction false} RunIsAt(k: Kiosk, ops: seq<Op>)
    ensures Run(k, ops, false).0 == At(k, ops, |ops|) && |Run(k, ops, false).1| == |ops|
  {
    if ops != [] {
      RunIsAt(k, ops[..|ops| - 1]);
      AtOfPrefix(k, ops, |ops| - 1, |ops| - 1);
    }
  }

  lemma LastAnswer(k: Kiosk, ops: seq<Op>, n: nat)
    requires n + 1 == |ops|
    ensures Run(k, ops, false).1 == Run(k, ops[..n], false).1 + [Perform(At(k, ops, n), ops[n], false).1]
  {
    RunIsAt(k, ops[..n]);
    AtOfPrefix(k, ops, n, n);
  }

  lemma {:induction false} AnswersInOrder(k: Kiosk, ops: seq<Op>, n: nat)
    requires n < |ops|
    ensures |Run(k, ops, false).1| == |ops|
    ensures Run(k, ops, false).1[n] == Perform(At(k, ops, n), ops[n], false).1
  {
    var last := |ops| - 1;
    RunIsAt(k, ops);
    RunIsAt(k, ops[..last]);
    LastAnswer(k, ops, last);
    if n < last {
      AnswersInOrder(k, ops[..last], n);
      AtOfPrefix(k, ops, last, n);
    }
  }

  lemma AnswerIsPerformed(k: Kiosk, ops: seq<Op>, n: nat)
    requires IdentityOk(k) && n < |ops|
    ensures AnswerAt(k, ops, n) == Some(Perform(At(k, ops, n), ops[n], false).1)
  {
    PruningIsInvisible(k, ops);
    AnswersInOrder(k, ops, n);
  }

  lemma {:induction false} RunIsOk(k: Kiosk, ops: seq<Op>, n: nat)
    requires IdentityOk(k) && OneRowEach(k) && n <= |ops|
    ensures IdentityOk(At(k, ops, n)) && OneRowEach(At(k, ops, n))
  {
    if n > 0 {
      RunIsOk(k, ops, n - 1);
      IdentityIsKept(At(k, ops, n - 1), ops[n - 1], false);
      OneRowStays(At(k, ops, n - 1), ops[n - 1]);
    }
  }

  /** What an operation must be answered if the person's last event was this one. */
  ghost predicate IsAnswer(op: Op, last: Option<(EventType, Option<real>)>, answer: Answer) {
    match op
    case Scan(kind, _, scan, stale) =>
      answer == Clocked(Direction(kind, scan, stale, last))
    case Debounce(_, now, minutes) =>
      answer == Recent(last.Some? && last.value.1.Some? && 0.0 <= now - last.value.1.value
                       && now - last.value.1.value <= minutes * 60.0)
    case LastAction(_) => answer == Last(last)
    case _ => true
  }

  /** The person that an event of operation `i` is of. */
  ghost function PersonOf(k: Kiosk, ops: seq<Op>, i: nat): Person
    requires i < |ops| && (ops[i].Scan? || ops[i].Manual?)
  {
    Person(Some(ops[i].w), ServerOf(At(k, ops, i), ops[i].w))
  }

  /** Operation `j` is about the person of the event that operation `i` recorded, and nothing in between
      disturbs that event's being the last. */
  ghost predicate ComesNext(k: Kiosk, ops: seq<Op>, i: nat, j: nat) {
    && i < j < |ops| && (ops[i].Scan? || ops[i].Manual?) && (ops[j].Scan? || ops[j].Debounce? || ops[j].LastAction?)
    && QuietBetween(k, ops, i + 1, j, PersonOf(k, ops, i), Some(At(k, ops, i).nextLog))
    && PersonAt(k, ops, i + 1, j, PersonOf(k, ops, i)).local == Some(ops[j].w)
  }

  lemma EventIsSeen(k: Kiosk, ops: seq<Op>, i: nat, action: EventType)
    requires IdentityOk(k) && OneRowEach(k) && i < |ops| && (ops[i].Scan? || ops[i].Manual?)
    requires AnswerAt(k, ops, i) == Some(Clocked(Some(action)))
    ensures var last := Some(At(k, ops, i).nextLog);
            && Tracked(At(k, ops, i + 1), PersonOf(k, ops, i), last)
            && Shows(At(k, ops, i + 1), last, Some((action, ops[i].scan)))
  {
    RunIsOk(k, ops, i);
    AnswerIsPerformed(k, ops, i);
    EventIsTracked(At(k, ops, i), ops[i], action);
    RecordedRow(At(k, ops, i), ops[i], action);
  }

  /** A scan, a debounce check and a look at the last action are answered by the person's last event,
      whatever the kiosk did in between: other people's events, uploads, quarantines, prunes, and also
      the deletion of the person's row and its return under another local id. */
  lemma NextAnswer(k: Kiosk, ops: seq<Op>, i: nat, j: nat, action: EventType)
    requires IdentityOk(k) && OneRowEach(k) && ComesNext(k, ops, i, j)
    requires AnswerAt(k, ops, i) == Some(Clocked(Some(action)))
    ensures AnswerAt(k, ops, j).Some? && IsAnswer(ops[j], Some((action, ops[i].scan)), AnswerAt(k, ops, j).value)
  {
    EventIsSeen(k, ops, i, action);
    AnswerIsPerformed(k, ops, j);
    AnswerFollows(
      k, ops, i + 1, j, PersonOf(k, ops, i), Some(At(k, ops, i).nextLog), Some((action, ops[i].scan)));
  }

  ghost predicate Shows(k: Kiosk, last: Option<nat>, event: Option<(EventType, Option<real>)>) {
    match last
    case None => event == None
    case Some(i) => i in k.logs && event == Some((k.logs[i].action, k.logs[i].epoch))
  }

  lemma AnswerFollows(
    k: Kiosk, ops: seq<Op>, from: nat, j: nat, p: Person, last: Option<nat>, event: Option<(EventType, Option<real>)>)
    requires from <= j < |ops| && (ops[j].Scan? || ops[j].Debounce? || ops[j].LastAction?)
    requires Tracked(At(k, ops, from), p, last) && Shows(At(k, ops, from), last, event)
    requires QuietBetween(k, ops, from, j, p, last) && PersonAt(k, ops, from, j, p).local == Some(ops[j].w)
    ensures IsAnswer(ops[j], event, Perform(At(k, ops, j), ops[j], false).1)
  {
    TrackGoesOn(k, ops, from, j, p, last);
    AnswersFollowLast(At(k, ops, j), ops[j], PersonAt(k, ops, from, j, p), last, event);
  }

  /** Operation `i` enrolls somebody who is new to the kiosk, and operation `j` is that person's first. */
  ghost predicate ComesFirst(k: Kiosk, ops: seq<Op>, i: nat, j: nat) {
    && i < j < |ops| && ops[i].Enroll? && (ops[j].Scan? || ops[j].Debounce? || ops[j].LastAction?)
    && var w, server := At(k, ops, i).nextWorker, ops[i].server;
       && w in At(k, ops, i + 1).workers
       && (server.Some? ==> forall l :: l in At(k, ops, i).logs ==> At(k, ops, i).logs[l].server != server)
       && QuietBetween(k, ops, i + 1, j, Person(Some(w), server), None)
       && PersonAt(k, ops, i + 1, j, Person(Some(w), server)).local == Some(ops[j].w)
  }

  lemma NewcomerIsTracked(k: Kiosk, server: Option<nat>, nameMatch: Option<nat>)
    requires IdentityOk(k) && OneRowEach(k) && k.nextWorker in AddWorker(k, server, nameMatch).workers
    requires server.Some? ==> forall l :: l in k.logs ==> k.logs[l].server != server
    ensures Tracked(AddWorker(k, server, nameMatch), Person(Some(k.nextWorker), server), None)
  {
    IdentityIsKept(k, Enroll(server, nameMatch), false);
    OneRowStays(k, Enroll(server, nameMatch));
  }

  /** The first scan of a newcomer on an automatic kiosk is an entry. */
  lemma FirstAnswer(k: Kiosk, ops: seq<Op>, i: nat, j: nat)
    requires IdentityOk(k) && OneRowEach(k) && ComesFirst(k, ops, i, j)
    ensures AnswerAt(k, ops, j).Some? && IsAnswer(ops[j], None, AnswerAt(k, ops, j).value)
  {
    RunIsOk(k, ops, i);
    AnswerIsPerformed(k, ops, j);
    NewcomerIsTracked(At(k, ops, i), ops[i].server, ops[i].nameMatch);
    AnswerFollows(k, ops, i + 1, j, Person(Some(At(k, ops, i).nextWorker), ops[i].server), None, None);
  }

  // ----- alternation -----

  /** Readable scans of one person on an automatic kiosk, each within the stale window of the one
      before it, with nothing of the person in between. */
  ghost predicate Steady(k: Kiosk, ops: seq<Op>, scans: seq<nat>) {
    && (forall n :: 0 <= n < |scans| ==>
          scans[n] < |ops| && ops[scans[n]].Scan? && ops[scans[n]].kind == Auto && ops[scans[n]].scan.Some?)
    && (forall n :: 0 < n < |scans| ==>
          && ComesNext(k, ops, scans[n - 1], scans[n])
          && Within(ops[scans[n]].scan.value, ops[scans[n - 1]].scan.value, ops[scans[n]].staleHours))
  }

  /** They are recorded alternately as entry and exit. */
  lemma {:induction false} ScansAlternate(k: Kiosk, ops: seq<Op>, scans: seq<nat>, n: nat)
    requires IdentityOk(k) && OneRowEach(k) && Steady(k, ops, scans) && n < |scans|
    requires AnswerAt(k, ops, scans[0]) == Some(Clocked(Some(ClockIn)))
    ensures AnswerAt(k, ops, scans[n]) == Some(Clocked(Some(if n % 2 == 0 then ClockIn else ClockOut)))
  {
    if n > 0 {
      ScansAlternate(k, ops, scans, n - 1);
      NextAnswer(k, ops, scans[n - 1], scans[n], if (n - 1) % 2 == 0 then ClockIn else ClockOut);
    }
  }

  // ----- deletion and return -----

  /** An enrollment gives a new identity to the row that the name lookup found. */
  lemma RowIsLinked(k: Kiosk, server: nat, w: nat)
    requires w in k.workers && k.workers[w] == None && forall x :: x in k.workers ==> k.workers[x] != Some(server)
    ensures AddWorker(k, Some(server), Some(w)) == k.(workers := k.workers[w := Some(server)])
  {
  }

  /** A new identity that matches no row gets a new one. */
  lemma RowIsNew(k: Kiosk, server: nat, nameMatch: Option<nat>)
    requires nameMatch.Some? ==> nameMatch.value !in k.workers
    requires forall x :: x in k.workers ==> k.workers[x] != Some(server)
    ensures AddWorker(k, Some(server), nameMatch) ==
            k.(workers := k.workers[k.nextWorker := Some(server)], nextWorker := k.nextWorker + 1)
  {
  }

  /** Behind an event of a local worker the row gets an identity, is deleted, and returns under a new
      local id: the next scan under that id still comes next. */
  lemma ReturnComesNext(k: Kiosk, first: Op, w: nat, server: nat, nameMatch: Option<nat>, second: Op)
    requires IdentityOk(k) && OneRowEach(k) && w in k.workers && k.workers[w] == None
    requires forall x :: x in k.workers ==> k.workers[x] != Some(server)
    requires forall l :: l in k.logs ==> k.logs[l].server != Some(server)
    requires (first.Scan? || first.Manual?) && first.w == w && Perform(k, first, false).1.direction.Some?
    requires nameMatch.Some? ==> nameMatch.value !in k.workers
    requires second.Scan? && second.w == k.nextWorker
    ensures ComesNext(
              k, [first, Enroll(Some(server), Some(w)), Remove(w), Enroll(Some(server), nameMatch), second], 0, 4)
  {
    var ops := [first, Enroll(Some(server), Some(w)), Remove(w), Enroll(Some(server), nameMatch), second];
    var p, last := Person(Some(w), None), Some(k.nextLog);
    var recorded, linked, gone, back := At(k, ops, 1), At(k, ops, 2), At(k, ops, 3), At(k, ops, 4);
    RecordedRow(k, first, Perform(k, first, false).1.direction.value);
    assert recorded == Perform(At(k, ops, 0), first, false).0;
    RowIsLinked(recorded, server, w);
    assert linked == Perform(recorded, ops[1], false).0;
    assert gone == Perform(linked, ops[2], false).0 && gone.workers == linked.workers - {w};
    RowIsNew(gone, server, nameMatch);
    assert back == Perform(gone, ops[3], false).0 && gone.nextWorker == k.nextWorker;
    assert k.nextWorker in back.workers && back.workers[k.nextWorker] == Some(server);
    assert LocalOf(gone.workers, server) == None && LocalOf(back.workers, server) == Some(k.nextWorker);
    assert PersonAt(k, ops, 1, 2, p) == Person(Some(w), Some(server));
    assert PersonAt(k, ops, 1, 3, p) == Person(None, Some(server));
    assert PersonAt(k, ops, 1, 4, p) == Person(Some(k.nextWorker), Some(server));
    assert QuietBetween(k, ops, 1, 1, p, last) && PersonAt(k, ops, 1, 1, p) == p;
    assert Quiet(recorded, ops[1], p, last);
    assert QuietBetween(k, ops, 1, 2, p, last);
    assert QuietBetween(k, ops, 1, 3, p, last);
    assert QuietBetween(k, ops, 1, 4, p, last);
  }
}
