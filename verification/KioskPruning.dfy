/** Pruning refines no pruning: deleting old history never changes what a later scan is answered. */
module KioskPruning {
  import opened Options
  import opened Events
  import opened KioskLog

  datatype Op =
    | Enroll(server: Option<nat>, nameMatch: Option<nat>)
    | Remove(w: nat)
    | Scan(kind: KioskType, w: nat, scan: Option<real>, staleHours: real)
    | Manual(kind: KioskType, w: nat, action: EventType, scan: Option<real>)
    | Debounce(w: nat, now: real, minutes: real)
    | LastAction(w: nat)
    | Startup(w: nat)
    | Synced(ids: set<nat>)
    | Quarantine(id: nat)
    | Release(id: nat, epoch: Option<real>)
    | Prune(candidates: set<nat>, cutoff: real)

  datatype Answer =
    | Done
    | Clocked(direction: Option<EventType>)
    | Recent(yes: bool)
    | Last(last: Option<(EventType, Option<real>)>)

  /** With `prunes` false the history is kept for ever. */
  function Perform(k: Kiosk, op: Op, prunes: bool): (Kiosk, Answer) {
    match op
    case Enroll(server, nameMatch) => (AddWorker(k, server, nameMatch), Done)
    case Remove(w) => (DeleteWorker(k, w), Done)
    case Scan(kind, w, scan, stale) =>
      var (next, recorded) := LogAttendance(k, kind, w, None, scan, stale); (next, Clocked(recorded))
    case Manual(kind, w, action, scan) =>
      var (next, recorded) := LogAttendance(k, kind, w, Some(action), scan, 0.0); (next, Clocked(recorded))
    case Debounce(w, now, minutes) => (k, Recent(WasRecentlyClocked(k, w, now, minutes)))
    case LastAction(w) => (k, Last(LastEvent(k, w)))
    case Startup(w) => (FreezeIdentity(k, w), Done)
    case Synced(ids) => (MarkSynced(k, ids), Done)
    case Quarantine(id) => (Reject(k, id), Done)
    case Release(id, epoch) => (Retry(k, id, epoch), Done)
    case Prune(candidates, cutoff) => (if prunes then DeleteRows(k, candidates, cutoff) else k, Done)
  }

  function LastEvent(k: Kiosk, w: nat): Option<(EventType, Option<real>)> {
    match LastAttendance(k, w)
    case None => None
    case Some(i) => Some((k.logs[i].action, k.logs[i].epoch))
  }

  function Run(k: Kiosk, ops: seq<Op>, prunes: bool): (Kiosk, seq<Answer>) {
    if ops == [] then (k, [])
    else
      var (before, answers) := Run(k, ops[..|ops| - 1], prunes);
      var (after, answer) := Perform(before, ops[|ops| - 1], prunes);
      (after, answers + [answer])
  }

  // ----- identity continuity -----

  /** Of two events of one local id, the later one has the earlier one's identity if that has any. */
  predicate SnapshotsFit(earlier: LogRow, later: LogRow) {
    earlier.worker == later.worker && earlier.server.Some? ==> later.server == earlier.server
  }

  /** Each local id's snapshots go from empty to one fixed server identity, in insertion order,
      and agree with the roster while the worker is enrolled. */
  ghost predicate IdentityOk(k: Kiosk) {
    && (forall i :: i in k.logs ==> i < k.nextLog && k.logs[i].worker < k.nextWorker)
    && (forall w :: w in k.workers ==> w < k.nextWorker)
    && (forall i, j :: i in k.logs && j in k.logs && i < j ==> SnapshotsFit(k.logs[i], k.logs[j]))
    && (forall i :: i in k.logs && k.logs[i].server.Some? && k.logs[i].worker in k.workers ==>
          k.workers[k.logs[i].worker] == k.logs[i].server)
  }

  lemma FreezeKeepsIdentity(k: Kiosk, w: nat)
    requires IdentityOk(k)
    ensures IdentityOk(FreezeIdentity(k, w))
  {
  }

  lemma IdentityIsKept(k: Kiosk, op: Op, prunes: bool)
    requires IdentityOk(k)
    ensures IdentityOk(Perform(k, op, prunes).0)
  {
    match op
    case Remove(w) => FreezeKeepsIdentity(k, w);
    case Startup(w) => FreezeKeepsIdentity(k, w);
    case Enroll(server, nameMatch) => EnrollKeepsIdentity(k, server, nameMatch);
    case Scan(kind, w, scan, stale) => LoggingKeepsIdentity(k, kind, w, None, scan, stale);
    case Manual(kind, w, action, scan) => LoggingKeepsIdentity(k, kind, w, Some(action), scan, 0.0);
    case Synced(ids) => MarkingKeepsIdentity(k, ids);
    case Prune(candidates, cutoff) => DeletionKeepsIdentity(k, candidates, cutoff);
    case _ =>
  }

  lemma EnrollKeepsIdentity(k: Kiosk, server: Option<nat>, nameMatch: Option<nat>)
    requires IdentityOk(k)
    ensures IdentityOk(AddWorker(k, server, nameMatch))
  {
  }

  lemma LoggingKeepsIdentity(
    k: Kiosk, kind: KioskType, w: nat, action: Option<EventType>, scan: Option<real>, stale: real)
    requires IdentityOk(k)
    ensures IdentityOk(LogAttendance(k, kind, w, action, scan, stale).0)
  {
  }

  lemma MarkingKeepsIdentity(k: Kiosk, ids: set<nat>)
    requires IdentityOk(k)
    ensures IdentityOk(MarkSynced(k, ids))
  {
  }

  lemma DeletionKeepsIdentity(k: Kiosk, candidates: set<nat>, cutoff: real)
    requires IdentityOk(k)
    ensures IdentityOk(DeleteRows(k, candidates, cutoff))
  {
  }

  // ----- the pruned log as a part of the full log -----

  /** A row that was pruned is synced, not quarantined, and behind a kept row of the same local id. */
  ghost predicate Superseded(pruned: Kiosk, full: Kiosk, i: nat) {
    i in full.logs && full.logs[i].synced && i !in full.rejected &&
    exists j :: j in pruned.logs && i < j && pruned.logs[j].worker == full.logs[i].worker
  }

  ghost predicate Refines(pruned: Kiosk, full: Kiosk) {
    && pruned.nextLog == full.nextLog && pruned.workers == full.workers
    && pruned.nextWorker == full.nextWorker && pruned.rejected == full.rejected
    && (forall i :: i in pruned.logs ==> i in full.logs && pruned.logs[i] == full.logs[i])
    && (forall i :: i in full.logs && i !in pruned.logs ==> Superseded(pruned, full, i))
  }

  /** The event that a scan is judged by is never pruned. */
  lemma LastAttendanceAgrees(pruned: Kiosk, full: Kiosk, w: nat)
    requires IdentityOk(full) && Refines(pruned, full)
    ensures LastAttendance(pruned, w) == LastAttendance(full, w)
  {
    LastByWorkerAgrees(pruned, full, w);
    var server := ServerOf(full, w);
    if server.Some? {
      LastByServerAgrees(pruned, full, server.value);
    }
  }

  lemma LastByWorkerAgrees(pruned: Kiosk, full: Kiosk, w: nat)
    requires IdentityOk(full) && Refines(pruned, full)
    ensures LastByWorker(pruned.logs, full.nextLog, w) == LastByWorker(full.logs, full.nextLog, w)
  {
    var a, b := LastByWorker(pruned.logs, full.nextLog, w), LastByWorker(full.logs, full.nextLog, w);
    assert b.Some? && b.value !in pruned.logs ==> Superseded(pruned, full, b.value);
  }

  /** Here continuity matters: the later row of the same local id carries the same identity. */
  lemma LastByServerAgrees(pruned: Kiosk, full: Kiosk, server: nat)
    requires IdentityOk(full) && Refines(pruned, full)
    ensures LastByServer(pruned.logs, full.nextLog, server) == LastByServer(full.logs, full.nextLog, server)
  {
    var a, b := LastByServer(pruned.logs, full.nextLog, server), LastByServer(full.logs, full.nextLog, server);
    assert b.Some? && b.value !in pruned.logs ==> Superseded(pruned, full, b.value);
  }

  // ----- every operation keeps the relation -----

  lemma PruneKeepsRelation(pruned: Kiosk, full: Kiosk, candidates: set<nat>, cutoff: real)
    requires IdentityOk(full) && Refines(pruned, full)
    ensures Refines(DeleteRows(pruned, candidates, cutoff), full)
  {
    var next := DeleteRows(pruned, candidates, cutoff);
    forall i | i in full.logs && i !in next.logs ensures Superseded(next, full, i) {
      var start: nat;
      if i in pruned.logs {
        assert Deletable(pruned, i, cutoff);
        start := i;
      } else {
        assert Superseded(pruned, full, i);
        start :| start in pruned.logs && i < start && pruned.logs[start].worker == full.logs[i].worker;
      }
      LastInsertedExists(pruned, start);
      var j :| j in pruned.logs && start <= j && pruned.logs[j].worker == pruned.logs[start].worker &&
            IsLastInserted(pruned, j);
      assert j in next.logs && i < j;
    }
  }

  lemma FreezeKeepsRelation(pruned: Kiosk, full: Kiosk, w: nat)
    requires Refines(pruned, full)
    ensures Refines(FreezeIdentity(pruned, w), FreezeIdentity(full, w))
  {
    var p, f := FreezeIdentity(pruned, w), FreezeIdentity(full, w);
    forall i | i in f.logs && i !in p.logs ensures Superseded(p, f, i) {
      assert Superseded(pruned, full, i);
      var j :| j in pruned.logs && i < j && pruned.logs[j].worker == full.logs[i].worker;
      assert j in p.logs && p.logs[j].worker == f.logs[i].worker;
    }
  }

  lemma AppendKeepsRelation(pruned: Kiosk, full: Kiosk, row: LogRow)
    requires IdentityOk(full) && Refines(pruned, full)
    ensures Refines(Append(pruned, row), Append(full, row))
  {
    var p, f := Append(pruned, row), Append(full, row);
    assert full.nextLog !in full.logs;
    forall i | i in f.logs && i !in p.logs ensures Superseded(p, f, i) {
      assert Superseded(pruned, full, i);
      var j :| j in pruned.logs && i < j && pruned.logs[j].worker == full.logs[i].worker;
      assert j in p.logs && p.logs[j].worker == f.logs[i].worker;
    }
  }

  function Append(k: Kiosk, row: LogRow): Kiosk {
    k.(logs := k.logs[k.nextLog := row], nextLog := k.nextLog + 1)
  }

  lemma LogIsAppend(k: Kiosk, kind: KioskType, w: nat, action: Option<EventType>, scan: Option<real>, stale: real)
    ensures var (after, a) := LogAttendance(k, kind, w, action, scan, stale);
            if a.Some? then w in k.workers && after == Append(k, LogRow(w, k.workers[w], a.value, scan, false))
            else after == k
  {
  }

  lemma LogKeepsRelation(
    pruned: Kiosk, full: Kiosk, kind: KioskType, w: nat, action: Option<EventType>, scan: Option<real>, stale: real)
    requires IdentityOk(full) && Refines(pruned, full)
    ensures Refines(
      LogAttendance(pruned, kind, w, action, scan, stale).0, LogAttendance(full, kind, w, action, scan, stale).0)
    ensures LogAttendance(pruned, kind, w, action, scan, stale).1 == LogAttendance(full, kind, w, action, scan, stale).1
  {
    LastAttendanceAgrees(pruned, full, w);
    LogIsAppend(pruned, kind, w, action, scan, stale);
    LogIsAppend(full, kind, w, action, scan, stale);
    var a := LogAttendance(full, kind, w, action, scan, stale).1;
    assert LogAttendance(pruned, kind, w, action, scan, stale).1 == a;
    if a.Some? {
      AppendKeepsRelation(pruned, full, LogRow(w, full.workers[w], a.value, scan, false));
    }
  }

  lemma SyncKeepsRelation(pruned: Kiosk, full: Kiosk, ids: set<nat>)
    requires Refines(pruned, full)
    ensures Refines(MarkSynced(pruned, ids), MarkSynced(full, ids))
  {
    var p, f := MarkSynced(pruned, ids), MarkSynced(full, ids);
    forall i | i in f.logs && i !in p.logs ensures Superseded(p, f, i) {
      assert Superseded(pruned, full, i);
      var j :| j in pruned.logs && i < j && pruned.logs[j].worker == full.logs[i].worker;
      assert j in p.logs && p.logs[j].worker == f.logs[i].worker;
    }
  }

  lemma ReleaseKeepsRelation(pruned: Kiosk, full: Kiosk, id: nat, epoch: Option<real>)
    requires Refines(pruned, full)
    ensures Refines(Retry(pruned, id, epoch), Retry(full, id, epoch))
  {
    var p, f := Retry(pruned, id, epoch), Retry(full, id, epoch);
    assert id in full.rejected && id in full.logs ==> id in pruned.logs;
    forall i | i in f.logs && i !in p.logs ensures Superseded(p, f, i) {
      assert Superseded(pruned, full, i);
      var j :| j in pruned.logs && i < j && pruned.logs[j].worker == full.logs[i].worker;
      assert j in p.logs && p.logs[j].worker == f.logs[i].worker;
    }
  }

  lemma QuarantineKeepsRelation(pruned: Kiosk, full: Kiosk, id: nat)
    requires Refines(pruned, full)
    ensures Refines(Reject(pruned, id), Reject(full, id))
  {
    var p, f := Reject(pruned, id), Reject(full, id);
    assert id in full.logs && !full.logs[id].synced ==> id in pruned.logs;
    forall i | i in f.logs && i !in p.logs ensures Superseded(p, f, i) {
      assert Superseded(pruned, full, i);
      var j :| j in pruned.logs && i < j && pruned.logs[j].worker == full.logs[i].worker;
      assert j in p.logs;
    }
  }

  lemma WorkersKeepRelation(pruned: Kiosk, full: Kiosk, workers: map<nat, Option<nat>>, nextWorker: nat)
    requires Refines(pruned, full)
    ensures Refines(
      pruned.(workers := workers, nextWorker := nextWorker), full.(workers := workers, nextWorker := nextWorker))
  {
    var p := pruned.(workers := workers, nextWorker := nextWorker);
    var f := full.(workers := workers, nextWorker := nextWorker);
    forall i | i in f.logs && i !in p.logs ensures Superseded(p, f, i) {
      assert Superseded(pruned, full, i);
    }
  }

  lemma WorkerOperationsAgree(pruned: Kiosk, full: Kiosk, op: Op)
    requires IdentityOk(full) && Refines(pruned, full) && (op.Enroll? || op.Remove? || op.Startup?)
    ensures Refines(Perform(pruned, op, true).0, Perform(full, op, false).0)
    ensures Perform(pruned, op, true).1 == Perform(full, op, false).1
  {
    match op
    case Enroll(server, nameMatch) =>
      var next := AddWorker(full, server, nameMatch);
      assert FindUpdateRow(pruned, server, nameMatch) == FindUpdateRow(full, server, nameMatch);
      WorkersKeepRelation(pruned, full, next.workers, next.nextWorker);
    case Remove(w) =>
      FreezeKeepsRelation(pruned, full, w);
      WorkersKeepRelation(FreezeIdentity(pruned, w), FreezeIdentity(full, w), full.workers - {w}, full.nextWorker);
    case Startup(w) => FreezeKeepsRelation(pruned, full, w);
  }

  lemma SyncAgrees(pruned: Kiosk, full: Kiosk, op: Op)
    requires IdentityOk(full) && Refines(pruned, full) && op.Synced?
    ensures Refines(Perform(pruned, op, true).0, Perform(full, op, false).0)
    ensures Perform(pruned, op, true).1 == Perform(full, op, false).1
  {
    SyncKeepsRelation(pruned, full, op.ids);
  }

  lemma QuarantineAgrees(pruned: Kiosk, full: Kiosk, op: Op)
    requires IdentityOk(full) && Refines(pruned, full) && op.Quarantine?
    ensures Refines(Perform(pruned, op, true).0, Perform(full, op, false).0)
    ensures Perform(pruned, op, true).1 == Perform(full, op, false).1
  {
    QuarantineKeepsRelation(pruned, full, op.id);
  }

  lemma ReleaseAgrees(pruned: Kiosk, full: Kiosk, op: Op)
    requires IdentityOk(full) && Refines(pruned, full) && op.Release?
    ensures Refines(Perform(pruned, op, true).0, Perform(full, op, false).0)
    ensures Perform(pruned, op, true).1 == Perform(full, op, false).1
  {
    ReleaseKeepsRelation(pruned, full, op.id, op.epoch);
  }

  lemma PruneAgrees(pruned: Kiosk, full: Kiosk, op: Op)
    requires IdentityOk(full) && Refines(pruned, full) && op.Prune?
    ensures Refines(Perform(pruned, op, true).0, Perform(full, op, false).0)
    ensures Perform(pruned, op, true).1 == Perform(full, op, false).1
  {
    PruneKeepsRelation(pruned, full, op.candidates, op.cutoff);
  }

  lemma ReadsAgree(pruned: Kiosk, full: Kiosk, op: Op)
    requires IdentityOk(full) && Refines(pruned, full) && (op.Debounce? || op.LastAction?)
    ensures Refines(Perform(pruned, op, true).0, Perform(full, op, false).0)
    ensures Perform(pruned, op, true).1 == Perform(full, op, false).1
  {
    match op
    case Debounce(w, now, minutes) => LastAttendanceAgrees(pruned, full, w);
    case LastAction(w) => LastAttendanceAgrees(pruned, full, w);
  }

  lemma OperationsAgree(pruned: Kiosk, full: Kiosk, op: Op)
    requires IdentityOk(full) && Refines(pruned, full)
    ensures Refines(Perform(pruned, op, true).0, Perform(full, op, false).0)
    ensures Perform(pruned, op, true).1 == Perform(full, op, false).1
  {
    if op.Enroll? || op.Remove? || op.Startup? {
      WorkerOperationsAgree(pruned, full, op);
    } else if op.Debounce? || op.LastAction? {
      ReadsAgree(pruned, full, op);
    } else if op.Scan? {
      LogKeepsRelation(pruned, full, op.kind, op.w, None, op.scan, op.staleHours);
    } else if op.Manual? {
      LogKeepsRelation(pruned, full, op.kind, op.w, Some(op.action), op.scan, 0.0);
    } else if op.Synced? {
      SyncAgrees(pruned, full, op);
    } else if op.Quarantine? {
      QuarantineAgrees(pruned, full, op);
    } else if op.Release? {
      ReleaseAgrees(pruned, full, op);
    } else {
      PruneAgrees(pruned, full, op);
    }
  }

  /** Over any run of enrollments, removals, restores, scans, syncs, quarantines and prunes, the
      kiosk answers every scan as it would with its whole history. */
  lemma {:induction false} PruningIsInvisible(k: Kiosk, ops: seq<Op>)
    requires IdentityOk(k)
    ensures Run(k, ops, true).1 == Run(k, ops, false).1
    ensures IdentityOk(Run(k, ops, false).0) && Refines(Run(k, ops, true).0, Run(k, ops, false).0)
  {
    if ops != [] {
      PruningIsInvisible(k, ops[..|ops| - 1]);
      var pruned, full := Run(k, ops[..|ops| - 1], true).0, Run(k, ops[..|ops| - 1], false).0;
      IdentityIsKept(full, ops[|ops| - 1], false);
      OperationsAgree(pruned, full, ops[|ops| - 1]);
    }
  }
}
