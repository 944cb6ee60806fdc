/** What becomes of a recorded event: how long its row is kept, and by which operations it changes. */
module KioskHistory {
  import opened Options
  import opened Events
  import opened KioskLog
  import opened KioskPruning

  // ----- retention -----

  ghost predicate HasLaterInsert(k: Kiosk, i: nat)
    requires i in k.logs
  {
    exists j :: j in k.logs && k.logs[j].worker == k.logs[i].worker && i < j
  }

  /** The worker has an event of a later instant, or of the same instant that was recorded later. */
  ghost predicate HasLaterInstant(k: Kiosk, i: nat)
    requires i in k.logs && k.logs[i].epoch.Some?
  {
    exists j :: j in k.logs && IsLaterInstant(k.logs[i], i, k.logs[j], j)
  }

  predicate IsLaterInstant(row: LogRow, i: nat, other: LogRow, j: nat)
    requires row.epoch.Some?
  {
    && other.worker == row.worker && other.epoch.Some?
    && (row.epoch.value < other.epoch.value || (row.epoch.value == other.epoch.value && i < j))
  }

  /** A row may go exactly if it is synced, older than the cutoff and not quarantined, and its worker has
      both an event that was recorded later and one of a later instant. */
  lemma DeletableIff(k: Kiosk, i: nat, cutoff: real)
    requires i in k.logs
    ensures Deletable(k, i, cutoff) <==>
            && k.logs[i].synced && k.logs[i].epoch.Some? && k.logs[i].epoch.value < cutoff && i !in k.rejected
            && HasLaterInsert(k, i) && HasLaterInstant(k, i)
  {
    if k.logs[i].epoch.Some? {
      if j :| j in k.logs && IsLaterInstant(k.logs[i], i, k.logs[j], j) {
        assert !Before(PositionOf(k, j), PositionOf(k, i));
      }
      if !IsLatestInstant(k, i) {
        var j :| j in k.logs && k.logs[j].worker == k.logs[i].worker && k.logs[j].epoch.Some? && j != i
          && !Before(PositionOf(k, j), PositionOf(k, i));
        assert IsLaterInstant(k.logs[i], i, k.logs[j], j);
      }
    }
  }

  // ----- one operation -----

  ghost function After(k: Kiosk, op: Op): Kiosk {
    Perform(k, op, true).0
  }

  ghost predicate IsPruned(k: Kiosk, op: Op, i: nat)
    requires i in k.logs
  {
    op.Prune? && i in op.candidates && Deletable(k, i, op.cutoff)
  }

  lemma RowIsKeptIff(k: Kiosk, op: Op, i: nat)
    requires IdentityOk(k) && i in k.logs
    ensures i in After(k, op).logs <==> !IsPruned(k, op, i)
  {
  }

  lemma RowChanges(k: Kiosk, op: Op, i: nat)
    requires IdentityOk(k) && i in k.logs && i in After(k, op).logs
    ensures var row, after := k.logs[i], After(k, op).logs[i];
            && after.worker == row.worker && after.action == row.action
            && (after.synced <==> row.synced || (op.Synced? && i in op.ids))
            && after.epoch == if op.Release? && op.id == i && i in k.rejected then op.epoch else row.epoch
  {
  }

  lemma RejectionChanges(k: Kiosk, op: Op, i: nat)
    requires IdentityOk(k) && i in k.logs
    ensures i in After(k, op).rejected <==>
            if op == Quarantine(i) then i in k.rejected || !k.logs[i].synced
            else i in k.rejected && !(op.Release? && op.id == i)
  {
  }

  // ----- every run -----

  /** An upload has marked the row. */
  ghost predicate MarkedBy(ops: seq<Op>, i: nat) {
    exists n :: 0 <= n < |ops| && ops[n].Synced? && i in ops[n].ids
  }

  /** Whether the row stands quarantined: it was quarantined before it was synced, and was not released
      since. */
  ghost function StandsQuarantined(ops: seq<Op>, i: nat): bool {
    if ops == [] then false
    else
      var front, op := ops[..|ops| - 1], ops[|ops| - 1];
      if op == Quarantine(i) then StandsQuarantined(front, i) || !MarkedBy(front, i)
      else StandsQuarantined(front, i) && !(op.Release? && op.id == i)
  }

  /** The event's time: as scanned, or as repaired by the last release from quarantine. */
  ghost function RepairedTime(first: Option<real>, ops: seq<Op>, i: nat): Option<real> {
    if ops == [] then first
    else
      var front, op := ops[..|ops| - 1], ops[|ops| - 1];
      if op.Release? && op.id == i && StandsQuarantined(front, i) then op.epoch else RepairedTime(first, front, i)
  }

  ghost function RunTo(k: Kiosk, ops: seq<Op>): Kiosk {
    Run(k, ops, true).0
  }

  lemma RunToSnoc(k: Kiosk, ops: seq<Op>)
    requires ops != []
    ensures RunTo(k, ops) == After(RunTo(k, ops[..|ops| - 1]), ops[|ops| - 1])
  {
  }

  lemma {:induction false} RunToKeepsIdentity(k: Kiosk, ops: seq<Op>)
    requires IdentityOk(k)
    ensures IdentityOk(RunTo(k, ops))
  {
    if ops != [] {
      RunToKeepsIdentity(k, ops[..|ops| - 1]);
      RunToSnoc(k, ops);
      IdentityIsKept(RunTo(k, ops[..|ops| - 1]), ops[|ops| - 1], true);
    }
  }

  lemma MarkedBySnoc(ops: seq<Op>, i: nat)
    requires ops != []
    ensures MarkedBy(ops, i) <==>
            MarkedBy(ops[..|ops| - 1], i) || (ops[|ops| - 1].Synced? && i in ops[|ops| - 1].ids)
  {
    var front := ops[..|ops| - 1];
    if n :| 0 <= n < |front| && front[n].Synced? && i in front[n].ids {
      assert ops[n].Synced? && i in ops[n].ids;
    }
    if n :| 0 <= n < |ops| && ops[n].Synced? && i in ops[n].ids {
      assert n < |front| ==> front[n].Synced? && i in front[n].ids;
    }
  }

  /** The row that was recorded as `row` stands in the log as these operations say. */
  ghost predicate Stands(row: LogRow, ops: seq<Op>, i: nat, k: Kiosk) {
    && i in k.logs
    && k.logs[i].worker == row.worker && k.logs[i].action == row.action
    && (k.logs[i].synced <==> MarkedBy(ops, i))
    && (i in k.rejected <==> StandsQuarantined(ops, i))
    && k.logs[i].epoch == RepairedTime(row.epoch, ops, i)
  }

  lemma StandsOn(row: LogRow, ops: seq<Op>, i: nat, k: Kiosk)
    requires ops != [] && IdentityOk(k) && Stands(row, ops[..|ops| - 1], i, k)
    requires i in After(k, ops[|ops| - 1]).logs
    ensures Stands(row, ops, i, After(k, ops[|ops| - 1]))
  {
    var op := ops[|ops| - 1];
    RowChanges(k, op, i);
    RejectionChanges(k, op, i);
    MarkedBySnoc(ops, i);
  }

  /** A sweep took the row away, at a moment at which it might go. */
  ghost predicate WasPruned(k: Kiosk, ops: seq<Op>, i: nat) {
    exists n :: 0 <= n < |ops| && PrunedAt(k, ops, n, i)
  }

  ghost predicate PrunedAt(k: Kiosk, ops: seq<Op>, n: nat, i: nat)
    requires n < |ops|
  {
    i in RunTo(k, ops[..n]).logs && IsPruned(RunTo(k, ops[..n]), ops[n], i)
  }

  lemma PrunedInFront(k: Kiosk, ops: seq<Op>, n: nat, i: nat)
    requires n + 1 < |ops|
    ensures PrunedAt(k, ops[..|ops| - 1], n, i) <==> PrunedAt(k, ops, n, i)
  {
    assert ops[..|ops| - 1][..n] == ops[..n];
  }

  lemma WasPrunedSnoc(k: Kiosk, ops: seq<Op>, i: nat)
    requires ops != []
    ensures WasPruned(k, ops, i) <==> WasPruned(k, ops[..|ops| - 1], i) || PrunedAt(k, ops, |ops| - 1, i)
  {
    forall n: nat | n + 1 < |ops| ensures PrunedAt(k, ops[..|ops| - 1], n, i) <==> PrunedAt(k, ops, n, i) {
      PrunedInFront(k, ops, n, i);
    }
    var front := ops[..|ops| - 1];
    if n :| 0 <= n < |front| && PrunedAt(k, front, n, i) {
      assert PrunedAt(k, ops, n, i);
    }
  }

  lemma {:induction false} NumbersGrow(k: Kiosk, ops: seq<Op>)
    ensures k.nextLog <= RunTo(k, ops).nextLog
  {
    if ops != [] {
      NumbersGrow(k, ops[..|ops| - 1]);
      RunToSnoc(k, ops);
    }
  }

  lemma GoneStaysGone(k: Kiosk, op: Op, i: nat)
    requires i !in k.logs && i < k.nextLog
    ensures i !in After(k, op).logs
  {
  }

  /** A recorded event stays in the log until a sweep may and does take it; as long as it is there, it
      keeps its worker and its direction, is synced exactly if an upload has marked it, stands quarantined
      exactly if it was quarantined unsynced and not released since, and has the time that the last
      release gave it. */
  lemma {:induction false} EventIsKept(k: Kiosk, ops: seq<Op>, i: nat)
    requires IdentityOk(k) && i in k.logs && !k.logs[i].synced && i !in k.rejected
    ensures if i in RunTo(k, ops).logs then Stands(k.logs[i], ops, i, RunTo(k, ops)) else WasPruned(k, ops, i)
    ensures WasPruned(k, ops, i) ==> i !in RunTo(k, ops).logs && MarkedBy(ops, i)
  {
    if ops != [] {
      var front, op := ops[..|ops| - 1], ops[|ops| - 1];
      var before := RunTo(k, front);
      EventIsKept(k, front, i);
      RunToKeepsIdentity(k, front);
      RunToSnoc(k, ops);
      MarkedBySnoc(ops, i);
      WasPrunedSnoc(k, ops, i);
      NumbersGrow(k, front);
      if i in before.logs {
        RowIsKeptIff(before, op, i);
        if i in RunTo(k, ops).logs {
          StandsOn(k.logs[i], ops, i, before);
        }
      } else {
        GoneStaysGone(before, op, i);
      }
    }
  }
}
