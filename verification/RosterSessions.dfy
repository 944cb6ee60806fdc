/** Where a roster sync starts, what it reads, and how it ends when it fails. */
module RosterSessions {
  import opened Options
  import opened RosterServer
  import opened RosterProtocol
  import opened RosterProgress

  // ----- credentials -----

  /** Whether the kiosk holds a credential, by the last step that says so. */
  ghost function Credentialed(first: bool, k: nat, steps: seq<Step>): bool {
    if steps == [] then first
    else match steps[|steps| - 1]
      case SetCredential(q, has) => if q == k then has else Credentialed(first, k, steps[..|steps| - 1])
      case _ => Credentialed(first, k, steps[..|steps| - 1])
  }

  lemma StepKeepsCredential(s: System, step: Step, k: nat)
    requires Shaped(s) && k < |s.devices|
    ensures k < |Do(s, step).server.kiosks|
    ensures Do(s, step).server.kiosks[k].hasCredential ==
            match step
            case SetCredential(q, has) => if q == k then has else s.server.kiosks[k].hasCredential
            case _ => s.server.kiosks[k].hasCredential
  {
    DoKeepsShape(s, step);
    if step == Backfill {
      CommitAllKeepsDevices(s, BackfillIds(s.server));
    }
  }

  lemma {:induction false} RunKeepsCredential(s: System, steps: seq<Step>, k: nat)
    requires Shaped(s) && k < |s.devices|
    ensures Run(s, steps).server.kiosks[k].hasCredential ==
            Credentialed(s.server.kiosks[k].hasCredential, k, steps)
  {
    if steps != [] {
      RunKeepsCredential(s, steps[..|steps| - 1], k);
      StepKeepsCredential(Run(s, steps[..|steps| - 1]), steps[|steps| - 1], k);
    }
  }

  // ----- the start -----

  /** A receipt of this kiosk is pending that was issued before sequences existed. */
  ghost predicate OldReceiptPends(s: Server, k: nat) {
    exists r :: r in s.receipts && s.receipts[r] == Receipt(k, None)
  }

  lemma PendingIsOld(s: Server, k: nat)
    requires Orderly(s) && PendingOf(s, k).Some?
    ensures s.receipts[PendingOf(s, k).value].sequence == None <==> OldReceiptPends(s, k)
  {
    var r := PendingOf(s, k).value;
    assert s.receipts[r] == Receipt(k, s.receipts[r].sequence);
  }

  lemma NothingPends(s: Server, k: nat)
    requires Orderly(s) && PendingOf(s, k) == None
    ensures !OldReceiptPends(s, k)
  {
  }

  /** A sync starts exactly for a kiosk with a credential.  It continues from what the kiosk has reported,
      unless that is nothing, a full download is forced, or its receipt is one without a sequence. */
  lemma StartsFrom(s: System, k: nat, forceFull: bool)
    requires Shaped(s) && Orderly(s.server) && k < |s.devices|
    ensures var t := Do(s, Start(k, forceFull));
            if !s.server.kiosks[k].hasCredential then t == s
            else
              && |t.devices| == |s.devices| && t.devices[k].session.Some?
              && t.devices[k].session.value.since ==
                   if forceFull || OldReceiptPends(s.server, k) then None else s.server.kiosks[k].applied
  {
    if PendingOf(s.server, k).Some? {
      PendingIsOld(s.server, k);
    } else {
      NothingPends(s.server, k);
    }
  }

  /** A kiosk that asks again, because the answer was lost, is given the same receipt. */
  lemma IssueIsRepeated(s: System, k: nat, forceFull: bool)
    requires Shaped(s) && Orderly(s.server) && k < |s.devices| && s.server.kiosks[k].hasCredential
    ensures var t := Do(s, Issue(k));
            Shaped(t) && PendingOf(t.server, k).Some? && Do(t, Start(k, forceFull)) == Do(s, Start(k, forceFull))
  {
    IssueKeepsOrder(s.server, k);
    var t := Do(s, Issue(k)).server;
    if PendingOf(s.server, k) == None {
      var q := s.server.nextReceipt;
      assert q in t.receipts && t.receipts[q].kiosk == k;
    }
  }

  /** A kiosk takes a receipt as acknowledged only when the server has applied it as the kiosk's latest,
      and only while it holds a credential. */
  lemma AcknowledgedIsApplied(s: System, k: nat, r: nat, clockAllows: bool, answered: bool)
    requires Shaped(s) && k < |s.devices|
    ensures var t := Do(s, DeliverAck(k, r, clockAllows, answered));
            && Shaped(t) && k < |t.devices|
            && (t.devices[k].pending != s.devices[k].pending ==>
                  && s.devices[k].pending == Some(r) && t.devices[k].pending == None && answered
                  && s.server.kiosks[k].hasCredential && t.server.kiosks[k].lastReceipt == Some(r))
  {
  }

  // ----- what is read -----

  /** A sync that continues from a sequence has read nothing that was written up to it, except rows that
      carry no sequence. */
  ghost predicate Incremental(ss: Session) {
    ss.since.Some? ==>
      && !ss.cursor.FullScan?
      && (ss.cursor.Updated? ==> ss.cursor.after >= ss.since.value)
      && (forall i :: 0 <= i < |ss.rows| ==> ss.rows[i].version > ss.since.value || ss.rows[i].version == 0)
  }

  ghost predicate AllIncremental(s: System) {
    forall k :: 0 <= k < |s.devices| && s.devices[k].session.Some? ==> Incremental(s.devices[k].session.value)
  }

  lemma PageKeepsIncremental(server: Server, ss: Session, settled: bool)
    requires Incremental(ss) && (ss.cursor.FullScan? ==> ss.cursor.next <= |server.workers|)
    ensures Incremental(NextPage(server, ss, settled))
  {
    if ss.since.Some? {
      var after := NextPage(server, ss, settled);
      forall i | 0 <= i < |after.rows| ensures after.rows[i].version > ss.since.value || after.rows[i].version == 0 {
        if i >= |ss.rows| {
          assert after.rows[i] == after.rows[|ss.rows|..][i - |ss.rows|];
        }
      }
    }
  }

  lemma AdvanceKeepsIncremental(d: Device)
    requires d.session.Some? && Incremental(d.session.value)
    ensures AdvanceDevice(d).session.Some? ==> Incremental(AdvanceDevice(d).session.value)
  {
  }

  lemma StepKeepsIncremental(s: System, step: Step)
    requires Shaped(s) && AllIncremental(s)
    ensures AllIncremental(Do(s, step))
  {
    match step
    case Backfill => CommitAllKeepsDevices(s, BackfillIds(s.server));
    case ReadPage(k, settled) =>
      if k < |s.devices| && s.devices[k].session.Some? {
        var ss := s.devices[k].session.value;
        if !(ss.cursor.FullScan? && ss.cursor.next > |s.server.workers|) {
          PageKeepsIncremental(s.server, ss, settled);
        }
      }
    case Advance(k) =>
      if k < |s.devices| && s.devices[k].session.Some? {
        AdvanceKeepsIncremental(s.devices[k]);
      }
    case _ =>
  }

  lemma {:induction false} RunKeepsIncremental(s: System, steps: seq<Step>)
    requires Shaped(s) && AllIncremental(s)
    ensures AllIncremental(Run(s, steps))
  {
    if steps != [] {
      RunKeepsIncremental(s, steps[..|steps| - 1]);
      StepKeepsIncremental(Run(s, steps[..|steps| - 1]), steps[|steps| - 1]);
    }
  }

  // ----- failing syncs -----

  /** The workers that the rows from `i` on revoke. */
  ghost function Revoked(rows: seq<Row>, i: nat): set<nat> {
    set j | i <= j < |rows| && !rows[j].present :: rows[j].id
  }

  ghost predicate IsRevoking(d: Device, failed: bool, i: nat) {
    d.session.Some? && i <= |d.session.value.rows| &&
    d.session.value.phase == if failed then FailedRevoking(i) else Revoking(i)
  }

  lemma RevocationAdvances(d: Device, failed: bool, i: nat)
    requires IsRevoking(d, failed, i) && i < |d.session.value.rows|
    ensures var e := AdvanceDevice(d);
            && IsRevoking(e, failed, i + 1) && e.session.value.rows == d.session.value.rows && e.pending == d.pending
            && e.local - Revoked(d.session.value.rows, i + 1) == d.local - Revoked(d.session.value.rows, i)
  {
    var rows := d.session.value.rows;
    if rows[i].present {
      assert Revoked(rows, i) == Revoked(rows, i + 1);
    } else {
      assert Revoked(rows, i) == Revoked(rows, i + 1) + {rows[i].id};
    }
  }

  lemma LastRevocation(d: Device, failed: bool, i: nat)
    requires IsRevoking(d, failed, i) && i == |d.session.value.rows| && (failed || !NoDuplicates(d.session.value.rows))
    ensures AdvanceDevice(d).session == None && AdvanceDevice(d).pending == d.pending
    ensures AdvanceDevice(d).local == d.local - Revoked(d.session.value.rows, i)
  {
    assert Revoked(d.session.value.rows, i) == {};
  }

  /** A sync in which a revocation fails, or whose response names a worker twice, makes all its other
      revocations, adds no template, acknowledges nothing and ends. */
  lemma {:induction false} FailedSyncRevokes(s: System, k: nat, failed: bool, i: nat, n: nat)
    requires Shaped(s) && k < |s.devices| && IsRevoking(s.devices[k], failed, i)
    requires failed || !NoDuplicates(s.devices[k].session.value.rows)
    requires n > |s.devices[k].session.value.rows| - i
    ensures var d, e := s.devices[k], Run(s, Times(Advance(k), n)).devices[k];
            && e.session == None && e.pending == d.pending
            && e.local == d.local - Revoked(d.session.value.rows, i)
    decreases n
  {
    var rest := Times(Advance(k), n - 1);
    assert Times(Advance(k), n) == [Advance(k)] + rest;
    RunFirst(s, Advance(k), rest);
    var t := Do(s, Advance(k));
    if i < |s.devices[k].session.value.rows| {
      RevocationAdvances(s.devices[k], failed, i);
      FailedSyncRevokes(t, k, failed, i + 1, n - 1);
    } else {
      LastRevocation(s.devices[k], failed, i);
      IdleAdvances(t, k, n - 1);
    }
  }

  lemma {:induction false} IdleAdvances(s: System, k: nat, n: nat)
    requires Shaped(s) && k < |s.devices| && s.devices[k].session == None
    ensures Run(s, Times(Advance(k), n)) == s
  {
    if n > 0 {
      assert Times(Advance(k), n)[..n - 1] == Times(Advance(k), n - 1);
      IdleAdvances(s, k, n - 1);
    }
  }

  lemma ErrorIsPassed(s: System, k: nat, failed: bool, i: nat, deleted: bool)
    requires Shaped(s) && k < |s.devices| && IsRevoking(s.devices[k], failed, i)
    requires i < |s.devices[k].session.value.rows| && !s.devices[k].session.value.rows[i].present
    ensures var d, t := s.devices[k], Do(s, FailRevocation(k, deleted));
            Shaped(t) && k < |t.devices| &&
            var e := t.devices[k];
            && IsRevoking(e, true, i + 1) && e.session.value.rows == d.session.value.rows && e.pending == d.pending
            && e.local == d.local - (if deleted then {d.session.value.rows[i].id} else {})
  {
  }

  lemma RevokedSplits(rows: seq<Row>, i: nat)
    requires i < |rows| && !rows[i].present
    ensures Revoked(rows, i) == Revoked(rows, i + 1) + {rows[i].id}
  {
  }

  /** An error in one revocation does not keep the later ones from being made. */
  lemma ErrorKeepsRevoking(s: System, k: nat, failed: bool, i: nat, deleted: bool, n: nat)
    requires Shaped(s) && k < |s.devices| && IsRevoking(s.devices[k], failed, i)
    requires i < |s.devices[k].session.value.rows| && !s.devices[k].session.value.rows[i].present
    requires n >= |s.devices[k].session.value.rows| - i
    ensures var d, e := s.devices[k], Run(s, [FailRevocation(k, deleted)] + Times(Advance(k), n)).devices[k];
            && e.session == None && e.pending == d.pending
            && e.local == d.local - Revoked(d.session.value.rows, if deleted then i else i + 1)
  {
    ErrorIsPassed(s, k, failed, i, deleted);
    var t := Do(s, FailRevocation(k, deleted));
    RunFirst(s, FailRevocation(k, deleted), Times(Advance(k), n));
    FailedSyncRevokes(t, k, true, i + 1, n);
    RevokedSplits(s.devices[k].session.value.rows, i);
  }
}
