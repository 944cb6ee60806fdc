/** The server side of roster replication: the commit-ordered counter, receipts and
    acknowledgements.  Each function is one transaction; `RosterStore` performs it in place. */
module RosterServer {
  import opened Options

  const MAX_SAFE_INTEGER := 9_007_199_254_740_991
  const BACKFILL_BATCH := 100

  /** Rows keep their creation order and are never deleted, so a worker is named by its position. */
  datatype WorkerRow = WorkerRow(active: bool, template: bool, sequence: Option<nat>) {
    /** What a kiosk stores for this row: a face template or nothing. */
    predicate Present() {
      active && template
    }
  }

  /** The fields a write supplies; the others keep their value. */
  datatype Fields = Fields(active: Option<bool>, template: Option<bool>)

  /** A receipt issued before sequences existed has none. */
  datatype Receipt = Receipt(kiosk: nat, sequence: Option<nat>)

  datatype KioskDoc = KioskDoc(hasCredential: bool, applied: Option<nat>, lastReceipt: Option<nat>)

  datatype Server = Server(
    counter: nat,
    lastPurge: Option<nat>,
    legacyPurge: bool,
    workers: seq<WorkerRow>,
    kiosks: seq<KioskDoc>,
    receipts: map<nat, Receipt>,
    nextReceipt: nat)

  function Patched(row: WorkerRow, fields: Fields, sequence: nat): WorkerRow {
    WorkerRow(fields.active.GetOr(row.active), fields.template.GetOr(row.template), Some(sequence))
  }

  /** Stamp the row with the next sequence; `None` when the sequence is exhausted. */
  function WriteRosterWorker(s: Server, fields: Fields, id: Option<nat>, purge: bool): Option<Server>
    requires id.Some? ==> id.value < |s.workers|
  {
    var sequence := s.counter + 1;
    if sequence > MAX_SAFE_INTEGER then None
    else
      var counted := s.(counter := sequence, lastPurge := if purge then Some(sequence) else s.lastPurge);
      Some(counted.(workers :=
        match id
        case Some(w) => s.workers[w := Patched(s.workers[w], fields, sequence)]
        case None => s.workers + [Patched(WorkerRow(false, false, None), fields, sequence)]))
  }

  // ----- backfill -----

  /** The rows without a sequence, in creation order. */
  function Unsequenced(workers: seq<WorkerRow>): (r: seq<nat>)
    ensures forall w: nat :: w in r <==> w < |workers| && workers[w].sequence == None
  {
    if workers == [] then []
    else if workers[|workers| - 1].sequence == None then Unsequenced(workers[..|workers| - 1]) + [|workers| - 1]
    else Unsequenced(workers[..|workers| - 1])
  }

  /** Give each listed row a sequence of its own and change nothing else about it. */
  function StampAll(s: Server, ids: seq<nat>): (r: Option<Server>)
    requires forall i :: 0 <= i < |ids| ==> ids[i] < |s.workers|
    ensures r.Some? ==> |r.value.workers| == |s.workers|
    decreases |ids|
  {
    if ids == [] then Some(s)
    else
      var init := StampAll(s, ids[..|ids| - 1]);
      if init == None then None
      else WriteRosterWorker(init.value, Fields(None, None), Some(ids[|ids| - 1]), false)
  }

  function BackfillIds(s: Server): (ids: seq<nat>)
    ensures forall i :: 0 <= i < |ids| ==> ids[i] < |s.workers|
  {
    var ids := Unsequenced(s.workers);
    assert forall i :: 0 <= i < |ids| ==> ids[i] in ids;
    if |ids| > BACKFILL_BATCH then ids[..BACKFILL_BATCH] else ids
  }

  // ----- receipts -----

  /** The oldest pending receipt of a kiosk. */
  function PendingOf(s: Server, k: nat): (r: Option<nat>)
    ensures r.Some? ==> r.value in s.receipts && s.receipts[r.value].kiosk == k
  {
    FirstPending(s.receipts, k, 0, s.nextReceipt)
  }

  function FirstPending(receipts: map<nat, Receipt>, k: nat, i: nat, n: nat): (r: Option<nat>)
    ensures r == None ==> forall q :: i <= q < n && q in receipts ==> receipts[q].kiosk != k
    ensures r.Some? ==> i <= r.value < n && r.value in receipts && receipts[r.value].kiosk == k
    ensures r.Some? ==> forall q :: i <= q < r.value && q in receipts ==> receipts[q].kiosk != k
    decreases n - i
  {
    if i >= n then None
    else if i in receipts && receipts[i].kiosk == k then Some(i)
    else FirstPending(receipts, k, i + 1, n)
  }

  datatype Issued = Issued(receipt: nat, since: Option<nat>)

  /** A pending receipt is handed out again; only a receipt that carries a sequence lets the
      kiosk continue from what it has already applied. */
  function IssueRosterReceipt(s: Server, k: nat): (Server, Option<Issued>)
    requires k < |s.kiosks|
  {
    var kiosk := s.kiosks[k];
    if !kiosk.hasCredential then (s, None)
    else
      match PendingOf(s, k)
      case Some(r) =>
        (s, Some(Issued(r, if s.receipts[r].sequence == None then None else kiosk.applied)))
      case None =>
        (s.(receipts := s.receipts[s.nextReceipt := Receipt(k, Some(s.counter))], nextReceipt := s.nextReceipt + 1),
         Some(Issued(s.nextReceipt, kiosk.applied)))
  }

  function Max(a: nat, b: nat): nat {
    if a < b then b else a
  }

  /** Acknowledging is idempotent and never lowers the applied sequence.  `clockAllows` is the
      age check that only receipts without a sequence undergo. */
  function Acknowledge(s: Server, k: nat, r: nat, clockAllows: bool): (Server, bool)
    requires k < |s.kiosks|
  {
    var kiosk := s.kiosks[k];
    if !kiosk.hasCredential then (s, false)
    else if kiosk.lastReceipt == Some(r) then (s, true)
    else if r !in s.receipts || s.receipts[r].kiosk != k ||
            (s.receipts[r].sequence == None && !clockAllows) then (s, false)
    else
      var applied := match s.receipts[r].sequence
        case None => kiosk.applied
        case Some(n) => Some(Max(kiosk.applied.GetOr(0), n));
      (s.(kiosks := s.kiosks[k := KioskDoc(true, applied, Some(r))], receipts := s.receipts - {r}), true)
  }

  // ----- the purge indicator -----

  /** The sequence a kiosk must have applied before all purges are certified. */
  function PurgeThreshold(s: Server): Option<nat> {
    match s.lastPurge
    case Some(p) => Some(p)
    case None => if s.legacyPurge then Some(0) else None
  }

  predicate PurgePending(s: Server, k: nat)
    requires k < |s.kiosks|
  {
    var threshold := PurgeThreshold(s);
    threshold.Some? && (s.kiosks[k].applied == None || s.kiosks[k].applied.value < threshold.value)
  }

  /** A retried acknowledgement is answered like the first and changes nothing. */
  lemma RetriedAckIsNoop(s: Server, k: nat, r: nat, first: bool, again: bool)
    requires k < |s.kiosks| && Acknowledge(s, k, r, first).1
    ensures var after := Acknowledge(s, k, r, first).0;
            k < |after.kiosks| && Acknowledge(after, k, r, again) == (after, true)
  {
  }

  /** No acknowledgement lowers what a kiosk has reported, or touches another kiosk. */
  lemma AckNeverLowers(s: Server, k: nat, r: nat, clockAllows: bool, other: nat)
    requires k < |s.kiosks| && other < |s.kiosks|
    ensures var after := Acknowledge(s, k, r, clockAllows).0;
            && |after.kiosks| == |s.kiosks|
            && (s.kiosks[k].applied.Some? ==>
                  after.kiosks[k].applied.Some? && s.kiosks[k].applied.value <= after.kiosks[k].applied.value)
            && (other != k ==> after.kiosks[other] == s.kiosks[other])
  {
  }

  /** A kiosk that acknowledges a receipt issued after every purge is no longer shown as pending. */
  lemma FreshReceiptClearsPurges(s: Server, k: nat)
    requires k < |s.kiosks| && s.kiosks[k].hasCredential && PendingOf(s, k) == None
    requires s.lastPurge.Some? ==> s.lastPurge.value <= s.counter
    requires s.nextReceipt !in s.receipts && s.kiosks[k].lastReceipt != Some(s.nextReceipt)
    ensures var (issued, r) := IssueRosterReceipt(s, k);
            r.Some? && Acknowledge(issued, k, r.value.receipt, false).1
            && !PurgePending(Acknowledge(issued, k, r.value.receipt, false).0, k)
  {
  }

  /** The documents of the deployment, updated in place. */
  class RosterStore {
    var counter: nat
    var lastPurge: Option<nat>
    const legacyPurge: bool
    var workers: seq<WorkerRow>
    var kiosks: seq<KioskDoc>
    var receipts: map<nat, Receipt>
    var nextReceipt: nat

    function State(): Server
      reads this
    {
      Server(counter, lastPurge, legacyPurge, workers, kiosks, receipts, nextReceipt)
    }

    constructor (s: Server)
      ensures State() == s
    {
      counter, lastPurge, legacyPurge := s.counter, s.lastPurge, s.legacyPurge;
      workers, kiosks, receipts, nextReceipt := s.workers, s.kiosks, s.receipts, s.nextReceipt;
    }

    method Write(fields: Fields, id: Option<nat>, purge: bool) returns (ok: bool)
      requires id.Some? ==> id.value < |workers|
      modifies this
      ensures ok <==> WriteRosterWorker(old(State()), fields, id, purge).Some?
      ensures State() == (if ok then WriteRosterWorker(old(State()), fields, id, purge).value else old(State()))
    {
      var sequence := counter + 1;
      if sequence > MAX_SAFE_INTEGER {
        return false;
      }
      counter := sequence;
      if purge {
        lastPurge := Some(sequence);
      }
      if id.Some? {
        workers := workers[id.value := Patched(workers[id.value], fields, sequence)];
      } else {
        workers := workers + [Patched(WorkerRow(false, false, None), fields, sequence)];
      }
      ok := true;
    }

    method Restore(s: Server)
      requires s.legacyPurge == legacyPurge
      modifies this
      ensures State() == s
    {
      counter, lastPurge, workers := s.counter, s.lastPurge, s.workers;
      kiosks, receipts, nextReceipt := s.kiosks, s.receipts, s.nextReceipt;
    }

    /** One batch.  A failed write aborts the transaction, which restores the documents. */
    method BackfillRosterSequences() returns (ok: bool, migrated: nat, isDone: bool)
      modifies this
      ensures ok <==> StampAll(old(State()), BackfillIds(old(State()))).Some?
      ensures State() == (if ok then StampAll(old(State()), BackfillIds(old(State()))).value else old(State()))
      ensures ok ==> migrated == |BackfillIds(old(State()))|
      ensures ok ==> (isDone <==> |Unsequenced(old(workers))| <= BACKFILL_BATCH)
    {
      var before := State();
      var missing := Unsequenced(workers);
      var ids := BackfillIds(before);
      StampNone(before, ids);
      for i := 0 to |ids|
        invariant StampFirst(before, ids, i) == Some(State())
      {
        StampNext(before, ids, i);
        var written := Write(Fields(None, None), Some(ids[i]), false);
        if !written {
          PrefixFails(before, ids, i + 1);
          Restore(before);
          return false, 0, false;
        }
      }
      return true, |ids|, |missing| <= BACKFILL_BATCH;
    }

    method Issue(k: nat) returns (issued: Option<Issued>)
      requires k < |kiosks|
      modifies this
      ensures (State(), issued) == IssueRosterReceipt(old(State()), k)
    {
      if !kiosks[k].hasCredential {
        return None;
      }
      var pending := PendingOf(State(), k);
      if pending.Some? {
        var since := if receipts[pending.value].sequence == None then None else kiosks[k].applied;
        return Some(Issued(pending.value, since));
      }
      var receipt := nextReceipt;
      receipts := receipts[receipt := Receipt(k, Some(counter))];
      nextReceipt := nextReceipt + 1;
      issued := Some(Issued(receipt, kiosks[k].applied));
    }

    method Ack(k: nat, r: nat, clockAllows: bool) returns (acknowledged: bool)
      requires k < |kiosks|
      modifies this
      ensures (State(), acknowledged) == Acknowledge(old(State()), k, r, clockAllows)
    {
      var kiosk := kiosks[k];
      if !kiosk.hasCredential {
        return false;
      }
      if kiosk.lastReceipt == Some(r) {
        return true;
      }
      if r !in receipts || receipts[r].kiosk != k || (receipts[r].sequence == None && !clockAllows) {
        return false;
      }
      var applied := kiosk.applied;
      if receipts[r].sequence.Some? {
        applied := Some(Max(applied.GetOr(0), receipts[r].sequence.value));
      }
      kiosks := kiosks[k := KioskDoc(true, applied, Some(r))];
      receipts := receipts - {r};
      acknowledged := true;
    }
  }

  /** The batch up to its `i`-th row. */
  ghost function StampFirst(s: Server, ids: seq<nat>, i: nat): Option<Server>
    requires i <= |ids| && forall j :: 0 <= j < |ids| ==> ids[j] < |s.workers|
  {
    StampAll(s, ids[..i])
  }

  lemma StampNone(s: Server, ids: seq<nat>)
    requires forall j :: 0 <= j < |ids| ==> ids[j] < |s.workers|
    ensures StampFirst(s, ids, 0) == Some(s) && StampFirst(s, ids, |ids|) == StampAll(s, ids)
  {
    assert ids[..|ids|] == ids;
  }

  lemma StampNext(s: Server, ids: seq<nat>, i: nat)
    requires i < |ids| && (forall j :: 0 <= j < |ids| ==> ids[j] < |s.workers|) && StampFirst(s, ids, i).Some?
    ensures StampFirst(s, ids, i + 1) ==
            WriteRosterWorker(StampFirst(s, ids, i).value, Fields(None, None), Some(ids[i]), false)
  {
    assert ids[..i + 1][..i] == ids[..i] && ids[..i + 1][i] == ids[i];
  }

  lemma {:induction false} PrefixFails(s: Server, ids: seq<nat>, i: nat)
    requires i <= |ids| && forall j :: 0 <= j < |ids| ==> ids[j] < |s.workers|
    requires StampFirst(s, ids, i) == None
    ensures StampAll(s, ids) == None
    decreases |ids| - i
  {
    if i < |ids| {
      assert ids[..i + 1][..i] == ids[..i];
      PrefixFails(s, ids, i + 1);
    } else {
      assert ids[..i] == ids;
    }
  }
}
