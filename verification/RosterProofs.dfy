/** Certification: what an applied sequence promises about the kiosk that reported it. */
module RosterProofs {
  import opened Options
  import opened RosterServer
  import opened RosterProtocol

  // ----- the history of a worker -----

  /** The sequence of the last write to `w` among the first `n`, 0 if there is none. */
  ghost function LastWrite(log: seq<Commit>, n: nat, w: nat): (r: nat)
    requires n <= |log|
    ensures r <= n
    ensures r > 0 ==> log[r - 1].worker == w
    ensures forall i :: r <= i < n ==> log[i].worker != w
  {
    if n == 0 then 0
    else if log[n - 1].worker == w then n
    else LastWrite(log, n - 1, w)
  }

  lemma LastWriteMonotone(log: seq<Commit>, n: nat, m: nat, w: nat)
    requires n <= m <= |log|
    ensures LastWrite(log, n, w) <= LastWrite(log, m, w)
    ensures LastWrite(log, m, w) <= n ==> LastWrite(log, n, w) == LastWrite(log, m, w)
  {
    var a, b := LastWrite(log, n, w), LastWrite(log, m, w);
    assert (a > 0 ==> log[a - 1].worker == w) && (b > 0 ==> log[b - 1].worker == w);
  }

  lemma {:induction false} LastWriteOfExtended(log: seq<Commit>, c: Commit, n: nat, w: nat)
    requires n <= |log|
    ensures LastWrite(log + [c], n, w) == LastWrite(log, n, w)
  {
    var a, b := LastWrite(log + [c], n, w), LastWrite(log, n, w);
    assert (a > 0 ==> log[a - 1].worker == w) && (b > 0 ==> (log + [c])[b - 1].worker == w);
  }

  /** Whether the row of `w` held a template right after the write with this sequence. */
  ghost predicate PresentAt(s: System, w: nat, version: nat) {
    if version == 0 then w < |s.legacy| && s.legacy[w]
    else version <= |s.log| && s.log[version - 1].present
  }

  ghost predicate IsVersion(s: System, w: nat, version: nat) {
    && w < |s.server.workers| && version <= |s.log|
    && (if version == 0 then w < |s.legacy| else s.log[version - 1].worker == w)
  }

  // ----- the invariant -----

  ghost predicate RowOk(s: System, w: nat)
    requires w < |s.server.workers|
  {
    && s.server.workers[w].sequence.GetOr(0) == LastWrite(s.log, |s.log|, w)
    && s.server.workers[w].sequence != Some(0)
    && (s.server.workers[w].sequence == None ==> w < |s.legacy|)
    && (s.server.workers[w].Present() <==> PresentAt(s, w, s.server.workers[w].sequence.GetOr(0)))
  }

  ghost predicate ServerOk(s: System) {
    && s.server.counter == |s.log|
    && |s.legacy| <= |s.server.workers|
    && (forall w: nat :: w < |s.server.workers| ==> RowOk(s, w))
    && (forall i :: 0 <= i < |s.log| ==> s.log[i].worker < |s.server.workers|)
  }

  ghost predicate PurgesOk(s: System) {
    && (forall i :: 0 <= i < |s.log| && s.log[i].purge ==>
          s.server.lastPurge.Some? && i < s.server.lastPurge.value && !s.log[i].present)
    && (s.server.lastPurge.Some? ==> s.server.lastPurge.value <= |s.log|)
  }

  ghost predicate ReceiptsOk(s: System) {
    && (forall r :: r in s.server.receipts ==> r < s.server.nextReceipt)
    && (forall r :: r in s.server.receipts && s.server.receipts[r].sequence.Some? ==>
          s.server.receipts[r].sequence.value <= |s.log|)
  }

  /** What the device stores is what the tracked version of each row says. */
  ghost predicate StoreOk(s: System, d: Device) {
    forall w :: w in d.versions ==>
      IsVersion(s, w, d.versions[w]) && (w in d.local <==> PresentAt(s, w, d.versions[w]))
  }

  /** The device has brought `w` at least to the given version. */
  ghost predicate Holds(d: Device, w: nat, version: nat) {
    w in d.versions && version <= d.versions[w]
  }

  /** Everything written with a sequence up to `n`, and everything older, has been applied; no
      template of unknown origin is left. */
  ghost predicate Certified(s: System, d: Device, n: nat) {
    && n <= |s.log|
    && (forall w: nat :: LastWrite(s.log, n, w) > 0 ==> Holds(d, w, LastWrite(s.log, n, w)))
    && (forall w: nat :: w < |s.legacy| ==> Holds(d, w, 0))
    && (forall w :: w in d.local ==> w in d.versions)
  }

  ghost predicate Collected(rows: seq<Row>, w: nat, version: nat) {
    exists j :: 0 <= j < |rows| && rows[j].id == w && version <= rows[j].version
  }

  ghost predicate RowsOk(s: System, rows: seq<Row>) {
    && (forall j :: 0 <= j < |rows| ==>
          IsVersion(s, rows[j].id, rows[j].version) &&
          (rows[j].present <==> PresentAt(s, rows[j].id, rows[j].version)))
    && (forall i, j :: 0 <= i < j < |rows| && rows[i].id == rows[j].id ==> rows[i].version <= rows[j].version)
  }

  /** How far the download has come for the worker `w`, which was known when the receipt was issued. */
  ghost predicate Covered(s: System, ss: Session, w: nat)
    requires ss.issuedAt <= |s.log|
  {
    var wanted := LastWrite(s.log, ss.issuedAt, w);
    match ss.cursor
    case FullScan(next) => Collected(ss.rows, w, wanted) || next <= w
    case Updated(after) =>
      ss.since.Some? && wanted > ss.since.value ==>
        Collected(ss.rows, w, wanted) || LastWrite(s.log, |s.log|, w) > after
    case Legacy(next) =>
      && (ss.since.Some? && wanted > ss.since.value ==> Collected(ss.rows, w, wanted))
      && (wanted == 0 ==> Collected(ss.rows, w, 0) || LastWrite(s.log, |s.log|, w) > ss.issuedAt || next <= w)
    case Complete =>
      && ((ss.since.Some? ==> wanted > ss.since.value) ==> Collected(ss.rows, w, wanted))
      && (wanted == 0 ==> Collected(ss.rows, w, 0) || LastWrite(s.log, |s.log|, w) > ss.issuedAt)
  }

  ghost predicate DownloadOk(s: System, ss: Session) {
    && ss.issuedAt <= |s.log| && |s.legacy| <= ss.known <= |s.server.workers|
    && (forall i :: 0 <= i < ss.issuedAt ==> s.log[i].worker < ss.known)
    && (ss.cursor.FullScan? ==> ss.since == None && ss.cursor.next <= |s.server.workers|)
    && (ss.cursor.Updated? ==> ss.since.Some? && ss.cursor.after <= |s.log|)
    && (ss.cursor.Legacy? ==> ss.since.Some?)
    && (!ss.phase.Downloading? ==> ss.cursor.Complete?)
    && RowsOk(s, ss.rows)
    && (forall w: nat :: w < ss.known ==> Covered(s, ss, w))
  }

  /** Which rows of the response the device has already applied, and that none is outdated. */
  ghost predicate ApplyOk(d: Device, ss: Session) {
    match ss.phase
    case Downloading => forall j :: 0 <= j < |ss.rows| ==> NotOlder(d, ss.rows[j])
    case Revoking(i) =>
      && i <= |ss.rows|
      && (forall j :: i <= j < |ss.rows| ==> NotOlder(d, ss.rows[j]))
      && (forall j :: 0 <= j < i ==> NotOlderUnless(d, ss.rows, j))
      && (forall j :: 0 <= j < i && !ss.rows[j].present ==> Holds(d, ss.rows[j].id, ss.rows[j].version))
    case FailedRevoking(i) =>
      i <= |ss.rows| && forall j :: i <= j < |ss.rows| ==> NotOlder(d, ss.rows[j])
    case Applying(i) =>
      && i <= |ss.rows| && NoDuplicates(ss.rows)
      && (forall j :: 0 <= j < |ss.rows| ==> NotOlder(d, ss.rows[j]))
      && (forall j :: 0 <= j < |ss.rows| && (j < i || !ss.rows[j].present) ==>
            Holds(d, ss.rows[j].id, ss.rows[j].version))
  }

  ghost predicate NotOlder(d: Device, row: Row) {
    row.id in d.versions ==> d.versions[row.id] <= row.version
  }

  /** A handled row can only have been overtaken by a later row for the same worker. */
  ghost predicate NotOlderUnless(d: Device, rows: seq<Row>, j: int)
    requires 0 <= j < |rows|
  {
    NotOlder(d, rows[j]) || !NoDuplicates(rows)
  }

  ghost predicate SessionOk(s: System, d: Device, ss: Session) {
    && DownloadOk(s, ss)
    && ApplyOk(d, ss)
    && (forall w :: w in d.versions ==> w < ss.known || w in RowIds(ss.rows))
    && ss.receipt < s.server.nextReceipt
    && (ss.since.Some? ==> ss.since.value <= ss.issuedAt && Certified(s, d, ss.since.value))
    && (ss.receipt in s.server.receipts && s.server.receipts[ss.receipt].sequence.Some? ==>
          s.server.receipts[ss.receipt].sequence.value <= ss.issuedAt)
  }

  /** Whoever acknowledges receipt `r` for the device tells the truth. */
  ghost predicate MayAck(s: System, d: Device, r: nat) {
    && r < s.server.nextReceipt
    && (r in s.server.receipts && s.server.receipts[r].sequence.Some? ==>
          Certified(s, d, s.server.receipts[r].sequence.value))
  }

  ghost predicate DeviceOk(s: System, k: nat)
    requires Shaped(s) && k < |s.devices|
  {
    var d := s.devices[k];
    && StoreOk(s, d)
    && (d.session.Some? ==> SessionOk(s, d, d.session.value))
    && (d.pending.Some? ==> MayAck(s, d, d.pending.value))
    && (forall r: nat :: (k, r) in s.acks ==> MayAck(s, d, r))
    && (s.server.kiosks[k].applied.Some? ==> Certified(s, d, s.server.kiosks[k].applied.value))
  }

  ghost predicate Inv(s: System) {
    && Shaped(s) && ServerOk(s) && PurgesOk(s) && ReceiptsOk(s)
    && (forall k: nat :: k < |s.devices| ==> DeviceOk(s, k))
  }

  /** The moment the sequence counter is introduced: nothing has been written through it, no
      kiosk has reported an applied sequence, and kiosks may hold any templates. */
  ghost predicate Upgraded(s: System) {
    && Shaped(s) && s.log == [] && s.server.counter == 0 && s.server.lastPurge == None && s.acks == {}
    && |s.legacy| == |s.server.workers|
    && (forall w: nat :: w < |s.legacy| ==>
          s.server.workers[w].sequence == None && (s.server.workers[w].Present() <==> s.legacy[w]))
    && (forall r :: r in s.server.receipts ==> r < s.server.nextReceipt && s.server.receipts[r].sequence == None)
    && (forall k: nat :: k < |s.devices| ==>
          s.server.kiosks[k].applied == None && s.devices[k].session == None && s.devices[k].versions == map[] &&
          (s.devices[k].pending.Some? ==> s.devices[k].pending.value < s.server.nextReceipt))
  }

  lemma UpgradedIsOk(s: System)
    requires Upgraded(s)
    ensures Inv(s)
  {
  }

  // ----- the history only grows -----

  /** `t` has everything `s` had: the same history, possibly longer, and no receipt id reused. */
  ghost predicate Extends(s: System, t: System) {
    && s.log <= t.log && s.legacy == t.legacy
    && |s.server.workers| <= |t.server.workers|
    && s.server.nextReceipt <= t.server.nextReceipt
    && (forall r :: r in t.server.receipts && r < s.server.nextReceipt ==>
          r in s.server.receipts && s.server.receipts[r] == t.server.receipts[r])
  }

  lemma {:induction false} LastWriteOfPrefix(log: seq<Commit>, more: seq<Commit>, n: nat, w: nat)
    requires n <= |log| && log <= more
    ensures LastWrite(log, n, w) == LastWrite(more, n, w)
  {
    if n > 0 {
      LastWriteOfPrefix(log, more, n - 1, w);
    }
  }

  /** Nothing that was certified is lost when the history grows or the device moves forward. */
  ghost predicate MovesForward(d: Device, e: Device) {
    && (forall w :: w in d.versions ==> Holds(e, w, d.versions[w]))
    && (forall w :: w in e.local ==> w in d.local || w in e.versions)
  }

  lemma CertifiedStays(s: System, d: Device, t: System, e: Device, n: nat)
    requires Certified(s, d, n) && Extends(s, t) && MovesForward(d, e)
    ensures Certified(t, e, n)
  {
    forall w: nat ensures LastWrite(s.log, n, w) == LastWrite(t.log, n, w) {
      LastWriteOfPrefix(s.log, t.log, n, w);
    }
    forall w: nat | w < |t.legacy| ensures Holds(e, w, 0) {
      assert Holds(d, w, 0);
    }
  }

  lemma MayAckStays(s: System, d: Device, t: System, e: Device, r: nat)
    requires MayAck(s, d, r) && Extends(s, t) && MovesForward(d, e)
    ensures MayAck(t, e, r)
  {
    if r in t.server.receipts && t.server.receipts[r].sequence.Some? {
      CertifiedStays(s, d, t, e, t.server.receipts[r].sequence.value);
    }
  }

  lemma StoreStays(s: System, d: Device, t: System)
    requires StoreOk(s, d) && Extends(s, t)
    ensures StoreOk(t, d)
  {
  }

  lemma RowsStay(s: System, t: System, rows: seq<Row>)
    requires RowsOk(s, rows) && Extends(s, t)
    ensures RowsOk(t, rows)
  {
  }

  /** A write moves a row only ahead of every reader's cursor. */
  lemma DownloadStays(s: System, t: System, ss: Session)
    requires DownloadOk(s, ss) && Extends(s, t)
    ensures DownloadOk(t, ss)
  {
    RowsStay(s, t, ss.rows);
    forall w: nat | w < ss.known ensures Covered(t, ss, w) {
      assert Covered(s, ss, w);
      LastWriteOfPrefix(s.log, t.log, ss.issuedAt, w);
      LastWriteOfPrefix(s.log, t.log, |s.log|, w);
      LastWriteMonotone(t.log, |s.log|, |t.log|, w);
    }
  }

  lemma SessionStays(s: System, d: Device, t: System, ss: Session)
    requires SessionOk(s, d, ss) && Extends(s, t)
    ensures SessionOk(t, d, ss)
  {
    DownloadStays(s, t, ss);
    if ss.since.Some? {
      CertifiedStays(s, d, t, d, ss.since.value);
    }
  }

  /** A server step that leaves the devices alone keeps what is known about each of them. */
  lemma DeviceStays(s: System, t: System, k: nat)
    requires Shaped(s) && Shaped(t) && k < |s.devices| && s.devices == t.devices && s.acks == t.acks
    requires DeviceOk(s, k) && Extends(s, t)
    requires s.server.kiosks[k].applied == t.server.kiosks[k].applied
    ensures DeviceOk(t, k)
  {
    var d := s.devices[k];
    StoreStays(s, d, t);
    if d.session.Some? {
      SessionStays(s, d, t, d.session.value);
    }
    if d.pending.Some? {
      MayAckStays(s, d, t, d, d.pending.value);
    }
    forall r: nat | (k, r) in s.acks ensures MayAck(t, d, r) {
      MayAckStays(s, d, t, d, r);
    }
    if s.server.kiosks[k].applied.Some? {
      CertifiedStays(s, d, t, d, s.server.kiosks[k].applied.value);
    }
  }

  // ----- writes -----

  lemma CommitKeepsServer(s: System, fields: Fields, id: Option<nat>, purge: bool)
    requires ServerOk(s) && (id.Some? ==> id.value < |s.server.workers|)
    ensures ServerOk(CommitWrite(s, fields, id, purge))
  {
    var t := CommitWrite(s, fields, id, purge);
    if t != s {
      var w0 := match id case Some(v) => v case None => |s.server.workers|;
      var c := t.log[|s.log|];
      assert t.log == s.log + [c] && c.worker == w0;
      forall w: nat | w < |t.server.workers| ensures RowOk(t, w) {
        LastWriteOfExtended(s.log, c, |s.log|, w);
        if w != w0 {
          assert RowOk(s, w);
          assert LastWrite(t.log, |t.log|, w) == LastWrite(t.log, |s.log|, w);
        }
      }
    }
  }

  lemma CommitKeepsInv(s: System, fields: Fields, id: Option<nat>, purge: bool)
    requires Inv(s) && (id.Some? ==> id.value < |s.server.workers|)
    requires purge ==> fields == Fields(Some(false), Some(false))
    ensures Inv(CommitWrite(s, fields, id, purge))
  {
    var t := CommitWrite(s, fields, id, purge);
    CommitKeepsServer(s, fields, id, purge);
    forall k: nat | k < |t.devices| ensures DeviceOk(t, k) {
      assert DeviceOk(s, k);
      DeviceStays(s, t, k);
    }
  }

  lemma {:induction false} CommitAllKeepsInv(s: System, ids: seq<nat>)
    requires Inv(s) && forall i :: 0 <= i < |ids| ==> ids[i] < |s.server.workers|
    ensures Inv(CommitAll(s, ids))
    decreases |ids|
  {
    if ids != [] {
      CommitAllKeepsInv(s, ids[..|ids| - 1]);
      CommitKeepsInv(CommitAll(s, ids[..|ids| - 1]), Fields(None, None), Some(ids[|ids| - 1]), false);
    }
  }

  /** The batch of the model is the batch that `RosterStore.BackfillRosterSequences` performs. */
  lemma {:induction false} CommitAllIsStampAll(s: System, ids: seq<nat>)
    requires forall i :: 0 <= i < |ids| ==> ids[i] < |s.server.workers|
    requires StampAll(s.server, ids).Some?
    ensures CommitAll(s, ids).server == StampAll(s.server, ids).value
    decreases |ids|
  {
    if ids != [] {
      CommitAllIsStampAll(s, ids[..|ids| - 1]);
    }
  }

  // ----- receipts -----

  lemma IssueKeepsInv(s: System, k: nat)
    requires Inv(s) && k < |s.devices|
    ensures Inv(s.(server := IssueRosterReceipt(s.server, k).0))
    ensures Extends(s, s.(server := IssueRosterReceipt(s.server, k).0))
  {
    var t := s.(server := IssueRosterReceipt(s.server, k).0);
    forall w: nat | w < |t.server.workers| ensures RowOk(t, w) {
      assert RowOk(s, w);
    }
    forall i: nat | i < |t.devices| ensures DeviceOk(t, i) {
      assert DeviceOk(s, i);
      DeviceStays(s, t, i);
    }
  }

  /** A new sync has everything still to read. */
  lemma StartedIsCovered(s: System, ss: Session)
    requires ServerOk(s) && ss.issuedAt == |s.log| && ss.known == |s.server.workers|
    requires ss.cursor == if ss.since == None then FullScan(0) else Updated(ss.since.value)
    requires ss.rows == [] && ss.phase == Downloading && (ss.since.Some? ==> ss.since.value <= |s.log|)
    ensures DownloadOk(s, ss)
  {
    forall w: nat | w < ss.known ensures Covered(s, ss, w) {
    }
  }

  lemma StartKeepsInv(s: System, k: nat, forceFull: bool)
    requires Inv(s) && k < |s.devices|
    ensures Inv(Do(s, Start(k, forceFull)))
  {
    IssueKeepsInv(s, k);
    var (server, issued) := IssueRosterReceipt(s.server, k);
    var t := s.(server := server);
    if issued.Some? {
      assert DeviceOk(t, k);
      var u := Do(s, Start(k, forceFull));
      var ss := u.devices[k].session.value;
      StartedIsCovered(t, ss);
      if ss.since.Some? {
        CertifiedStays(t, t.devices[k], t, u.devices[k], ss.since.value);
      }
      SameStoreChanged(t, u, k);
    }
  }

  /** Replacing one device is enough when the rest of the system stays. */
  lemma OneDeviceChanged(s: System, t: System, k: nat)
    requires Inv(s) && k < |s.devices| == |t.devices| && t == WithDevice(s, k, t.devices[k])
    requires StoreOk(s, t.devices[k]) && MovesForward(s.devices[k], t.devices[k])
    requires t.devices[k].session.Some? ==> SessionOk(s, t.devices[k], t.devices[k].session.value)
    requires t.devices[k].pending.Some? ==> MayAck(s, t.devices[k], t.devices[k].pending.value)
    ensures Inv(t)
  {
    var d, e := s.devices[k], t.devices[k];
    assert Extends(s, t);
    forall w: nat | w < |t.server.workers| ensures RowOk(t, w) {
      assert RowOk(s, w);
    }
    forall i: nat | i < |t.devices| ensures DeviceOk(t, i) {
      assert DeviceOk(s, i);
      if i == k {
        StoreStays(s, e, t);
        if e.session.Some? {
          SessionStays(s, e, t, e.session.value);
        }
        if e.pending.Some? {
          MayAckStays(s, e, t, e, e.pending.value);
        }
        forall r: nat | (k, r) in t.acks ensures MayAck(t, e, r) {
          MayAckStays(s, d, t, e, r);
        }
        if t.server.kiosks[k].applied.Some? {
          CertifiedStays(s, d, t, e, t.server.kiosks[k].applied.value);
        }
      } else {
        OtherDeviceStays(s, t, i);
      }
    }
  }

  /** Replacing only the session of a device. */
  lemma SameStoreChanged(s: System, t: System, k: nat)
    requires Inv(s) && k < |s.devices| == |t.devices| && t == WithDevice(s, k, t.devices[k])
    requires t.devices[k] == s.devices[k].(session := t.devices[k].session)
    requires t.devices[k].session.Some? ==> SessionOk(s, t.devices[k], t.devices[k].session.value)
    ensures Inv(t)
  {
    assert DeviceOk(s, k);
    var e := t.devices[k];
    if e.pending.Some? {
      MayAckStays(s, s.devices[k], s, e, e.pending.value);
    }
    OneDeviceChanged(s, t, k);
  }

  lemma OtherDeviceStays(s: System, t: System, i: nat)
    requires Shaped(s) && Shaped(t) && i < |s.devices| == |t.devices| && s.devices[i] == t.devices[i]
    requires s.server == t.server && s.log == t.log && s.legacy == t.legacy && s.acks == t.acks
    requires DeviceOk(s, i)
    ensures DeviceOk(t, i)
  {
    var d := s.devices[i];
    StoreStays(s, d, t);
    if d.session.Some? {
      SessionStays(s, d, t, d.session.value);
    }
    if d.pending.Some? {
      MayAckStays(s, d, t, d, d.pending.value);
    }
    forall r: nat | (i, r) in s.acks ensures MayAck(t, d, r) {
      MayAckStays(s, d, t, d, r);
    }
    if s.server.kiosks[i].applied.Some? {
      CertifiedStays(s, d, t, d, s.server.kiosks[i].applied.value);
    }
  }

  // ----- pages -----

  /** A page of updated rows holds every row up to its last one, and all of them when it is short. */
  lemma {:induction false} UpdatedPageIsComplete(workers: seq<WorkerRow>, q: nat, counter: nat, limit: nat, w: nat)
    requires w < |workers| && workers[w].sequence.Some? && q <= workers[w].sequence.value <= counter
    requires forall v: nat :: v < |workers| && workers[v].sequence == workers[w].sequence ==> v == w
    ensures var ids := UpdatedIds(workers, q, counter, limit);
            w in ids || (|ids| == limit &&
              forall i :: 0 <= i < |ids| ==> workers[ids[i]].sequence.value < workers[w].sequence.value)
    decreases counter - q
  {
    if limit > 0 {
      match FindSequence(workers, q)
      case Some(v) =>
        if v != w {
          UpdatedPageIsComplete(workers, q + 1, counter, limit - 1, w);
        }
      case None =>
        UpdatedPageIsComplete(workers, q + 1, counter, limit, w);
    }
  }

  lemma {:induction false} LegacyPageIsComplete(workers: seq<WorkerRow>, i: nat, limit: nat, w: nat)
    requires i <= w < |workers| && workers[w].sequence == None
    ensures var ids := LegacyIds(workers, i, limit);
            w in ids || (|ids| == limit && (limit > 0 ==> ids[limit - 1] < w))
    decreases |workers| - i
  {
    if limit > 0 && i < w {
      if workers[i].sequence == None {
        LegacyPageIsComplete(workers, i + 1, limit - 1, w);
      } else {
        LegacyPageIsComplete(workers, i + 1, limit, w);
      }
    }
  }

  lemma CurrentVersion(s: System, w: nat)
    requires ServerOk(s) && w < |s.server.workers|
    ensures ReadRow(s.server.workers, w).version == LastWrite(s.log, |s.log|, w)
    ensures IsVersion(s, w, LastWrite(s.log, |s.log|, w))
    ensures s.server.workers[w].Present() <==> PresentAt(s, w, LastWrite(s.log, |s.log|, w))
    ensures forall v: nat :: IsVersion(s, w, v) ==> v <= LastWrite(s.log, |s.log|, w)
  {
    assert RowOk(s, w);
    forall v: nat | IsVersion(s, w, v) ensures v <= LastWrite(s.log, |s.log|, w) {
      assert v > 0 ==> s.log[v - 1].worker == w;
    }
  }

  /** Rows read now are valid and no older than rows read before. */
  lemma RowsGrow(s: System, rows: seq<Row>, ids: seq<nat>)
    requires ServerOk(s) && RowsOk(s, rows) && forall i :: 0 <= i < |ids| ==> ids[i] < |s.server.workers|
    ensures RowsOk(s, rows + ReadRows(s.server.workers, ids))
  {
    var more := rows + ReadRows(s.server.workers, ids);
    forall j | 0 <= j < |more|
      ensures IsVersion(s, more[j].id, more[j].version) &&
              (more[j].present <==> PresentAt(s, more[j].id, more[j].version))
    {
      if j >= |rows| {
        CurrentVersion(s, ids[j - |rows|]);
      }
    }
    forall i, j | 0 <= i < j < |more| && more[i].id == more[j].id ensures more[i].version <= more[j].version {
      if j >= |rows| {
        CurrentVersion(s, ids[j - |rows|]);
      }
    }
  }

  lemma CollectedStays(rows: seq<Row>, more: seq<Row>, w: nat, version: nat)
    requires Collected(rows, w, version)
    ensures Collected(rows + more, w, version)
  {
    var j :| 0 <= j < |rows| && rows[j].id == w && version <= rows[j].version;
    assert (rows + more)[j] == rows[j];
  }

  lemma CollectedNow(s: System, rows: seq<Row>, ids: seq<nat>, w: nat, n: nat)
    requires ServerOk(s) && n <= |s.log| && w in ids && forall i :: 0 <= i < |ids| ==> ids[i] < |s.server.workers|
    ensures Collected(rows + ReadRows(s.server.workers, ids), w, LastWrite(s.log, n, w))
  {
    var i :| 0 <= i < |ids| && ids[i] == w;
    CurrentVersion(s, w);
    LastWriteMonotone(s.log, n, |s.log|, w);
    assert (rows + ReadRows(s.server.workers, ids))[|rows| + i] == ReadRow(s.server.workers, w);
  }

  /** The rows a page reads. */
  function PageIds(server: Server, cursor: Cursor): (ids: seq<nat>)
    requires cursor.FullScan? ==> cursor.next <= |server.workers|
    ensures forall i :: 0 <= i < |ids| ==> ids[i] < |server.workers|
  {
    match cursor
    case FullScan(next) =>
      FullIds(next, if next + PAGE_SIZE <= |server.workers| then PAGE_SIZE else |server.workers| - next)
    case Updated(after) => UpdatedIds(server.workers, after + 1, server.counter, PAGE_SIZE)
    case Legacy(next) => LegacyIds(server.workers, next, PAGE_SIZE)
    case Complete => []
  }

  lemma NextPageRows(server: Server, ss: Session, settled: bool)
    requires ss.cursor.FullScan? ==> ss.cursor.next <= |server.workers|
    ensures NextPage(server, ss, settled).rows == ss.rows + ReadRows(server.workers, PageIds(server, ss.cursor))
  {
  }

  lemma SequencesAreUnique(s: System, w: nat)
    requires ServerOk(s) && w < |s.server.workers| && s.server.workers[w].sequence.Some?
    ensures forall v: nat ::
        v < |s.server.workers| && s.server.workers[v].sequence == s.server.workers[w].sequence ==> v == w
  {
    assert RowOk(s, w);
    forall v: nat | v < |s.server.workers| && s.server.workers[v].sequence == s.server.workers[w].sequence
      ensures v == w
    {
      assert RowOk(s, v);
    }
  }

  /** A row ahead of the cursor is on the page, or still ahead of the page's last row. */
  lemma AheadOfCursor(s: System, after: nat, w: nat)
    requires ServerOk(s) && w < |s.server.workers| && LastWrite(s.log, |s.log|, w) > after
    ensures var ids := UpdatedIds(s.server.workers, after + 1, s.server.counter, PAGE_SIZE);
            w in ids || (|ids| == PAGE_SIZE &&
              s.server.workers[ids[|ids| - 1]].sequence.value < LastWrite(s.log, |s.log|, w))
  {
    assert RowOk(s, w);
    SequencesAreUnique(s, w);
    UpdatedPageIsComplete(s.server.workers, after + 1, s.server.counter, PAGE_SIZE, w);
  }

  /** After reading a page, a wanted row has been collected or is still ahead of a full page. */
  lemma PageOutcome(s: System, rows: seq<Row>, after: nat, n: nat, w: nat)
    requires ServerOk(s) && n <= |s.log| && w < |s.server.workers|
    requires Collected(rows, w, LastWrite(s.log, n, w)) || LastWrite(s.log, |s.log|, w) > after
    ensures var ids := UpdatedIds(s.server.workers, after + 1, s.server.counter, PAGE_SIZE);
            || Collected(rows + ReadRows(s.server.workers, ids), w, LastWrite(s.log, n, w))
            || (|ids| == PAGE_SIZE &&
                s.server.workers[ids[|ids| - 1]].sequence.value < LastWrite(s.log, |s.log|, w))
  {
    var ids := UpdatedIds(s.server.workers, after + 1, s.server.counter, PAGE_SIZE);
    if Collected(rows, w, LastWrite(s.log, n, w)) {
      CollectedStays(rows, ReadRows(s.server.workers, ids), w, LastWrite(s.log, n, w));
    } else if w in ids {
      CollectedNow(s, rows, ids, w, n);
    } else {
      AheadOfCursor(s, after, w);
    }
  }

  lemma PageCoversWanted(s: System, ss: Session, settled: bool, w: nat)
    requires ServerOk(s) && ss.issuedAt <= |s.log| && ss.cursor.Updated? && ss.since.Some?
    requires w < |s.server.workers| && Covered(s, ss, w) && LastWrite(s.log, ss.issuedAt, w) > ss.since.value
    ensures Covered(s, NextPage(s.server, ss, settled), w)
  {
    PageOutcome(s, ss.rows, ss.cursor.after, ss.issuedAt, w);
  }

  lemma PageCoversUpdated(s: System, ss: Session, settled: bool, w: nat)
    requires ServerOk(s) && ss.issuedAt <= |s.log| && ss.cursor.Updated? && ss.since.Some?
    requires w < |s.server.workers| && Covered(s, ss, w)
    ensures Covered(s, NextPage(s.server, ss, settled), w)
  {
    if LastWrite(s.log, ss.issuedAt, w) > ss.since.value {
      PageCoversWanted(s, ss, settled, w);
    }
  }

  lemma PageCoversFull(s: System, ss: Session, settled: bool, w: nat)
    requires ServerOk(s) && DownloadOk(s, ss) && ss.cursor.FullScan? && w < ss.known
    ensures Covered(s, NextPage(s.server, ss, settled), w)
  {
    var ids := PageIds(s.server, ss.cursor);
    var wanted := LastWrite(s.log, ss.issuedAt, w);
    assert Covered(s, ss, w);
    if Collected(ss.rows, w, wanted) {
      CollectedStays(ss.rows, ReadRows(s.server.workers, ids), w, wanted);
    } else if w < ss.cursor.next + |ids| {
      assert ids[w - ss.cursor.next] == w;
      CollectedNow(s, ss.rows, ids, w, ss.issuedAt);
    }
  }

  lemma PageCoversLegacy(s: System, ss: Session, settled: bool, w: nat)
    requires ServerOk(s) && DownloadOk(s, ss) && (ss.cursor.Legacy? || ss.cursor.Complete?) && w < ss.known
    ensures Covered(s, NextPage(s.server, ss, settled), w)
  {
    var ids := PageIds(s.server, ss.cursor);
    var page := ReadRows(s.server.workers, ids);
    var wanted := LastWrite(s.log, ss.issuedAt, w);
    assert Covered(s, ss, w);
    if Collected(ss.rows, w, wanted) {
      CollectedStays(ss.rows, page, w, wanted);
    }
    if ss.cursor.Legacy? && wanted == 0 && LastWrite(s.log, |s.log|, w) <= ss.issuedAt && ss.cursor.next <= w {
      LastWriteMonotone(s.log, ss.issuedAt, |s.log|, w);
      assert RowOk(s, w);
      LegacyPageIsComplete(s.server.workers, ss.cursor.next, PAGE_SIZE, w);
      if w in ids {
        CollectedNow(s, ss.rows, ids, w, ss.issuedAt);
      }
    }
  }

  lemma ReadPageKeepsDownload(s: System, ss: Session, settled: bool)
    requires ServerOk(s) && DownloadOk(s, ss) && ss.phase.Downloading?
    ensures DownloadOk(s, NextPage(s.server, ss, settled))
  {
    var tt := NextPage(s.server, ss, settled);
    NextPageRows(s.server, ss, settled);
    RowsGrow(s, ss.rows, PageIds(s.server, ss.cursor));
    forall w: nat | w < ss.known ensures Covered(s, tt, w) {
      if ss.cursor.Updated? {
        assert Covered(s, ss, w);
        PageCoversUpdated(s, ss, settled, w);
      } else if ss.cursor.FullScan? {
        PageCoversFull(s, ss, settled, w);
      } else {
        PageCoversLegacy(s, ss, settled, w);
      }
    }
  }

  lemma PageRowsNotOlder(s: System, d: Device, ss: Session, settled: bool)
    requires ServerOk(s) && StoreOk(s, d) && SessionOk(s, d, ss) && ss.phase.Downloading?
    ensures forall j :: 0 <= j < |NextPage(s.server, ss, settled).rows| ==>
        NotOlder(d, NextPage(s.server, ss, settled).rows[j])
  {
    forall j: nat | j < |NextPage(s.server, ss, settled).rows|
      ensures NotOlder(d, NextPage(s.server, ss, settled).rows[j])
    {
      PageRowNotOlder(s, d, ss, settled, j);
    }
  }

  lemma ReadRowNotOlder(s: System, d: Device, w: nat)
    requires ServerOk(s) && StoreOk(s, d) && w < |s.server.workers|
    ensures NotOlder(d, ReadRow(s.server.workers, w))
  {
    CurrentVersion(s, w);
  }

  lemma PageRowNotOlder(s: System, d: Device, ss: Session, settled: bool, j: nat)
    requires ServerOk(s) && StoreOk(s, d) && SessionOk(s, d, ss) && ss.phase.Downloading?
    requires j < |NextPage(s.server, ss, settled).rows|
    ensures NotOlder(d, NextPage(s.server, ss, settled).rows[j])
  {
    NextPageRows(s.server, ss, settled);
    if j >= |ss.rows| {
      ReadRowNotOlder(s, d, PageIds(s.server, ss.cursor)[j - |ss.rows|]);
    }
  }

  lemma PageKeepsIds(s: System, ss: Session, settled: bool, w: nat)
    requires ss.phase.Downloading? && ServerOk(s) && DownloadOk(s, ss) && w in RowIds(ss.rows)
    ensures w in RowIds(NextPage(s.server, ss, settled).rows)
  {
    NextPageRows(s.server, ss, settled);
    var j :| 0 <= j < |ss.rows| && ss.rows[j].id == w;
    assert NextPage(s.server, ss, settled).rows[j] == ss.rows[j];
  }

  lemma ReadPageKeepsSession(s: System, d: Device, ss: Session, settled: bool)
    requires ServerOk(s) && StoreOk(s, d) && SessionOk(s, d, ss) && ss.phase.Downloading?
    ensures SessionOk(s, d, NextPage(s.server, ss, settled))
  {
    ReadPageKeepsDownload(s, ss, settled);
    PageRowsNotOlder(s, d, ss, settled);
    forall w | w in d.versions && w in RowIds(ss.rows) ensures w in RowIds(NextPage(s.server, ss, settled).rows) {
      PageKeepsIds(s, ss, settled, w);
    }
  }

  lemma SessionOfSameStore(s: System, d: Device, e: Device, ss: Session)
    requires SessionOk(s, d, ss) && e.local == d.local && e.versions == d.versions
    ensures SessionOk(s, e, ss)
  {
    if ss.phase.Revoking? {
      forall j | 0 <= j < ss.phase.i ensures NotOlderUnless(e, ss.rows, j) {
        assert NotOlderUnless(d, ss.rows, j);
      }
    }
    if ss.since.Some? {
      CertifiedStays(s, d, s, e, ss.since.value);
    }
  }

  lemma ReadPageKeepsInv(s: System, k: nat, settled: bool)
    requires Inv(s) && k < |s.devices|
    ensures Inv(Do(s, ReadPage(k, settled)))
  {
    var t := Do(s, ReadPage(k, settled));
    assert DeviceOk(s, k);
    if t != s {
      var d := s.devices[k];
      ReadPageKeepsSession(s, d, d.session.value, settled);
      SessionOfSameStore(s, d, t.devices[k], t.devices[k].session.value);
      SameStoreChanged(s, t, k);
    }
  }

  lemma DeliverKeepsInv(s: System, k: nat)
    requires Inv(s) && k < |s.devices|
    ensures Inv(Do(s, Deliver(k))) && Inv(Do(s, Lose(k)))
  {
    assert DeviceOk(s, k);
    SameStoreChanged(s, Do(s, Lose(k)), k);
    var t := Do(s, Deliver(k));
    if t != s {
      var ss := t.devices[k].session.value;
      forall w: nat | w < ss.known ensures Covered(s, ss, w) {
        assert Covered(s, s.devices[k].session.value, w);
      }
      SessionOfSameStore(s, s.devices[k], t.devices[k], ss);
      SameStoreChanged(s, t, k);
    }
  }

  // ----- applying a response -----

  /** Applying a row that is not outdated only moves the device forward. */
  lemma ApplyRowMovesForward(s: System, d: Device, rows: seq<Row>, i: nat)
    requires StoreOk(s, d) && RowsOk(s, rows) && i < |rows| && NotOlder(d, rows[i])
    ensures StoreOk(s, ApplyRow(d, rows[i])) && MovesForward(d, ApplyRow(d, rows[i]))
    ensures Holds(ApplyRow(d, rows[i]), rows[i].id, rows[i].version)
    ensures forall j :: 0 <= j < |rows| && NotOlder(d, rows[j]) && (i <= j || rows[j].id != rows[i].id) ==>
        NotOlder(ApplyRow(d, rows[i]), rows[j])
    ensures forall j :: 0 <= j < |rows| && Holds(d, rows[j].id, rows[j].version) ==>
        Holds(ApplyRow(d, rows[i]), rows[j].id, rows[j].version)
  {
  }

  /** Applying rows does not change what was downloaded. */
  lemma PhaseKeepsDownload(s: System, ss: Session, phase: Phase)
    requires DownloadOk(s, ss) && !ss.phase.Downloading?
    ensures DownloadOk(s, ss.(phase := phase))
  {
    var tt := ss.(phase := phase);
    forall w: nat | w < tt.known ensures Covered(s, tt, w) {
      assert Covered(s, ss, w);
    }
  }

  lemma RevokeKeepsSession(s: System, d: Device, ss: Session, i: nat)
    requires StoreOk(s, d) && SessionOk(s, d, ss) && ss.phase == Revoking(i) && i < |ss.rows|
    ensures var e := if ss.rows[i].present then d else ApplyRow(d, ss.rows[i]);
            StoreOk(s, e) && MovesForward(d, e) && SessionOk(s, e, ss.(phase := Revoking(i + 1)))
  {
    var row := ss.rows[i];
    var tt := ss.(phase := Revoking(i + 1));
    var e := if row.present then d else ApplyRow(d, row);
    ApplyRowMovesForward(s, d, ss.rows, i);
    PhaseKeepsDownload(s, ss, tt.phase);
    if tt.since.Some? {
      CertifiedStays(s, d, s, e, tt.since.value);
    }
    forall j | 0 <= j < i + 1 ensures NotOlderUnless(e, ss.rows, j) {
      if j < i {
        assert NotOlderUnless(d, ss.rows, j);
        assert NoDuplicates(ss.rows) ==> ss.rows[j].id != row.id;
      }
    }
    assert row.id in RowIds(ss.rows);
    assert ApplyOk(e, tt);
  }

  /** After a failure, whether or not that row was still applied. */
  lemma FailureKeepsSession(s: System, d: Device, ss: Session, i: nat, applied: bool)
    requires StoreOk(s, d) && SessionOk(s, d, ss) && i < |ss.rows|
    requires ss.phase == Revoking(i) || ss.phase == FailedRevoking(i)
    ensures var e := if applied then ApplyRow(d, ss.rows[i]) else d;
            StoreOk(s, e) && MovesForward(d, e) && SessionOk(s, e, ss.(phase := FailedRevoking(i + 1)))
  {
    var row := ss.rows[i];
    var tt := ss.(phase := FailedRevoking(i + 1));
    var e := if applied then ApplyRow(d, row) else d;
    ApplyRowMovesForward(s, d, ss.rows, i);
    PhaseKeepsDownload(s, ss, tt.phase);
    if tt.since.Some? {
      CertifiedStays(s, d, s, e, tt.since.value);
    }
    assert row.id in RowIds(ss.rows);
    assert ApplyOk(e, tt);
  }

  lemma ApplyKeepsSession(s: System, d: Device, ss: Session, i: nat)
    requires StoreOk(s, d) && SessionOk(s, d, ss) && ss.phase == Applying(i) && i < |ss.rows|
    ensures var e := if ss.rows[i].present then ApplyRow(d, ss.rows[i]) else d;
            StoreOk(s, e) && MovesForward(d, e) && SessionOk(s, e, ss.(phase := Applying(i + 1)))
  {
    var row := ss.rows[i];
    var tt := ss.(phase := Applying(i + 1));
    var e := if row.present then ApplyRow(d, row) else d;
    ApplyRowMovesForward(s, d, ss.rows, i);
    PhaseKeepsDownload(s, ss, tt.phase);
    if tt.since.Some? {
      CertifiedStays(s, d, s, e, tt.since.value);
    }
    assert row.id in RowIds(ss.rows);
    assert ApplyOk(e, tt);
  }

  lemma CertifiedBelow(s: System, d: Device, n: nat, m: nat)
    requires Certified(s, d, n) && m <= n
    ensures Certified(s, d, m)
  {
    forall w: nat | LastWrite(s.log, m, w) > 0 ensures Holds(d, w, LastWrite(s.log, m, w)) {
      LastWriteMonotone(s.log, m, n, w);
      assert Holds(d, w, LastWrite(s.log, n, w));
    }
  }

  /** Once every row has been applied, the device has caught up with the moment of issue. */
  lemma AppliedIsCertified(s: System, d: Device, ss: Session)
    requires StoreOk(s, d) && SessionOk(s, d, ss) && ss.phase == Applying(|ss.rows|)
    ensures var e := d.(local := if ss.since == None then d.local * RowIds(ss.rows) else d.local);
            StoreOk(s, e) && Certified(s, e, ss.issuedAt) && MovesForward(d, e)
  {
    var e := d.(local := if ss.since == None then d.local * RowIds(ss.rows) else d.local);
    forall w: nat | w < ss.known && (ss.since.Some? ==> LastWrite(s.log, ss.issuedAt, w) > ss.since.value)
      ensures Holds(d, w, LastWrite(s.log, ss.issuedAt, w)) && w in RowIds(ss.rows)
    {
      assert Covered(s, ss, w);
      var j :| 0 <= j < |ss.rows| && ss.rows[j].id == w && LastWrite(s.log, ss.issuedAt, w) <= ss.rows[j].version;
      assert Holds(d, ss.rows[j].id, ss.rows[j].version);
    }
    forall w: nat | LastWrite(s.log, ss.issuedAt, w) > 0 ensures Holds(d, w, LastWrite(s.log, ss.issuedAt, w)) {
      var wanted := LastWrite(s.log, ss.issuedAt, w);
      assert s.log[wanted - 1].worker < ss.known;
      if ss.since.Some? && wanted <= ss.since.value {
        LastWriteMonotone(s.log, ss.since.value, ss.issuedAt, w);
        assert Holds(d, w, LastWrite(s.log, ss.since.value, w));
      }
    }
    forall w: nat | w < |s.legacy| ensures Holds(e, w, 0) {
      if ss.since == None {
        assert Holds(d, w, LastWrite(s.log, ss.issuedAt, w));
      } else {
        assert Holds(d, w, 0);
      }
    }
    forall w | w in e.local ensures w in e.versions {
      if ss.since == None {
        var j :| 0 <= j < |ss.rows| && ss.rows[j].id == w;
        assert Holds(d, ss.rows[j].id, ss.rows[j].version);
      }
    }
    forall w | w in d.versions && ss.since == None ensures w in RowIds(ss.rows) {
      if w < ss.known {
        assert Holds(d, w, LastWrite(s.log, ss.issuedAt, w));
      }
    }
  }

  lemma RevokeStepKeepsSession(s: System, d: Device, i: nat)
    requires StoreOk(s, d) && d.session.Some? && SessionOk(s, d, d.session.value)
    requires d.session.value.phase == Revoking(i) && i < |d.session.value.rows|
    ensures var e := AdvanceDevice(d);
            && StoreOk(s, e) && MovesForward(d, e) && e.pending == d.pending
            && e.session.Some? && SessionOk(s, e, e.session.value)
  {
    var ss, e := d.session.value, AdvanceDevice(d);
    RevokeKeepsSession(s, d, ss, i);
    SessionOfSameStore(s, if ss.rows[i].present then d else ApplyRow(d, ss.rows[i]), e, e.session.value);
  }

  lemma RevokeStepKeepsInv(s: System, k: nat, i: nat)
    requires Inv(s) && k < |s.devices| && s.devices[k].session.Some?
    requires s.devices[k].session.value.phase == Revoking(i) && i < |s.devices[k].session.value.rows|
    ensures Inv(Do(s, Advance(k)))
  {
    assert DeviceOk(s, k);
    var t := Do(s, Advance(k));
    RevokeStepKeepsSession(s, s.devices[k], i);
    AdvanceKeepsPending(s, k, t.devices[k]);
    OneDeviceChanged(s, t, k);
  }

  /** A step of a sync that has failed, or fails now. */
  lemma FailureStepKeepsInv(s: System, t: System, k: nat, i: nat, applied: bool)
    requires Inv(s) && k < |s.devices| && s.devices[k].session.Some?
    requires var phase := s.devices[k].session.value.phase; phase == Revoking(i) || phase == FailedRevoking(i)
    requires var d := s.devices[k];
             var ss := d.session.value;
             i < |ss.rows| &&
             var e := if applied then ApplyRow(d, ss.rows[i]) else d;
             t == WithDevice(s, k, e.(session := Some(ss.(phase := FailedRevoking(i + 1)))))
    ensures Inv(t)
  {
    assert DeviceOk(s, k);
    var d := s.devices[k];
    var ss := d.session.value;
    var e := t.devices[k];
    FailureKeepsSession(s, d, ss, i, applied);
    SessionOfSameStore(s, if applied then ApplyRow(d, ss.rows[i]) else d, e, e.session.value);
    AdvanceKeepsPending(s, k, e);
    OneDeviceChanged(s, t, k);
  }

  lemma FailRevocationKeepsInv(s: System, k: nat, deleted: bool)
    requires Inv(s) && k < |s.devices|
    ensures Inv(Do(s, FailRevocation(k, deleted)))
  {
    var t := Do(s, FailRevocation(k, deleted));
    if s.devices[k].session.Some? && FailDevice(s.devices[k], deleted) != s.devices[k] {
      FailureStepKeepsInv(s, t, k, s.devices[k].session.value.phase.i, deleted);
    } else {
      assert t.devices == s.devices;
    }
  }

  lemma ApplyStepKeepsSession(s: System, d: Device, i: nat)
    requires StoreOk(s, d) && d.session.Some? && SessionOk(s, d, d.session.value)
    requires d.session.value.phase == Applying(i) && i < |d.session.value.rows|
    ensures var e := AdvanceDevice(d);
            && StoreOk(s, e) && MovesForward(d, e) && e.pending == d.pending
            && e.session.Some? && SessionOk(s, e, e.session.value)
  {
    var ss, e := d.session.value, AdvanceDevice(d);
    ApplyKeepsSession(s, d, ss, i);
    SessionOfSameStore(s, if ss.rows[i].present then ApplyRow(d, ss.rows[i]) else d, e, e.session.value);
  }

  lemma ApplyStepKeepsInv(s: System, k: nat, i: nat)
    requires Inv(s) && k < |s.devices| && s.devices[k].session.Some?
    requires s.devices[k].session.value.phase == Applying(i) && i < |s.devices[k].session.value.rows|
    ensures Inv(Do(s, Advance(k)))
  {
    assert DeviceOk(s, k);
    var t := Do(s, Advance(k));
    ApplyStepKeepsSession(s, s.devices[k], i);
    AdvanceKeepsPending(s, k, t.devices[k]);
    OneDeviceChanged(s, t, k);
  }

  lemma RevokedAllKeepsInv(s: System, k: nat)
    requires Inv(s) && k < |s.devices| && s.devices[k].session.Some?
    requires s.devices[k].session.value.phase == Revoking(|s.devices[k].session.value.rows|)
    ensures Inv(Do(s, Advance(k)))
  {
    assert DeviceOk(s, k);
    var d := s.devices[k];
    var ss := d.session.value;
    var t := Do(s, Advance(k));
    if NoDuplicates(ss.rows) {
      StartApplying(s, d, ss);
      SessionOfSameStore(s, d, t.devices[k], t.devices[k].session.value);
    }
    SameStoreChanged(s, t, k);
  }

  lemma AdvanceKeepsInv(s: System, k: nat)
    requires Inv(s) && k < |s.devices|
    ensures Inv(Do(s, Advance(k)))
  {
    assert DeviceOk(s, k);
    if s.devices[k].session.Some? {
      var ss := s.devices[k].session.value;
      match ss.phase {
        case Downloading => SameStoreChanged(s, Do(s, Advance(k)), k);
        case Revoking(i) =>
          if i < |ss.rows| {
            RevokeStepKeepsInv(s, k, i);
          } else {
            RevokedAllKeepsInv(s, k);
          }
        case FailedRevoking(i) =>
          if i < |ss.rows| {
            FailureStepKeepsInv(s, Do(s, Advance(k)), k, i, !ss.rows[i].present);
          } else {
            SameStoreChanged(s, Do(s, Advance(k)), k);
          }
        case Applying(i) =>
          if i < |ss.rows| {
            ApplyStepKeepsInv(s, k, i);
          } else {
            FinishKeepsInv(s, k);
          }
      }
    }
  }

  lemma AdvanceKeepsPending(s: System, k: nat, e: Device)
    requires Inv(s) && k < |s.devices| && MovesForward(s.devices[k], e) && e.pending == s.devices[k].pending
    ensures e.pending.Some? ==> MayAck(s, e, e.pending.value)
  {
    assert DeviceOk(s, k);
    if e.pending.Some? {
      MayAckStays(s, s.devices[k], s, e, e.pending.value);
    }
  }

  lemma StartApplying(s: System, d: Device, ss: Session)
    requires SessionOk(s, d, ss) && ss.phase == Revoking(|ss.rows|) && NoDuplicates(ss.rows)
    ensures SessionOk(s, d, ss.(phase := Applying(0)))
  {
    var tt := ss.(phase := Applying(0));
    forall w: nat | w < tt.known ensures Covered(s, tt, w) {
      assert Covered(s, ss, w);
    }
    forall j | 0 <= j < |ss.rows| ensures NotOlder(d, ss.rows[j]) {
      assert NotOlderUnless(d, ss.rows, j);
    }
  }

  lemma FinishKeepsInv(s: System, k: nat)
    requires Inv(s) && k < |s.devices| && s.devices[k].session.Some?
    requires s.devices[k].session.value.phase == Applying(|s.devices[k].session.value.rows|)
    ensures Inv(Do(s, Advance(k)))
  {
    assert DeviceOk(s, k);
    var d := s.devices[k];
    var ss := d.session.value;
    AppliedIsCertified(s, d, ss);
    var e := Do(s, Advance(k)).devices[k];
    CertifiedStays(s, d.(local := e.local), s, e, ss.issuedAt);
    if ss.receipt in s.server.receipts && s.server.receipts[ss.receipt].sequence.Some? {
      CertifiedBelow(s, e, ss.issuedAt, s.server.receipts[ss.receipt].sequence.value);
    }
    OneDeviceChanged(s, Do(s, Advance(k)), k);
  }

  // ----- acknowledgements -----

  lemma SendAckKeepsDevice(s: System, k: nat, i: nat)
    requires Inv(s) && k < |s.devices| && i < |s.devices|
    ensures var t := Do(s, SendAck(k)); |t.devices| == |s.devices| && DeviceOk(t, i)
  {
    var t := Do(s, SendAck(k));
    assert DeviceOk(s, i);
    var d := s.devices[i];
    StoreStays(s, d, t);
    if d.session.Some? {
      SessionStays(s, d, t, d.session.value);
    }
    if d.pending.Some? {
      MayAckStays(s, d, t, d, d.pending.value);
    }
    forall r: nat | (i, r) in t.acks ensures MayAck(t, d, r) {
      MayAckStays(s, d, t, d, r);
    }
    if s.server.kiosks[i].applied.Some? {
      CertifiedStays(s, d, t, d, s.server.kiosks[i].applied.value);
    }
  }

  lemma SendAckKeepsInv(s: System, k: nat)
    requires Inv(s) && k < |s.devices|
    ensures Inv(Do(s, SendAck(k)))
  {
    var t := Do(s, SendAck(k));
    forall w: nat | w < |t.server.workers| ensures RowOk(t, w) {
      assert RowOk(s, w);
    }
    forall i: nat | i < |t.devices| ensures DeviceOk(t, i) {
      SendAckKeepsDevice(s, k, i);
    }
  }

  lemma AcknowledgeKeepsDevice(s: System, k: nat, r: nat, clockAllows: bool)
    requires Inv(s) && k < |s.devices| && (k, r) in s.acks
    ensures var t := s.(server := Acknowledge(s.server, k, r, clockAllows).0);
            Extends(s, t) && Shaped(t) && DeviceOk(t, k)
  {
    var t := s.(server := Acknowledge(s.server, k, r, clockAllows).0);
    assert DeviceOk(s, k);
    assert MayAck(s, s.devices[k], r);
    var u := t.(server := t.server.(kiosks := s.server.kiosks));
    DeviceStays(s, u, k);
    KioskChanged(u, t, k);
  }

  lemma AcknowledgeKeepsInv(s: System, k: nat, r: nat, clockAllows: bool)
    requires Inv(s) && k < |s.devices| && (k, r) in s.acks
    ensures Inv(s.(server := Acknowledge(s.server, k, r, clockAllows).0))
  {
    var t := s.(server := Acknowledge(s.server, k, r, clockAllows).0);
    AcknowledgeKeepsDevice(s, k, r, clockAllows);
    forall w: nat | w < |t.server.workers| ensures RowOk(t, w) {
      assert RowOk(s, w);
    }
    forall i: nat | i < |t.devices| && i != k ensures DeviceOk(t, i) {
      assert DeviceOk(s, i);
      DeviceStays(s, t, i);
    }
  }

  /** Only the applied sequence of kiosk `k` differs, and it is certified. */
  lemma KioskChanged(s: System, t: System, k: nat)
    requires Shaped(s) && Shaped(t) && k < |s.devices| && DeviceOk(s, k)
    requires t == s.(server := s.server.(kiosks := t.server.kiosks))
    requires t.server.kiosks[k].applied.Some? ==> Certified(s, s.devices[k], t.server.kiosks[k].applied.value)
    ensures DeviceOk(t, k)
  {
    var d := s.devices[k];
    StoreStays(s, d, t);
    if d.session.Some? {
      SessionStays(s, d, t, d.session.value);
    }
    if d.pending.Some? {
      MayAckStays(s, d, t, d, d.pending.value);
    }
    forall r: nat | (k, r) in s.acks ensures MayAck(t, d, r) {
      MayAckStays(s, d, t, d, r);
    }
    if t.server.kiosks[k].applied.Some? {
      CertifiedStays(s, d, t, d, t.server.kiosks[k].applied.value);
    }
  }

  lemma DeliverAckKeepsInv(s: System, k: nat, r: nat, clockAllows: bool, answered: bool)
    requires Inv(s) && k < |s.devices|
    ensures Inv(Do(s, DeliverAck(k, r, clockAllows, answered)))
  {
    if (k, r) in s.acks {
      var (server, acknowledged) := Acknowledge(s.server, k, r, clockAllows);
      var t := s.(server := server);
      AcknowledgeKeepsInv(s, k, r, clockAllows);
      if acknowledged && answered && s.devices[k].pending == Some(r) {
        var e := s.devices[k].(pending := None);
        assert DeviceOk(t, k);
        if e.session.Some? {
          SessionOfSameStore(t, t.devices[k], e, e.session.value);
        }
        OneDeviceChanged(t, WithDevice(t, k, e), k);
      }
    }
  }

  lemma CredentialKeepsInv(s: System, k: nat, hasCredential: bool)
    requires Inv(s) && k < |s.devices|
    ensures Inv(Do(s, SetCredential(k, hasCredential)))
  {
    var t := Do(s, SetCredential(k, hasCredential));
    forall w: nat | w < |t.server.workers| ensures RowOk(t, w) {
      assert RowOk(s, w);
    }
    forall i: nat | i < |t.devices| ensures DeviceOk(t, i) {
      assert DeviceOk(s, i);
      DeviceStays(s, t, i);
    }
  }

  // ----- every run -----

  lemma StepKeepsInv(s: System, step: Step)
    requires Inv(s)
    ensures Inv(Do(s, step))
  {
    match step
    case Write(fields, id) =>
      if id.Some? ==> id.value < |s.server.workers| { CommitKeepsInv(s, fields, id, false); }
    case Remove(w) =>
      if w < |s.server.workers| { CommitKeepsInv(s, Fields(Some(false), None), Some(w), false); }
    case Purge(w) =>
      if w < |s.server.workers| { CommitKeepsInv(s, Fields(Some(false), Some(false)), Some(w), true); }
    case Backfill => CommitAllKeepsInv(s, BackfillIds(s.server));
    case SetCredential(k, hasCredential) =>
      if k < |s.devices| { CredentialKeepsInv(s, k, hasCredential); }
    case Issue(k) => if k < |s.devices| { IssueKeepsInv(s, k); }
    case Start(k, forceFull) => if k < |s.devices| { StartKeepsInv(s, k, forceFull); }
    case ReadPage(k, settled) => if k < |s.devices| { ReadPageKeepsInv(s, k, settled); }
    case Deliver(k) => if k < |s.devices| { DeliverKeepsInv(s, k); }
    case Lose(k) => if k < |s.devices| { DeliverKeepsInv(s, k); }
    case Advance(k) => if k < |s.devices| { AdvanceKeepsInv(s, k); }
    case FailRevocation(k, deleted) => if k < |s.devices| { FailRevocationKeepsInv(s, k, deleted); }
    case SendAck(k) => if k < |s.devices| { SendAckKeepsInv(s, k); }
    case DeliverAck(k, r, clockAllows, answered) =>
      if k < |s.devices| { DeliverAckKeepsInv(s, k, r, clockAllows, answered); }
  }

  lemma {:induction false} RunKeepsInv(start: System, steps: seq<Step>)
    requires Upgraded(start)
    ensures Inv(Run(start, steps))
  {
    if steps == [] {
      UpgradedIsOk(start);
    } else {
      RunKeepsInv(start, steps[..|steps| - 1]);
      StepKeepsInv(Run(start, steps[..|steps| - 1]), steps[|steps| - 1]);
    }
  }

  /** In every interleaving, a kiosk that has reported sequence `n` holds, for each worker, a
      version at least as new as the worker's last write up to `n`, and stores exactly what that
      version says. */
  lemma RosterCertification(start: System, steps: seq<Step>, k: nat, w: nat)
    requires Upgraded(start) && k < |start.devices|
    requires Run(start, steps).server.kiosks[k].applied.Some?
    ensures var s := Run(start, steps);
            var d := s.devices[k];
            var n := s.server.kiosks[k].applied.value;
            && n <= |s.log|
            && (LastWrite(s.log, n, w) > 0 || w < |s.legacy| ==>
                 w in d.versions && LastWrite(s.log, n, w) <= d.versions[w])
            && (w in d.versions ==> (w in d.local <==> PresentAt(s, w, d.versions[w])))
            && (w in d.local ==> w in d.versions)
  {
    RunKeepsInv(start, steps);
    CertificationHolds(Run(start, steps), k, w);
  }

  lemma CertificationHolds(s: System, k: nat, w: nat)
    requires Inv(s) && k < |s.devices| && s.server.kiosks[k].applied.Some?
    ensures var d := s.devices[k];
            var n := s.server.kiosks[k].applied.value;
            && n <= |s.log|
            && (LastWrite(s.log, n, w) > 0 || w < |s.legacy| ==>
                 w in d.versions && LastWrite(s.log, n, w) <= d.versions[w])
            && (w in d.versions ==>
                 IsVersion(s, w, d.versions[w]) && (w in d.local <==> PresentAt(s, w, d.versions[w])))
            && (w in d.local ==> w in d.versions)
  {
    assert DeviceOk(s, k);
    if w < |s.legacy| {
      assert Holds(s.devices[k], w, 0);
    }
    if LastWrite(s.log, s.server.kiosks[k].applied.value, w) > 0 {
      assert Holds(s.devices[k], w, LastWrite(s.log, s.server.kiosks[k].applied.value, w));
    }
  }

  /** A kiosk without a pending purge has reported a sequence at or after every purge. */
  lemma PurgesAreReported(s: System, k: nat, i: nat)
    requires Inv(s) && k < |s.devices| && i < |s.log| && s.log[i].purge && !PurgePending(s.server, k)
    ensures s.server.kiosks[k].applied.Some? && i < s.server.kiosks[k].applied.value && !s.log[i].present
  {
  }

  lemma PurgedIsGone(s: System, k: nat, i: nat)
    requires Inv(s) && k < |s.devices| && i < |s.log| && s.log[i].purge && !PurgePending(s.server, k)
    ensures var w := s.log[i].worker;
            w in s.devices[k].local ==>
              w in s.devices[k].versions && i + 1 < s.devices[k].versions[w] <= |s.log| &&
              s.log[s.devices[k].versions[w] - 1] == Commit(w, true, false)
  {
    var w, d := s.log[i].worker, s.devices[k];
    PurgesAreReported(s, k, i);
    CertificationHolds(s, k, w);
    var n := s.server.kiosks[k].applied.value;
    assert i + 1 <= LastWrite(s.log, n, w) by {
      assert s.log[i].worker == w && i < n;
    }
    if w in d.local {
      LaterWriteIsPresent(s, w, i, d.versions[w]);
    }
  }

  lemma LaterWriteIsPresent(s: System, w: nat, i: nat, version: nat)
    requires Inv(s) && i < |s.log| && s.log[i].purge && s.log[i].worker == w
    requires i + 1 <= version && IsVersion(s, w, version) && PresentAt(s, w, version)
    ensures i + 1 < version <= |s.log| && s.log[version - 1] == Commit(w, true, false)
  {
    assert s.log[version - 1].present && s.log[version - 1].worker == w;
  }

  /** When the portal no longer shows a purge as pending for a kiosk, the kiosk stores no
      template from before a purge of that worker: what it stores came with a later write. */
  lemma NoPurgedTemplateRemains(start: System, steps: seq<Step>, k: nat, i: nat)
    requires Upgraded(start) && k < |start.devices|
    requires i < |Run(start, steps).log| && Run(start, steps).log[i].purge
    requires !PurgePending(Run(start, steps).server, k)
    ensures var s := Run(start, steps);
            var w := s.log[i].worker;
            w in s.devices[k].local ==>
              w in s.devices[k].versions && i + 1 < s.devices[k].versions[w] <= |s.log| &&
              s.log[s.devices[k].versions[w] - 1] == Commit(w, true, false)
  {
    RunKeepsInv(start, steps);
    PurgedIsGone(Run(start, steps), k, i);
  }

  /** Purges from before sequences existed are certified too: once nothing is pending, a stored
      template of a worker whose data had been purged by then came with a later write. */
  lemma NoLegacyPurgedTemplateRemains(start: System, steps: seq<Step>, k: nat, w: nat)
    requires Upgraded(start) && k < |start.devices| && start.server.legacyPurge
    requires w < |start.legacy| && !start.legacy[w]
    requires !PurgePending(Run(start, steps).server, k)
    ensures var s := Run(start, steps);
            w in s.devices[k].local ==>
              w in s.devices[k].versions && 0 < s.devices[k].versions[w] <= |s.log| &&
              s.log[s.devices[k].versions[w] - 1].worker == w && s.log[s.devices[k].versions[w] - 1].present
  {
    RunKeepsInv(start, steps);
    LegacyIsFixed(start, steps);
    LegacyPurgedIsGone(Run(start, steps), k, w);
  }

  lemma LegacyPurgedIsGone(s: System, k: nat, w: nat)
    requires Inv(s) && k < |s.devices| && s.server.legacyPurge && !PurgePending(s.server, k)
    requires w < |s.legacy| && !s.legacy[w]
    ensures w in s.devices[k].local ==>
              w in s.devices[k].versions && 0 < s.devices[k].versions[w] <= |s.log| &&
              s.log[s.devices[k].versions[w] - 1].worker == w && s.log[s.devices[k].versions[w] - 1].present
  {
    CertificationHolds(s, k, w);
  }

  lemma {:induction false} LegacyIsFixed(start: System, steps: seq<Step>)
    requires Shaped(start)
    ensures Run(start, steps).legacy == start.legacy
    ensures Run(start, steps).server.legacyPurge == start.server.legacyPurge
  {
    if steps != [] {
      LegacyIsFixed(start, steps[..|steps| - 1]);
      var s := Run(start, steps[..|steps| - 1]);
      if steps[|steps| - 1] == Backfill {
        CommitAllKeepsLegacy(s, BackfillIds(s.server));
      }
    }
  }

  lemma {:induction false} CommitAllKeepsLegacy(s: System, ids: seq<nat>)
    requires forall i :: 0 <= i < |ids| ==> ids[i] < |s.server.workers|
    ensures CommitAll(s, ids).legacy == s.legacy
    ensures CommitAll(s, ids).server.legacyPurge == s.server.legacyPurge
    decreases |ids|
  {
    if ids != [] {
      CommitAllKeepsLegacy(s, ids[..|ids| - 1]);
    }
  }

  /** However writes and backfills race with the pages, a finished download contains some version
      of every worker written after `since` and no later than the issue of the receipt, and of
      every worker when no `since` was given.  A row without a sequence at that moment is either
      contained too or has meanwhile received a sequence that only a later receipt covers. */
  lemma PagingIsComplete(start: System, steps: seq<Step>, k: nat, w: nat)
    requires Upgraded(start) && k < |start.devices|
    requires Run(start, steps).devices[k].session.Some?
    requires Run(start, steps).devices[k].session.value.cursor.Complete?
    requires w < Run(start, steps).devices[k].session.value.known
    ensures var s := Run(start, steps);
            var ss := s.devices[k].session.value;
            && ss.issuedAt <= |s.log|
            && (ss.since == None || LastWrite(s.log, ss.issuedAt, w) > ss.since.value ==>
                 exists j :: 0 <= j < |ss.rows| && ss.rows[j].id == w &&
                   LastWrite(s.log, ss.issuedAt, w) <= ss.rows[j].version)
            && (LastWrite(s.log, ss.issuedAt, w) == 0 ==>
                 (exists j :: 0 <= j < |ss.rows| && ss.rows[j].id == w) ||
                 LastWrite(s.log, |s.log|, w) > ss.issuedAt)
  {
    RunKeepsInv(start, steps);
    var s := Run(start, steps);
    assert DeviceOk(s, k);
    assert Covered(s, s.devices[k].session.value, w);
  }
}
