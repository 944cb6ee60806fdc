/** Roster replication as a state machine: server transactions, paged downloads that race with
    them, kiosks that apply rows one at a time, and a network that loses, delays and repeats. */
module RosterProtocol {
  import opened Options
  import opened RosterServer

  const PAGE_SIZE := 200

  /** One committed roster write; the commit at position `i` carries sequence `i + 1`. */
  datatype Commit = Commit(worker: nat, present: bool, purge: bool)

  /** A row of a sync response.  Its version is the row's sequence, 0 for a row without one. */
  datatype Row = Row(id: nat, version: nat, present: bool)

  datatype Cursor = FullScan(next: nat) | Updated(after: nat) | Legacy(next: nat) | Complete

  /** After a failed revocation the later ones are still made, and then the sync gives up. */
  datatype Phase = Downloading | Revoking(i: nat) | FailedRevoking(i: nat) | Applying(i: nat)

  /** A sync in progress.  `issuedAt` and `known` record the roster when its receipt was handed out. */
  datatype Session = Session(
    receipt: nat, since: Option<nat>, cursor: Cursor, rows: seq<Row>, phase: Phase,
    issuedAt: nat, known: nat)

  /** A kiosk's own store: the templates it holds and the version each was last brought to. */
  datatype Device = Device(local: set<nat>, versions: map<nat, nat>, session: Option<Session>, pending: Option<nat>)

  /** `legacy` tells which rows held a template when sequences were introduced. */
  datatype System = System(
    server: Server, log: seq<Commit>, legacy: seq<bool>, devices: seq<Device>, acks: set<(nat, nat)>)

  datatype Step =
    | Write(fields: Fields, id: Option<nat>)
    | Remove(w: nat)
    | Purge(w: nat)
    | Backfill
    | SetCredential(k: nat, hasCredential: bool)
    | Issue(k: nat)
    | Start(k: nat, forceFull: bool)
    | ReadPage(k: nat, settled: bool)
    | Deliver(k: nat)
    | Lose(k: nat)
    | Advance(k: nat)
    | FailRevocation(k: nat, deleted: bool)
    | SendAck(k: nat)
    | DeliverAck(k: nat, r: nat, clockAllows: bool, answered: bool)

  // ----- server writes -----

  /** Commit one write and record it, or leave everything as it is when the sequence is exhausted. */
  function CommitWrite(s: System, fields: Fields, id: Option<nat>, purge: bool): System
    requires id.Some? ==> id.value < |s.server.workers|
  {
    match WriteRosterWorker(s.server, fields, id, purge)
    case None => s
    case Some(server) =>
      var w := match id case Some(v) => v case None => |s.server.workers|;
      s.(server := server, log := s.log + [Commit(w, server.workers[w].Present(), purge)])
  }

  function CommitAll(s: System, ids: seq<nat>): (r: System)
    requires forall i :: 0 <= i < |ids| ==> ids[i] < |s.server.workers|
    ensures |r.server.workers| == |s.server.workers|
    decreases |ids|
  {
    if ids == [] then s
    else CommitWrite(CommitAll(s, ids[..|ids| - 1]), Fields(None, None), Some(ids[|ids| - 1]), false)
  }

  // ----- pages -----

  function FindSequence(workers: seq<WorkerRow>, q: nat): (r: Option<nat>)
    ensures r.Some? ==> r.value < |workers| && workers[r.value].sequence == Some(q)
    ensures r == None ==> forall w: nat :: w < |workers| ==> workers[w].sequence != Some(q)
  {
    if workers == [] then None
    else if workers[|workers| - 1].sequence == Some(q) then Some(|workers| - 1)
    else FindSequence(workers[..|workers| - 1], q)
  }

  /** The first `limit` rows whose sequence is at least `q`, in sequence order. */
  function UpdatedIds(workers: seq<WorkerRow>, q: nat, counter: nat, limit: nat): (ids: seq<nat>)
    ensures |ids| <= limit
    ensures forall i :: 0 <= i < |ids| ==> ids[i] < |workers| && workers[ids[i]].sequence.Some?
    ensures forall i :: 0 <= i < |ids| ==> q <= workers[ids[i]].sequence.value <= counter
    decreases counter + 1 - q
  {
    if q > counter || limit == 0 then []
    else match FindSequence(workers, q)
      case Some(w) => [w] + UpdatedIds(workers, q + 1, counter, limit - 1)
      case None => UpdatedIds(workers, q + 1, counter, limit)
  }

  /** The first `limit` rows from position `i` on that have no sequence. */
  function LegacyIds(workers: seq<WorkerRow>, i: nat, limit: nat): (ids: seq<nat>)
    ensures |ids| <= limit
    ensures forall j :: 0 <= j < |ids| ==> i <= ids[j] < |workers| && workers[ids[j]].sequence == None
    decreases |workers| - i
  {
    if i >= |workers| || limit == 0 then []
    else if workers[i].sequence == None then [i] + LegacyIds(workers, i + 1, limit - 1)
    else LegacyIds(workers, i + 1, limit)
  }

  function FullIds(next: nat, limit: nat): (ids: seq<nat>)
    ensures |ids| == limit && forall j :: 0 <= j < |ids| ==> ids[j] == next + j
  {
    seq(limit, j requires 0 <= j => next + j)
  }

  function ReadRow(workers: seq<WorkerRow>, w: nat): Row
    requires w < |workers|
  {
    Row(w, workers[w].sequence.GetOr(0), workers[w].Present())
  }

  function ReadRows(workers: seq<WorkerRow>, ids: seq<nat>): (rows: seq<Row>)
    requires forall i :: 0 <= i < |ids| ==> ids[i] < |workers|
    ensures |rows| == |ids| && forall i :: 0 <= i < |ids| ==> rows[i] == ReadRow(workers, ids[i])
  {
    seq(|ids|, i requires 0 <= i < |ids| => ReadRow(workers, ids[i]))
  }

  /** Read one page from the current snapshot.  An exhausted query may still ask for another page. */
  function NextPage(server: Server, ss: Session, settled: bool): Session
    requires ss.cursor.FullScan? ==> ss.cursor.next <= |server.workers|
  {
    var workers := server.workers;
    match ss.cursor
    case FullScan(next) =>
      var limit := if next + PAGE_SIZE <= |workers| then PAGE_SIZE else |workers| - next;
      ss.(rows := ss.rows + ReadRows(workers, FullIds(next, limit)),
          cursor := if settled && next + limit == |workers| then Complete else FullScan(next + limit))
    case Updated(after) =>
      var ids := UpdatedIds(workers, after + 1, server.counter, PAGE_SIZE);
      ss.(rows := ss.rows + ReadRows(workers, ids),
          cursor := if settled && |ids| < PAGE_SIZE then Legacy(0)
                    else Updated(if ids == [] then after else workers[ids[|ids| - 1]].sequence.value))
    case Legacy(next) =>
      var ids := LegacyIds(workers, next, PAGE_SIZE);
      ss.(rows := ss.rows + ReadRows(workers, ids),
          cursor := if settled && |ids| < PAGE_SIZE then Complete
                    else Legacy(if ids == [] then next else ids[|ids| - 1] + 1))
    case Complete => ss
  }

  // ----- applying a response -----

  function ApplyRow(d: Device, row: Row): Device {
    d.(local := if row.present then d.local + {row.id} else d.local - {row.id},
       versions := d.versions[row.id := row.version])
  }

  predicate NoDuplicates(rows: seq<Row>) {
    forall i, j :: 0 <= i < j < |rows| ==> rows[i].id != rows[j].id
  }

  function RowIds(rows: seq<Row>): set<nat> {
    set i | 0 <= i < |rows| :: rows[i].id
  }

  /** One durable step of applying a response: revocations first, then the validated rows, then
      the removal of strangers to a full roster together with the pending receipt. */
  function AdvanceDevice(d: Device): Device
    requires d.session.Some?
  {
    var ss := d.session.value;
    match ss.phase
    case Downloading => d
    case Revoking(i) =>
      if i < |ss.rows| then
        var e := if ss.rows[i].present then d else ApplyRow(d, ss.rows[i]);
        e.(session := Some(ss.(phase := Revoking(i + 1))))
      else if NoDuplicates(ss.rows) then d.(session := Some(ss.(phase := Applying(0))))
      else d.(session := None)
    case FailedRevoking(i) =>
      if i < |ss.rows| then
        var e := if ss.rows[i].present then d else ApplyRow(d, ss.rows[i]);
        e.(session := Some(ss.(phase := FailedRevoking(i + 1))))
      else d.(session := None)
    case Applying(i) =>
      if i < |ss.rows| then
        var e := if ss.rows[i].present then ApplyRow(d, ss.rows[i]) else d;
        e.(session := Some(ss.(phase := Applying(i + 1))))
      else
        var kept := if ss.since == None then d.local * RowIds(ss.rows) else d.local;
        d.(local := kept, pending := Some(ss.receipt), session := None)
  }

  /** A revocation that raises an error.  The template may be deleted already, when only the
      cleanup of its photos failed. */
  function FailDevice(d: Device, deleted: bool): Device
    requires d.session.Some?
  {
    var ss := d.session.value;
    if ss.phase.Downloading? || ss.phase.Applying? || ss.phase.i >= |ss.rows| || ss.rows[ss.phase.i].present then d
    else
      var e := if deleted then ApplyRow(d, ss.rows[ss.phase.i]) else d;
      e.(session := Some(ss.(phase := FailedRevoking(ss.phase.i + 1))))
  }

  // ----- the transition function -----

  function WithDevice(s: System, k: nat, d: Device): System
    requires k < |s.devices|
  {
    s.(devices := s.devices[k := d])
  }

  /** Steps that do not apply leave the system unchanged. */
  function Do(s: System, step: Step): System
    requires |s.server.kiosks| == |s.devices|
  {
    match step
    case Write(fields, id) =>
      if id.Some? && id.value >= |s.server.workers| then s else CommitWrite(s, fields, id, false)
    case Remove(w) =>
      if w >= |s.server.workers| || !s.server.workers[w].active then s
      else CommitWrite(s, Fields(Some(false), None), Some(w), false)
    case Purge(w) =>
      if w >= |s.server.workers| then s else CommitWrite(s, Fields(Some(false), Some(false)), Some(w), true)
    case Backfill => CommitAll(s, BackfillIds(s.server))
    case SetCredential(k, hasCredential) =>
      if k >= |s.devices| then s
      else
        var kiosks := s.server.kiosks[k := s.server.kiosks[k].(hasCredential := hasCredential)];
        s.(server := s.server.(kiosks := kiosks))
    case Issue(k) =>
      if k >= |s.devices| then s else s.(server := IssueRosterReceipt(s.server, k).0)
    case Start(k, forceFull) =>
      if k >= |s.devices| then s
      else
        var (server, issued) := IssueRosterReceipt(s.server, k);
        var t := s.(server := server);
        if issued == None then t
        else
          var since := if forceFull then None else issued.value.since;
          var cursor := if since == None then FullScan(0) else Updated(since.value);
          var ss := Session(issued.value.receipt, since, cursor, [], Downloading, |s.log|, |s.server.workers|);
          WithDevice(t, k, s.devices[k].(session := Some(ss)))
    case ReadPage(k, settled) =>
      if k >= |s.devices| || s.devices[k].session == None then s
      else
        var ss := s.devices[k].session.value;
        if !ss.phase.Downloading? || (ss.cursor.FullScan? && ss.cursor.next > |s.server.workers|) then s
        else WithDevice(s, k, s.devices[k].(session := Some(NextPage(s.server, ss, settled))))
    case Deliver(k) =>
      if k >= |s.devices| || s.devices[k].session == None then s
      else
        var ss := s.devices[k].session.value;
        if !ss.phase.Downloading? || !ss.cursor.Complete? then s
        else WithDevice(s, k, s.devices[k].(session := Some(ss.(phase := Revoking(0)))))
    case Lose(k) =>
      if k >= |s.devices| then s else WithDevice(s, k, s.devices[k].(session := None))
    case Advance(k) =>
      if k >= |s.devices| || s.devices[k].session == None then s
      else WithDevice(s, k, AdvanceDevice(s.devices[k]))
    case FailRevocation(k, deleted) =>
      if k >= |s.devices| || s.devices[k].session == None then s
      else WithDevice(s, k, FailDevice(s.devices[k], deleted))
    case SendAck(k) =>
      if k >= |s.devices| || s.devices[k].pending == None then s
      else s.(acks := s.acks + {(k, s.devices[k].pending.value)})
    case DeliverAck(k, r, clockAllows, answered) =>
      if k >= |s.devices| || (k, r) !in s.acks then s
      else
        var (server, acknowledged) := Acknowledge(s.server, k, r, clockAllows);
        var t := s.(server := server);
        if acknowledged && answered && s.devices[k].pending == Some(r)
        then WithDevice(t, k, s.devices[k].(pending := None)) else t
  }

  ghost predicate Shaped(s: System) {
    |s.server.kiosks| == |s.devices|
  }

  lemma DoKeepsShape(s: System, step: Step)
    requires Shaped(s)
    ensures Shaped(Do(s, step)) && |Do(s, step).devices| == |s.devices|
  {
    if step == Backfill {
      CommitAllKeepsDevices(s, BackfillIds(s.server));
    }
  }

  lemma {:induction false} CommitAllKeepsDevices(s: System, ids: seq<nat>)
    requires forall i :: 0 <= i < |ids| ==> ids[i] < |s.server.workers|
    ensures CommitAll(s, ids).devices == s.devices && CommitAll(s, ids).server.kiosks == s.server.kiosks
    decreases |ids|
  {
    if ids != [] {
      CommitAllKeepsDevices(s, ids[..|ids| - 1]);
    }
  }

  ghost function Run(s: System, steps: seq<Step>): (r: System)
    requires Shaped(s)
    ensures Shaped(r) && |r.devices| == |s.devices|
  {
    if steps == [] then s
    else
      var t := Run(s, steps[..|steps| - 1]);
      DoKeepsShape(t, steps[|steps| - 1]);
      Do(t, steps[|steps| - 1])
  }
}
