/** The kiosk's attendance log: identity snapshots, clock inference and retention. */
module KioskLog {
  import opened Options
  import opened Events

  const PRUNE_BATCH := 100

  datatype KioskType = Entry | Exit | Auto

  /** `server` is the identity captured with the event; an unreadable timestamp has no epoch. */
  datatype LogRow = LogRow(worker: nat, server: Option<nat>, action: EventType, epoch: Option<real>, synced: bool)

  /** `workers` maps a local id to its server identity.  Neither kind of id is ever reused.
      `rejected` names the log rows with an active rejection. */
  datatype Kiosk = Kiosk(
    logs: map<nat, LogRow>, nextLog: nat,
    workers: map<nat, Option<nat>>, nextWorker: nat,
    rejected: set<nat>)

  // ----- the last recorded event -----

  function LastByWorker(logs: map<nat, LogRow>, n: nat, w: nat): (r: Option<nat>)
    ensures r.Some? ==> r.value < n && r.value in logs && logs[r.value].worker == w
    ensures forall i :: (if r.Some? then r.value + 1 else 0) <= i < n && i in logs ==> logs[i].worker != w
  {
    if n == 0 then None
    else if n - 1 in logs && logs[n - 1].worker == w then Some(n - 1)
    else LastByWorker(logs, n - 1, w)
  }

  function LastByServer(logs: map<nat, LogRow>, n: nat, server: nat): (r: Option<nat>)
    ensures r.Some? ==> r.value < n && r.value in logs && logs[r.value].server == Some(server)
    ensures forall i :: (if r.Some? then r.value + 1 else 0) <= i < n && i in logs ==> logs[i].server != Some(server)
  {
    if n == 0 then None
    else if n - 1 in logs && logs[n - 1].server == Some(server) then Some(n - 1)
    else LastByServer(logs, n - 1, server)
  }

  function ServerOf(k: Kiosk, w: nat): Option<nat> {
    if w in k.workers then k.workers[w] else None
  }

  /** The greater of the newest event under this local id and the newest one of its identity. */
  function LastAttendance(k: Kiosk, w: nat): (r: Option<nat>)
    ensures r.Some? ==> r.value in k.logs
  {
    var own := LastByWorker(k.logs, k.nextLog, w);
    match ServerOf(k, w)
    case None => own
    case Some(server) =>
      var restored := LastByServer(k.logs, k.nextLog, server);
      if own == None || (restored.Some? && own.value < restored.value) then restored else own
  }

  // ----- what the last event decides -----

  datatype Inference = Inferred(action: EventType) | InvalidTimestamp

  function InferClockAction(k: Kiosk, kind: KioskType, w: nat, scan: Option<real>, staleHours: real): Inference {
    match kind
    case Entry => Inferred(ClockIn)
    case Exit => Inferred(ClockOut)
    case Auto =>
      var last := LastAttendance(k, w);
      if scan == None then InvalidTimestamp
      else if last == None || k.logs[last.value].epoch == None then Inferred(ClockIn)
      else
        var row := k.logs[last.value];
        if row.action != ClockIn then Inferred(ClockIn)
        else if scan.value - row.epoch.value > staleHours * 3600.0 then Inferred(ClockIn)
        else Inferred(ClockOut)
  }

  function WasRecentlyClocked(k: Kiosk, w: nat, now: real, minutes: real): bool {
    var last := LastAttendance(k, w);
    last.Some? && k.logs[last.value].epoch.Some? &&
    0.0 <= now - k.logs[last.value].epoch.value <= minutes * 60.0
  }

  // ----- transactions -----

  function FindByServer(workers: map<nat, Option<nat>>, n: nat, server: nat): (r: Option<nat>)
    ensures r.Some? ==> r.value < n && r.value in workers && workers[r.value] == Some(server)
    ensures r == None ==> forall w: nat :: w < n && w in workers ==> workers[w] != Some(server)
  {
    if n == 0 then None
    else if n - 1 in workers && workers[n - 1] == Some(server) then Some(n - 1)
    else FindByServer(workers, n - 1, server)
  }

  /** The row an enrollment updates: the one with this server identity, else the local-only row
      that the name lookup found. */
  function FindUpdateRow(k: Kiosk, server: Option<nat>, nameMatch: Option<nat>): (r: Option<nat>)
    ensures r.Some? ==> r.value in k.workers
  {
    var byServer := if server.Some? then FindByServer(k.workers, k.nextWorker, server.value) else None;
    if byServer.Some? then byServer
    else if nameMatch.Some? && nameMatch.value in k.workers && k.workers[nameMatch.value] == None then nameMatch
    else None
  }

  /** An update keeps a server identity the row already has unless a new one is supplied. */
  function AddWorker(k: Kiosk, server: Option<nat>, nameMatch: Option<nat>): Kiosk {
    match FindUpdateRow(k, server, nameMatch)
    case Some(w) => k.(workers := k.workers[w := if server.Some? then server else k.workers[w]])
    case None => k.(workers := k.workers[k.nextWorker := server], nextWorker := k.nextWorker + 1)
  }

  function Snapshot(row: LogRow, w: nat, server: Option<nat>): LogRow {
    if row.worker == w && row.server == None then row.(server := server) else row
  }

  /** Freeze the identity of `w` onto its rows that have no snapshot yet. */
  function FreezeIdentity(k: Kiosk, w: nat): Kiosk {
    k.(logs := map i | i in k.logs :: Snapshot(k.logs[i], w, ServerOf(k, w)))
  }

  /** The delete trigger fires before the row goes. */
  function DeleteWorker(k: Kiosk, w: nat): Kiosk {
    var frozen := FreezeIdentity(k, w);
    frozen.(workers := frozen.workers - {w})
  }

  /** Record an event of an enrolled worker, with its direction inferred unless one is given. */
  function LogAttendance(
    k: Kiosk, kind: KioskType, w: nat, action: Option<EventType>, scan: Option<real>, staleHours: real)
    : (Kiosk, Option<EventType>)
  {
    if w !in k.workers then (k, None)
    else
      var inferred := if action.Some? then Inferred(action.value) else InferClockAction(k, kind, w, scan, staleHours);
      match inferred
      case InvalidTimestamp => (k, None)
      case Inferred(a) =>
        (k.(logs := k.logs[k.nextLog := LogRow(w, k.workers[w], a, scan, false)], nextLog := k.nextLog + 1), Some(a))
  }

  function MarkSynced(k: Kiosk, ids: set<nat>): Kiosk {
    k.(logs := map i | i in k.logs :: if i in ids then k.logs[i].(synced := true) else k.logs[i])
  }

  /** Only an unsynced row can be quarantined. */
  function Reject(k: Kiosk, id: nat): Kiosk {
    if id in k.logs && !k.logs[id].synced then k.(rejected := k.rejected + {id}) else k
  }

  /** Releasing a rejection refreshes the row's epoch from its possibly repaired timestamp. */
  function Retry(k: Kiosk, id: nat, epoch: Option<real>): Kiosk {
    if id in k.rejected && id in k.logs
    then k.(logs := k.logs[id := k.logs[id].(epoch := epoch)], rejected := k.rejected - {id})
    else k
  }

  // ----- retention -----

  /** Where a row stands in (epoch, id) order. */
  datatype Position = Position(epoch: real, id: nat)

  predicate Before(a: Position, b: Position) {
    a.epoch < b.epoch || (a.epoch == b.epoch && a.id < b.id)
  }

  function PositionOf(k: Kiosk, i: nat): Position
    requires i in k.logs && k.logs[i].epoch.Some?
  {
    Position(k.logs[i].epoch.value, i)
  }

  predicate IsLastInserted(k: Kiosk, i: nat)
    requires i in k.logs
  {
    forall j | j in k.logs :: k.logs[j].worker == k.logs[i].worker ==> j <= i
  }

  predicate IsLatestInstant(k: Kiosk, i: nat)
    requires i in k.logs
  {
    k.logs[i].epoch.Some? &&
    forall j | j in k.logs :: k.logs[j].worker == k.logs[i].worker && k.logs[j].epoch.Some? && j != i ==>
      Before(PositionOf(k, j), PositionOf(k, i))
  }

  predicate IsCandidate(k: Kiosk, i: nat, cutoff: real) {
    i in k.logs && k.logs[i].synced && k.logs[i].epoch.Some? && k.logs[i].epoch.value < cutoff
  }

  /** Old synced rows that are neither quarantined nor needed to judge the worker's next scan. */
  predicate Deletable(k: Kiosk, i: nat, cutoff: real) {
    IsCandidate(k, i, cutoff) && !IsLatestInstant(k, i) && !IsLastInserted(k, i) && i !in k.rejected
  }

  function DeleteRows(k: Kiosk, candidates: set<nat>, cutoff: real): Kiosk {
    k.(logs := map i | i in k.logs && !(i in candidates && Deletable(k, i, cutoff)) :: k.logs[i])
  }

  lemma {:induction false} Subset(t: set<nat>, s: set<nat>)
    requires t < s
    ensures |t| < |s|
  {
    var x :| x in s && x !in t;
    if t == {} {
      assert |s| > 0;
    } else {
      var y :| y in t;
      Subset(t - {y}, s - {y});
    }
  }

  lemma {:induction false} LastInsertedSurvives(k: Kiosk, i: nat, s: set<nat>)
    requires i in k.logs && s == set j | j in k.logs && j > i && k.logs[j].worker == k.logs[i].worker
    ensures exists j :: j in k.logs && i <= j && k.logs[j].worker == k.logs[i].worker && IsLastInserted(k, j)
    decreases |s|
  {
    if !IsLastInserted(k, i) {
      var j :| j in k.logs && k.logs[j].worker == k.logs[i].worker && j > i;
      var t := set l | l in k.logs && l > j && k.logs[l].worker == k.logs[j].worker;
      assert t <= s && j in s && j !in t;
      Subset(t, s);
      LastInsertedSurvives(k, j, t);
    }
  }

  /** Some row of the same worker, this one or a later one, is the last inserted and never deleted. */
  lemma LastInsertedExists(k: Kiosk, i: nat)
    requires i in k.logs
    ensures exists j :: j in k.logs && i <= j && k.logs[j].worker == k.logs[i].worker && IsLastInserted(k, j)
  {
    LastInsertedSurvives(k, i, set j | j in k.logs && j > i && k.logs[j].worker == k.logs[i].worker);
  }

  /** The SQLite tables, updated in place. */
  class KioskStore {
    var logs: map<nat, LogRow>
    var nextLog: nat
    var workers: map<nat, Option<nat>>
    var nextWorker: nat
    var rejected: set<nat>

    function State(): Kiosk
      reads this
    {
      Kiosk(logs, nextLog, workers, nextWorker, rejected)
    }

    constructor (k: Kiosk)
      ensures State() == k
    {
      logs, nextLog, workers, nextWorker, rejected := k.logs, k.nextLog, k.workers, k.nextWorker, k.rejected;
    }

    method Enroll(server: Option<nat>, nameMatch: Option<nat>) returns (w: nat)
      modifies this`workers, this`nextWorker
      ensures State() == AddWorker(old(State()), server, nameMatch) && w in workers
    {
      var row := FindUpdateRow(State(), server, nameMatch);
      if row.Some? {
        w := row.value;
        workers := workers[w := if server.Some? then server else workers[w]];
      } else {
        w := nextWorker;
        workers := workers[w := server];
        nextWorker := nextWorker + 1;
      }
    }

    method Delete(w: nat)
      modifies this`logs, this`workers
      ensures State() == DeleteWorker(old(State()), w)
    {
      if w in workers && workers[w].Some? {
        logs := map i | i in logs :: Snapshot(logs[i], w, workers[w]);
      } else {
        assert logs == FreezeIdentity(State(), w).logs;
      }
      workers := workers - {w};
    }

    method Log(kind: KioskType, w: nat, action: Option<EventType>, scan: Option<real>, staleHours: real)
      returns (recorded: Option<EventType>)
      modifies this`logs, this`nextLog
      ensures (State(), recorded) == LogAttendance(old(State()), kind, w, action, scan, staleHours)
    {
      if w !in workers {
        return None;
      }
      var direction: EventType;
      if action.Some? {
        direction := action.value;
      } else {
        var inferred := InferClockAction(State(), kind, w, scan, staleHours);
        if inferred.InvalidTimestamp? {
          return None;
        }
        direction := inferred.action;
      }
      logs := logs[nextLog := LogRow(w, workers[w], direction, scan, false)];
      nextLog := nextLog + 1;
      recorded := Some(direction);
    }

    method RejectLog(id: nat) returns (ok: bool)
      modifies this`rejected
      ensures State() == Reject(old(State()), id)
      ensures ok <==> id in logs && !logs[id].synced && id !in old(rejected)
    {
      ok := id in logs && !logs[id].synced && id !in rejected;
      if ok {
        rejected := rejected + {id};
      }
    }
  }
}
