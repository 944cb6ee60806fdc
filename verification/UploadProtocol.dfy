/** The kiosk's queue and the server's table over every run of a lossy, repeating link. */
module UploadProtocol {
  import opened Options
  import opened Events
  import opened Ingest

  /** A log row.  `worker` is its server identity, unknown until the worker has been matched. */
  datatype Scan = Scan(worker: Option<nat>, at: string, kind: EventType, kiosk: nat, note: Option<string>, synced: bool)

  datatype Upload = Upload(ids: seq<nat>, events: seq<Event>)

  /** The server's answer to one upload: all of it acknowledged, or its evidence rejected. */
  datatype Reply = Reply(upload: nat, acknowledged: bool)

  /** `active` names the log rows under an active rejection, of which a row has at most one.
      Uploads stay on the link for good: each may reach the server never, late or repeatedly. */
  datatype World = World(
    log: map<nat, Scan>, next: nat, active: set<nat>,
    pruned: map<nat, Scan>, lost: set<nat>,
    uploads: seq<Upload>, waiting: Option<nat>, replies: set<Reply>,
    server: Server)

  function EventOf(scan: Scan): Event
    requires scan.worker.Some?
  {
    var evidence := Evidence(scan.worker.value, scan.at, scan.kind, Some(scan.kiosk));
    Event(evidence, Some(Digest(evidence)), scan.note)
  }

  predicate Retryable(w: World, id: nat) {
    id in w.log && !w.log[id].synced && id !in w.active
  }

  /** Rows without an identity stay behind, and a request never mixes kiosk claims. */
  predicate CanSend(w: World, ids: seq<nat>) {
    && ids != [] && w.waiting == None
    && (forall i :: 0 <= i < |ids| ==> Retryable(w, ids[i]) && w.log[ids[i]].worker.Some?)
    && (forall i, j :: 0 <= i < j < |ids| ==> ids[i] != ids[j] && w.log[ids[i]].kiosk == w.log[ids[j]].kiosk)
  }

  function EventsOf(w: World, ids: seq<nat>): seq<Event>
    requires forall i :: 0 <= i < |ids| ==> ids[i] in w.log && w.log[ids[i]].worker.Some?
  {
    seq(|ids|, i requires 0 <= i < |ids| => EventOf(w.log[ids[i]]))
  }

  function MarkSynced(log: map<nat, Scan>, ids: seq<nat>): map<nat, Scan> {
    map id | id in log :: if id in ids then log[id].(synced := true) else log[id]
  }

  /** Quarantine rows in order; a row that is gone, synced or in quarantine already stops it. */
  function Quarantine(w: World, ids: seq<nat>): set<nat> {
    if ids == [] || !Retryable(w, ids[0]) then {}
    else {ids[0]} + Quarantine(w, ids[1..])
  }

  datatype Step =
    | Record(scan: Scan)
    | Identify(id: nat, worker: nat)
    | Send(ids: seq<nat>)
    | Process(upload: nat)
    | OtherClient(request: Request)
    | Deliver(reply: Reply)
    | ClaimDenied
    | GiveUp
    | Release(id: nat)
    | Prune(id: nat)
    | Lose(id: nat)

  function Do(w: World, step: Step): World {
    match step
    case Record(scan) => w.(log := w.log[w.next := scan.(synced := false)], next := w.next + 1)
    case Identify(id, worker) =>
      if id in w.log && w.log[id].worker == None
      then w.(log := w.log[id := w.log[id].(worker := Some(worker))]) else w
    case Send(ids) =>
      if !CanSend(w, ids) then w
      else w.(uploads := w.uploads + [Upload(ids, EventsOf(w, ids))], waiting := Some(|w.uploads|))
    case Process(n) =>
      if n >= |w.uploads| then w
      else
        var (server, response) := BulkCreate(w.server, w.uploads[n].events, false);
        w.(server := server, replies := w.replies + {Reply(n, response.Acknowledged?)})
    case OtherClient(request) => w.(server := Handle(w.server, request))
    case Deliver(reply) =>
      if reply !in w.replies || w.waiting != Some(reply.upload) || reply.upload >= |w.uploads| then w
      else
        var ids := w.uploads[reply.upload].ids;
        if reply.acknowledged then w.(log := MarkSynced(w.log, ids), waiting := None)
        else if |ids| == 1 then w.(active := w.active + Quarantine(w, ids), waiting := None)
        else w.(waiting := None)
    case ClaimDenied =>
      if w.waiting == None || w.waiting.value >= |w.uploads| then w
      else w.(active := w.active + Quarantine(w, w.uploads[w.waiting.value].ids), waiting := None)
    case GiveUp => w.(waiting := None)
    case Release(id) => if id in w.active && id in w.log then w.(active := w.active - {id}) else w
    case Prune(id) =>
      if id in w.log && w.log[id].synced && id !in w.active
      then w.(log := w.log - {id}, pruned := w.pruned[id := w.log[id]]) else w
    case Lose(id) => if id in w.log then w.(log := w.log - {id}, lost := w.lost + {id}) else w
  }

  function Run(w: World, steps: seq<Step>): World {
    if steps == [] then w else Do(Run(w, steps[..|steps| - 1]), steps[|steps| - 1])
  }

  // ----- the invariant -----

  ghost predicate Kept(server: Server, scan: Scan) {
    scan.worker.Some? && Stored(server.rows, EventOf(scan))
  }

  ghost predicate SyncedKept(w: World) {
    && (forall id :: id in w.log && w.log[id].synced ==> Kept(w.server, w.log[id]))
    && (forall id :: id in w.pruned ==> Kept(w.server, w.pruned[id]))
  }

  /** Every row ever recorded is in the log, was pruned or was lost. */
  ghost predicate AllAccounted(w: World) {
    && (forall id :: 0 <= id < w.next ==> id in w.log || id in w.pruned || id in w.lost)
    && (forall id :: id in w.log ==> id < w.next)
    && (forall id :: id in w.active ==> id < w.next)
  }

  /** A rejection is active only for a row that is unsynced or gone. */
  ghost predicate RejectionsOk(w: World) {
    forall id :: id in w.active && id in w.log ==> !w.log[id].synced
  }

  ghost predicate RepliesOk(w: World) {
    forall r :: r in w.replies && r.acknowledged ==>
      r.upload < |w.uploads| && BatchStored(w.server, w.uploads[r.upload].events)
  }

  /** What the pending upload holds is still what the log holds. */
  ghost predicate Current(w: World, id: nat, event: Event) {
    id in w.log ==> Retryable(w, id) && w.log[id].worker.Some? && EventOf(w.log[id]) == event
  }

  ghost predicate UploadCurrent(w: World, u: Upload) {
    |u.ids| == |u.events| && forall k :: 0 <= k < |u.ids| ==> u.ids[k] < w.next && Current(w, u.ids[k], u.events[k])
  }

  ghost predicate WaitingOk(w: World) {
    w.waiting.Some? ==> w.waiting.value < |w.uploads| && UploadCurrent(w, w.uploads[w.waiting.value])
  }

  ghost predicate Inv(w: World) {
    ServerOk(w.server) && SyncedKept(w) && AllAccounted(w) && RejectionsOk(w) && RepliesOk(w) && WaitingOk(w)
  }

  /** A kiosk with an empty log, and whatever the server holds by then. */
  ghost predicate IsNewKiosk(w: World) {
    && w.log == map[] && w.next == 0 && w.active == {} && w.pruned == map[]
    && w.uploads == [] && w.waiting == None && w.replies == {} && ServerOk(w.server)
  }

  lemma NewKioskIsOk(w: World)
    requires IsNewKiosk(w)
    ensures Inv(w)
  {
  }

  lemma QuarantineTakesRetryable(w: World, ids: seq<nat>)
    ensures forall id :: id in Quarantine(w, ids) ==> Retryable(w, id)
  {
  }

  /** A later server keeps what an earlier one kept. */
  lemma LaterKeeps(w: World, server: Server)
    requires Inv(w) && ServerOk(server) && Later(w.server, server)
    ensures Inv(w.(server := server))
  {
    forall scan | Kept(w.server, scan) ensures Kept(server, scan) {
      StoredStays(w.server.rows, server.rows, EventOf(scan));
    }
    forall r | r in w.replies && r.acknowledged ensures BatchStored(server, w.uploads[r.upload].events) {
      BatchStaysStored(w.server, server, w.uploads[r.upload].events);
    }
  }

  lemma ServerStepKeepsInv(w: World, step: Step)
    requires Inv(w) && (step.Process? || step.OtherClient?)
    ensures Inv(Do(w, step))
  {
    match step
    case Process(n) =>
      if n < |w.uploads| {
        BulkMeans(w.server, w.uploads[n].events, false);
        LaterKeeps(w, BulkCreate(w.server, w.uploads[n].events, false).0);
      }
    case OtherClient(request) =>
      HandleKeepsServer(w.server, request);
      LaterKeeps(w, Handle(w.server, request));
  }

  lemma AcknowledgedAreKept(w: World, reply: Reply, id: nat)
    requires Inv(w) && reply in w.replies && reply.acknowledged && w.waiting == Some(reply.upload)
    requires id in w.uploads[reply.upload].ids && id in w.log
    ensures Kept(w.server, w.log[id]) && id !in w.active
  {
    var u := w.uploads[reply.upload];
    var k :| 0 <= k < |u.ids| && u.ids[k] == id;
    assert Current(w, id, u.events[k]);
    assert Stored(w.server.rows, u.events[k]);
  }

  lemma DeliverKeepsInv(w: World, reply: Reply)
    requires Inv(w)
    ensures Inv(Do(w, Deliver(reply)))
  {
    if reply in w.replies && w.waiting == Some(reply.upload) {
      var ids := w.uploads[reply.upload].ids;
      if reply.acknowledged {
        forall id | id in w.log && id in ids ensures Kept(w.server, MarkSynced(w.log, ids)[id]) && id !in w.active {
          AcknowledgedAreKept(w, reply, id);
        }
      } else {
        QuarantineTakesRetryable(w, ids);
      }
    }
  }

  lemma SendKeepsInv(w: World, ids: seq<nat>)
    requires Inv(w)
    ensures Inv(Do(w, Send(ids)))
  {
    if CanSend(w, ids) {
      var u := Upload(ids, EventsOf(w, ids));
      assert UploadCurrent(Do(w, Send(ids)), u);
    }
  }

  lemma RecordKeepsInv(w: World, scan: Scan)
    requires Inv(w)
    ensures Inv(Do(w, Record(scan)))
  {
    var after := Do(w, Record(scan));
    if w.waiting.Some? {
      var u := w.uploads[w.waiting.value];
      forall k | 0 <= k < |u.ids| ensures Current(after, u.ids[k], u.events[k]) {
        assert Current(w, u.ids[k], u.events[k]);
      }
    }
  }

  lemma ClaimDenialKeepsInv(w: World)
    requires Inv(w)
    ensures Inv(Do(w, ClaimDenied))
  {
    if w.waiting.Some? {
      QuarantineTakesRetryable(w, w.uploads[w.waiting.value].ids);
    }
  }

  lemma KioskStepKeepsInv(w: World, step: Step)
    requires Inv(w)
    requires step.Identify? || step.GiveUp? || step.Release? || step.Prune? || step.Lose?
    ensures Inv(Do(w, step))
  {
    var after := Do(w, step);
    if after.waiting.Some? {
      var u := w.uploads[w.waiting.value];
      forall k | 0 <= k < |u.ids| ensures Current(after, u.ids[k], u.events[k]) {
        assert Current(w, u.ids[k], u.events[k]);
      }
    }
  }

  lemma StepKeepsInv(w: World, step: Step)
    requires Inv(w)
    ensures Inv(Do(w, step))
  {
    match step
    case Record(scan) => RecordKeepsInv(w, scan);
    case Send(ids) => SendKeepsInv(w, ids);
    case Process(_) => ServerStepKeepsInv(w, step);
    case OtherClient(_) => ServerStepKeepsInv(w, step);
    case Deliver(reply) => DeliverKeepsInv(w, reply);
    case ClaimDenied => ClaimDenialKeepsInv(w);
    case _ => KioskStepKeepsInv(w, step);
  }

  lemma {:induction false} RunKeepsInv(w: World, steps: seq<Step>)
    requires Inv(w)
    ensures Inv(Run(w, steps))
  {
    if steps != [] {
      RunKeepsInv(w, steps[..|steps| - 1]);
      StepKeepsInv(Run(w, steps[..|steps| - 1]), steps[|steps| - 1]);
    }
  }

  // ----- what every run guarantees -----

  ghost predicate OnlyKeyed(rows: Table, event: Event, i: nat)
    requires event.key.Some?
  {
    forall j: nat :: (j < |rows| && HasKey(rows[j], event.evidence.kiosk, event.key.value)) <==> j == i
  }

  /** One row of the table has this kiosk and key, and it carries this evidence. */
  ghost predicate OnServerOnce(server: Server, event: Event)
    requires event.key.Some?
  {
    exists i: nat :: i < |server.rows| && server.rows[i].evidence == event.evidence && OnlyKeyed(server.rows, event, i)
  }

  lemma StoredOnce(server: Server, event: Event)
    requires TableOk(server.rows) && event.key.Some? && Stored(server.rows, event)
    ensures OnServerOnce(server, event)
  {
    var rows := server.rows;
    var i: nat :| i < |rows| && StoredAt(rows, event, i);
    assert OnlyKeyed(rows, event, i);
  }

  ghost predicate DeliveredOnce(server: Server, scan: Scan) {
    scan.worker.Some? && OnServerOnce(server, EventOf(scan))
  }

  /** Delivery is exactly once although uploads are lost, repeated and answered late: a scan that
      the kiosk counts as synced, or has pruned, is on the server once.  Every scan ever recorded
      is on the server once or still in the log, unless the kiosk lost the row itself. */
  lemma ExactlyOnce(w: World, steps: seq<Step>, id: nat)
    requires Inv(w) && id < Run(w, steps).next && id !in Run(w, steps).lost
    ensures var after := Run(w, steps);
            && (id in after.log || id in after.pruned)
            && (id in after.log && after.log[id].synced ==> DeliveredOnce(after.server, after.log[id]))
            && (id in after.pruned ==> DeliveredOnce(after.server, after.pruned[id]))
  {
    RunKeepsInv(w, steps);
    var after := Run(w, steps);
    if id in after.pruned {
      StoredOnce(after.server, EventOf(after.pruned[id]));
    }
    if id in after.log && after.log[id].synced {
      StoredOnce(after.server, EventOf(after.log[id]));
    }
  }

  // ----- queue counters -----

  function Unsynced(w: World): set<nat> {
    set id | id in w.log && !w.log[id].synced :: id
  }

  /** All unsent rows, and the rejections whose row is gone. */
  function CountUnsynced(w: World): nat {
    |Unsynced(w)| + |w.active - w.log.Keys|
  }

  function CountRejected(w: World): nat {
    |w.active|
  }

  function CountRetryable(w: World): nat {
    |Unsynced(w) - w.active|
  }

  lemma CountsAdd(unsynced: set<nat>, active: set<nat>, keys: set<nat>)
    requires unsynced <= keys
    ensures |unsynced| + |active - keys| == |unsynced - active| + |active| <==> active * keys <= unsynced
  {
    assert active == (active - keys) + (active * keys);
    assert active * keys == (active * unsynced) + (active * keys - unsynced);
    assert unsynced == (unsynced - active) + (active * unsynced);
    assert |active * keys| == |active * unsynced| + |active * keys - unsynced|;
    if |active * keys - unsynced| == 0 {
      assert active * keys - unsynced == {};
    }
  }

  /** In every reachable state the queue is what can be retried and what was rejected. */
  lemma QueueIsRetryableAndRejected(w: World, steps: seq<Step>)
    requires Inv(w)
    ensures var after := Run(w, steps);
            CountUnsynced(after) == CountRetryable(after) + CountRejected(after)
  {
    RunKeepsInv(w, steps);
    var after := Run(w, steps);
    CountsAdd(Unsynced(after), after.active, after.log.Keys);
  }

  /** From a new kiosk on, every scan that it did not lose is in its log or delivered once, what
      counts as synced is delivered once, and the queue counters add up. */
  lemma ExactlyOnceFromTheStart(w: World, steps: seq<Step>, id: nat)
    requires IsNewKiosk(w) && id < Run(w, steps).next && id !in Run(w, steps).lost
    ensures var after := Run(w, steps);
            && (if id in after.log then after.log[id].synced ==> DeliveredOnce(after.server, after.log[id])
                else id in after.pruned && DeliveredOnce(after.server, after.pruned[id]))
            && CountUnsynced(after) == CountRetryable(after) + CountRejected(after)
  {
    NewKioskIsOk(w);
    ExactlyOnce(w, steps, id);
    QueueIsRetryableAndRejected(w, steps);
  }

  // ----- completing an upload -----

  /** The server's answer to an upload that it sees at once. */
  function Answered(w: World, ids: seq<nat>): Reply {
    Reply(|w.uploads|, |w.uploads| < |Do(w, Send(ids)).uploads|
      && BulkCreate(w.server, Do(w, Send(ids)).uploads[|w.uploads|].events, false).1.Acknowledged?)
  }

  function SendAndDeliver(w: World, ids: seq<nat>): World {
    Do(Do(Do(w, Send(ids)), Process(|w.uploads|)), Deliver(Answered(w, ids)))
  }

  /** When the link works, an upload does its job: acknowledged rows are synced, one by one and no
      other; a rejected single row is quarantined, and releasing it makes it retryable again. */
  lemma UploadCompletes(w: World, ids: seq<nat>, id: nat)
    requires Inv(w) && CanSend(w, ids) && id in w.log
    ensures var after := SendAndDeliver(w, ids);
            && after.waiting == None && id in after.log
            && (if Answered(w, ids).acknowledged then
                  after.active == w.active
                  && after.log[id] == (if id in ids then w.log[id].(synced := true) else w.log[id])
                else after.log == w.log)
            && (!Answered(w, ids).acknowledged && |ids| == 1 ==> after.active == w.active + {ids[0]})
            && (!Answered(w, ids).acknowledged && |ids| == 1 ==> Do(after, Release(ids[0])).active == w.active)
  {
    var sent := Do(w, Send(ids));
    assert sent.uploads[|w.uploads|].ids == ids;
    if |ids| == 1 {
      QuarantineOfOne(Do(sent, Process(|w.uploads|)), ids);
    }
  }

  lemma QuarantineOfOne(w: World, ids: seq<nat>)
    requires |ids| == 1 && Retryable(w, ids[0])
    ensures Quarantine(w, ids) == {ids[0]}
  {
    assert ids[1..] == [];
  }
}
