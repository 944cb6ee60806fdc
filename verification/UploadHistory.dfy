/** What becomes of a recorded scan, of a request and of a rejection, read from the steps of the run. */
module UploadHistory {
  import opened Options
  import opened Events
  import opened Ingest
  import opened UploadProtocol

  // ----- a scan -----

  /** The server identity of the scan's worker: recorded with it, or matched later, once. */
  ghost function Identity(first: Option<nat>, steps: seq<Step>, id: nat): Option<nat> {
    if steps == [] then first
    else
      var before, last := Identity(first, steps[..|steps| - 1], id), steps[|steps| - 1];
      if before == None && last.Identify? && last.id == id then Some(last.worker) else before
  }

  /** A step loses the row. */
  ghost predicate Loses(steps: seq<Step>, id: nat) {
    steps != [] && (Loses(steps[..|steps| - 1], id) || steps[|steps| - 1] == Lose(id))
  }

  predicate IsScan(row: Scan, scan: Scan, worker: Option<nat>) {
    row == scan.(worker := worker, synced := row.synced)
  }

  /** The scan is in the log as it was recorded, or it was pruned so, or a step lost it. */
  ghost predicate Fate(w: World, id: nat, scan: Scan, worker: Option<nat>, lost: bool) {
    && id < w.next
    && (id in w.log ==> IsScan(w.log[id], scan, worker) && id !in w.pruned && !lost)
    && (id in w.pruned ==> IsScan(w.pruned[id], scan, worker) && worker.Some?)
    && (id !in w.log && id !in w.pruned ==> lost)
  }

  lemma DeliveryKeepsFate(w: World, reply: Reply, id: nat, scan: Scan, worker: Option<nat>, lost: bool)
    requires Fate(w, id, scan, worker, lost)
    ensures Fate(Do(w, Deliver(reply)), id, scan, worker, lost)
  {
  }

  lemma PruneKeepsFate(w: World, pruned: nat, id: nat, scan: Scan, worker: Option<nat>, lost: bool)
    requires SyncedKept(w) && Fate(w, id, scan, worker, lost)
    ensures Fate(Do(w, Prune(pruned)), id, scan, worker, lost)
  {
    if id in w.log && w.log[id].synced {
      assert Kept(w.server, w.log[id]);
    }
  }

  lemma StepKeepsFate(w: World, step: Step, id: nat, scan: Scan, worker: Option<nat>, lost: bool)
    requires SyncedKept(w) && Fate(w, id, scan, worker, lost)
    ensures var next := if worker == None && step.Identify? && step.id == id then Some(step.worker) else worker;
            Fate(Do(w, step), id, scan, next, lost || step == Lose(id))
  {
    match step
    case Deliver(reply) => DeliveryKeepsFate(w, reply, id, scan, worker, lost);
    case Prune(pruned) => PruneKeepsFate(w, pruned, id, scan, worker, lost);
    case _ =>
  }

  lemma {:induction false} ScanFate(w: World, steps: seq<Step>, id: nat, scan: Scan)
    requires UploadProtocol.Inv(w) && Fate(w, id, scan, scan.worker, false)
    ensures Fate(Run(w, steps), id, scan, Identity(scan.worker, steps, id), Loses(steps, id))
  {
    if steps != [] {
      var front, last := steps[..|steps| - 1], steps[|steps| - 1];
      ScanFate(w, front, id, scan);
      UploadProtocol.RunKeepsInv(w, front);
      StepKeepsFate(Run(w, front), last, id, scan, Identity(scan.worker, front, id), Loses(front, id));
    }
  }

  ghost predicate PrunedIsGone(w: World) {
    forall id :: id in w.pruned ==> id < w.next && id !in w.log
  }

  lemma StepKeepsPruned(w: World, step: Step)
    requires AllAccounted(w) && PrunedIsGone(w)
    ensures PrunedIsGone(Do(w, step))
  {
  }

  lemma {:induction false} RunKeepsPruned(w: World, steps: seq<Step>)
    requires UploadProtocol.Inv(w) && PrunedIsGone(w)
    ensures PrunedIsGone(Run(w, steps))
  {
    if steps != [] {
      RunKeepsPruned(w, steps[..|steps| - 1]);
      UploadProtocol.RunKeepsInv(w, steps[..|steps| - 1]);
      StepKeepsPruned(Run(w, steps[..|steps| - 1]), steps[|steps| - 1]);
    }
  }

  /** From a new kiosk on, a scan is recorded as it is, under a new number.  Whatever happens then, unless a
      step loses its row, it stays in the log or is pruned, in either case unchanged but for the worker's
      identity, which is the first that was matched; and once it is synced or pruned, the server has it once,
      with just this evidence. */
  lemma RecordedIsDelivered(w: World, before: seq<Step>, scan: Scan, steps: seq<Step>)
    requires IsNewKiosk(w)
    ensures var id := Run(w, before).next;
            var after := Run(Do(Run(w, before), Record(scan)), steps);
            var worker := Identity(scan.worker, steps, id);
            !Loses(steps, id) ==>
              && (id in after.log || id in after.pruned)
              && (id in after.log ==> IsScan(after.log[id], scan, worker))
              && (id in after.pruned || after.log[id].synced ==> DeliveredOnce(after.server, scan.(worker := worker)))
  {
    NewKioskIsOk(w);
    UploadProtocol.RunKeepsInv(w, before);
    RunKeepsPruned(w, before);
    var start := Run(w, before);
    UploadProtocol.RecordKeepsInv(start, scan);
    var id, recorded := start.next, Do(start, Record(scan));
    ScanFate(recorded, steps, id, scan);
    UploadProtocol.RunKeepsInv(recorded, steps);
    var after := Run(recorded, steps);
    if id in after.pruned {
      SameEvent(after.server, after.pruned[id], scan, Identity(scan.worker, steps, id));
    } else if id in after.log && after.log[id].synced {
      SameEvent(after.server, after.log[id], scan, Identity(scan.worker, steps, id));
    }
  }

  lemma SameEvent(server: Server, row: Scan, scan: Scan, worker: Option<nat>)
    requires ServerOk(server) && Kept(server, row) && IsScan(row, scan, worker)
    ensures DeliveredOnce(server, scan.(worker := worker))
  {
    StoredOnce(server, EventOf(row));
    assert EventOf(row) == EventOf(scan.(worker := worker));
  }

  // ----- a request -----

  /** A request names different rows, at least one, all of one kiosk claim. */
  ghost predicate IsOneClaim(u: Upload) {
    && u.ids != [] && |u.ids| == |u.events|
    && (forall i, j :: 0 <= i < j < |u.ids| ==> u.ids[i] != u.ids[j])
    && (forall i, j :: 0 <= i < j < |u.events| ==> u.events[i].evidence.kiosk == u.events[j].evidence.kiosk)
  }

  ghost predicate AllOneClaim(w: World) {
    forall n :: 0 <= n < |w.uploads| ==> IsOneClaim(w.uploads[n])
  }

  lemma {:induction false} RequestsAreOneClaim(w: World, steps: seq<Step>)
    requires AllOneClaim(w)
    ensures AllOneClaim(Run(w, steps))
  {
    if steps != [] {
      RequestsAreOneClaim(w, steps[..|steps| - 1]);
      StepKeepsClaims(Run(w, steps[..|steps| - 1]), steps[|steps| - 1]);
    }
  }

  lemma StepKeepsClaims(w: World, step: Step)
    requires AllOneClaim(w)
    ensures AllOneClaim(Do(w, step))
  {
    if step.Send? && CanSend(w, step.ids) {
      var u := Upload(step.ids, EventsOf(w, step.ids));
      forall i, j | 0 <= i < j < |u.events| ensures u.events[i].evidence.kiosk == u.events[j].evidence.kiosk {
        assert u.events[i] == EventOf(w.log[step.ids[i]]) && u.events[j] == EventOf(w.log[step.ids[j]]);
      }
      assert IsOneClaim(u);
    }
  }

  predicate EndsWaiting(step: Step) {
    step.Deliver? || step.ClaimDenied? || step.GiveUp?
  }

  /** While the kiosk waits for an answer it sends nothing else. */
  lemma {:induction false} NothingIsSentMeanwhile(w: World, steps: seq<Step>)
    requires w.waiting.Some? && forall n :: 0 <= n < |steps| ==> !EndsWaiting(steps[n])
    ensures Run(w, steps).uploads == w.uploads && Run(w, steps).waiting == w.waiting
  {
    if steps != [] {
      NothingIsSentMeanwhile(w, steps[..|steps| - 1]);
    }
  }

  ghost predicate IsQueued(w: World, ids: seq<nat>) {
    forall i :: 0 <= i < |ids| ==> Retryable(w, ids[i]) && w.log[ids[i]].worker.Some?
  }

  /** When no answer is awaited, any rows of one claim that wait for upload can be sent, in their order. */
  lemma ClaimCanBeSent(w: World, ids: seq<nat>)
    requires w.waiting == None && ids != [] && IsQueued(w, ids)
    requires forall i, j :: 0 <= i < j < |ids| ==> ids[i] < ids[j]
    requires forall i :: 0 <= i < |ids| ==> w.log[ids[i]].kiosk == w.log[ids[0]].kiosk
    ensures var after := Do(w, Send(ids));
            && after.waiting == Some(|w.uploads|) && |after.uploads| == |w.uploads| + 1
            && after.uploads[|w.uploads|].ids == ids
  {
  }

  lemma SameEvents(w: World, u: Upload)
    requires UploadCurrent(w, u) && IsQueued(w, u.ids)
    ensures EventsOf(w, u.ids) == u.events
  {
    forall i | 0 <= i < |u.ids| ensures EventOf(w.log[u.ids[i]]) == u.events[i] {
      assert Current(w, u.ids[i], u.events[i]);
    }
  }

  /** A request without an answer can be given up and sent again just as it was. */
  lemma GivenUpIsSentAgain(w: World)
    requires UploadProtocol.Inv(w) && AllOneClaim(w) && w.waiting.Some?
    requires forall i :: 0 <= i < |w.uploads[w.waiting.value].ids| ==> w.uploads[w.waiting.value].ids[i] in w.log
    ensures var u := w.uploads[w.waiting.value];
            var after := Do(Do(w, GiveUp), Send(u.ids));
            after.uploads == w.uploads + [u] && after.log == w.log && after.active == w.active
  {
    var u := w.uploads[w.waiting.value];
    assert IsOneClaim(u);
    forall i | 0 <= i < |u.ids|
      ensures Retryable(w, u.ids[i]) && w.log[u.ids[i]].worker.Some?
      ensures u.events[i].evidence.kiosk == Some(w.log[u.ids[i]].kiosk)
    {
      assert Current(w, u.ids[i], u.events[i]);
    }
    SameEvents(w, u);
    SameEvents(Do(w, GiveUp), u);
    assert CanSend(Do(w, GiveUp), u.ids);
  }

  /** In a reachable state exactly the synced rows can be pruned. */
  lemma PrunedIff(w: World, id: nat)
    requires UploadProtocol.Inv(w) && id in w.log
    ensures var after := Do(w, Prune(id));
            if w.log[id].synced
            then after == w.(log := after.log, pruned := after.pruned) && after.log == w.log - {id}
                 && after.pruned == w.pruned[id := w.log[id]]
            else after == w
  {
  }

  // ----- a rejection -----

  /** A rejection is released only together with its row. */
  lemma ReleaseNeedsRow(w: World, id: nat)
    ensures id in Do(w, Release(id)).active <==> id in w.active && id !in w.log
    ensures Do(w, Release(id)) == w.(active := Do(w, Release(id)).active)
    ensures Do(w, Release(id)).active - {id} == w.active - {id}
  {
  }

  lemma {:induction false} AllAreQuarantined(w: World, ids: seq<nat>)
    requires forall i :: 0 <= i < |ids| ==> Retryable(w, ids[i])
    ensures Quarantine(w, ids) == set i | 0 <= i < |ids| :: ids[i]
  {
    if ids != [] {
      AllAreQuarantined(w, ids[1..]);
      var rest := ids[1..];
      forall x | x in ids ensures x == ids[0] || x in rest {
      }
    }
  }

  /** A refused claim quarantines every row of the request, and changes nothing else. */
  lemma DeniedClaimIsQuarantined(w: World)
    requires UploadProtocol.Inv(w) && w.waiting.Some?
    requires forall i :: 0 <= i < |w.uploads[w.waiting.value].ids| ==> w.uploads[w.waiting.value].ids[i] in w.log
    ensures var ids := w.uploads[w.waiting.value].ids;
            Do(w, ClaimDenied) == w.(active := w.active + (set i | 0 <= i < |ids| :: ids[i]), waiting := None)
  {
    var u := w.uploads[w.waiting.value];
    forall i | 0 <= i < |u.ids| ensures Retryable(w, u.ids[i]) {
      assert Current(w, u.ids[i], u.events[i]);
    }
    AllAreQuarantined(w, u.ids);
  }

  /** No request with a number from `from` on names the row. */
  ghost predicate NotSentSince(w: World, from: nat, id: nat) {
    forall n :: from <= n < |w.uploads| ==> id !in w.uploads[n].ids
  }

  /** A row that is quarantined is not sent until it is released. */
  lemma {:induction false} RejectedIsNotSent(w: World, steps: seq<Step>, id: nat)
    requires id in w.active && forall n :: 0 <= n < |steps| ==> steps[n] != Release(id)
    ensures id in Run(w, steps).active && |w.uploads| <= |Run(w, steps).uploads|
    ensures NotSentSince(Run(w, steps), |w.uploads|, id)
  {
    if steps != [] {
      RejectedIsNotSent(w, steps[..|steps| - 1], id);
    }
  }

  // ----- the server's side -----

  /** The requests that the server takes in: those of other clients, and each upload as often as it
      arrives. */
  ghost function Traffic(w: World, steps: seq<Step>): seq<Request> {
    if steps == [] then []
    else
      var front, last := steps[..|steps| - 1], steps[|steps| - 1];
      match last
      case OtherClient(request) => Traffic(w, front) + [request]
      case Process(n) =>
        if n < |Run(w, front).uploads| then Traffic(w, front) + [Bulk(Run(w, front).uploads[n].events, false)]
        else Traffic(w, front)
      case _ => Traffic(w, front)
  }

  /** The server of the protocol is the server of `Ingest`, under just these requests. */
  lemma {:induction false} ServerSeesTraffic(w: World, steps: seq<Step>)
    ensures Run(w, steps).server == HandleAll(w.server, Traffic(w, steps))
  {
    if steps != [] {
      var front, last := steps[..|steps| - 1], steps[|steps| - 1];
      ServerSeesTraffic(w, front);
      var before, after := Traffic(w, front), Traffic(w, steps);
      assert |after| == |before| + 1 ==> after[..|after| - 1] == before;
    }
  }
}
