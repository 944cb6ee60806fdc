/** Why bisection works against this server: each of the kiosk's rows is good or bad on its own. */
module UploadIsolation {
  import opened Options
  import opened Ingest
  import Upload

  /** The event that the kiosk uploads for each of its log rows. */
  type Payload = nat -> Event

  function EventsOf(payload: Payload, ids: seq<nat>): (events: seq<Event>)
    ensures |events| == |ids| && forall i :: 0 <= i < |ids| ==> events[i] == payload(ids[i])
  {
    seq(|ids|, i requires 0 <= i < |ids| => payload(ids[i]))
  }

  /** The rows carry the kiosk's keys, and rows with the same evidence agree on their notes. */
  ghost predicate Agreeing(payload: Payload, rows: set<nat>) {
    && (forall i :: i in rows ==> KioskEvent(payload(i)))
    && (forall i, j :: i in rows && j in rows ==> !NotesClash(payload(i), payload(j)))
  }

  /** An unknown worker, or a note that the server's table contradicts. */
  function BadRows(server: Server, payload: Payload, rows: set<nat>): set<nat> {
    set id | id in rows && IsBad(server.rows, server.workers, payload(id))
  }

  /** What the kiosk reads in the server's answer. */
  function ReplyOf(response: Response): Upload.Response {
    match response
    case Rejected => Upload.InvalidRows
    case Acknowledged(synced, acknowledged) =>
      Upload.Success(Upload.Integer(acknowledged), Upload.Integer(synced))
  }

  /** The server as it is when each request arrives. */
  type History = nat -> Server

  function Link(history: History, payload: Payload): Upload.Network {
    Upload.Network(
      (n: nat, ids: seq<nat>) => ReplyOf(BulkCreate(history(n), EventsOf(payload, ids), false).1),
      (n: nat) => false)
  }

  /** Hiring is harmless, and so is any client's truthful batch, if its kiosk events contradict none
      of these rows' notes and its other events are about other scans. */
  ghost predicate Harmless(payload: Payload, rows: set<nat>, request: Request) {
    match request
    case Hire(_) => true
    case Bulk(events, _) =>
      && AllTruthful(events)
      && forall id :: id in rows ==>
           AllRegard(events, payload(id)) && !ClashesEarlier(events, |events|, payload(id))
  }

  ghost predicate AllHarmless(payload: Payload, rows: set<nat>, requests: seq<Request>) {
    forall i :: 0 <= i < |requests| ==> Harmless(payload, rows, requests[i])
  }

  ghost predicate Moves(before: Server, after: Server, payload: Payload, rows: set<nat>) {
    exists requests :: AllHarmless(payload, rows, requests) && after == HandleAll(before, requests)
  }

  /** Between two requests of the upload the server takes any number of harmless ones. */
  ghost predicate Serves(history: History, payload: Payload, rows: set<nat>) {
    forall n: nat :: Moves(history(n), history(n + 1), payload, rows)
  }

  ghost predicate Sound(server: Server) {
    TableOk(server.rows) && Honest(server.rows)
  }

  lemma RowsAreKioskBatch(payload: Payload, rows: set<nat>, ids: seq<nat>)
    requires Agreeing(payload, rows) && forall i :: 0 <= i < |ids| ==> ids[i] in rows
    ensures KioskBatch(EventsOf(payload, ids))
    ensures forall k: nat, id :: k <= |ids| && id in rows ==> !ClashesEarlier(EventsOf(payload, ids), k, payload(id))
  {
  }

  /** The requests of the upload itself are harmless, in any grouping. */
  lemma OwnRequestsAreHarmless(payload: Payload, rows: set<nat>, ids: seq<nat>, checkpoint: bool)
    requires Agreeing(payload, rows) && forall i :: 0 <= i < |ids| ==> ids[i] in rows
    ensures Harmless(payload, rows, Bulk(EventsOf(payload, ids), checkpoint))
  {
    RowsAreKioskBatch(payload, rows, ids);
  }

  /** So is every batch of other clients, as the evidence names the kiosk. */
  lemma OtherClientsAreHarmless(payload: Payload, rows: set<nat>, events: seq<Event>, checkpoint: bool)
    requires AllTruthful(events)
    requires forall k, id :: 0 <= k < |events| && id in rows ==>
               events[k].evidence.kiosk != payload(id).evidence.kiosk
    ensures Harmless(payload, rows, Bulk(events, checkpoint))
  {
  }

  /** The rows that this table and these workers make bad. */
  function BadAfterHiring(server: Server, workers: set<nat>, payload: Payload, rows: set<nat>): set<nat> {
    BadRows(server.(workers := workers), payload, rows)
  }

  lemma BatchKeepsBadness(s: Server, events: seq<Event>, checkpoint: bool, payload: Payload, rows: set<nat>)
    requires Sound(s) && Agreeing(payload, rows) && Harmless(payload, rows, Bulk(events, checkpoint))
    ensures var after := BulkCreate(s, events, checkpoint).0;
            Sound(after) && after.workers == s.workers &&
            forall id :: id in rows ==> (Clashes(after.rows, payload(id)) <==> Clashes(s.rows, payload(id)))
  {
    if InsertAll(s.rows, s.workers, events).Accepted? {
      BatchKeepsTable(s.rows, s.workers, events);
      BatchKeepsHonest(s.rows, s.workers, events);
      forall id | id in rows
        ensures Clashes(InsertAll(s.rows, s.workers, events).rows, payload(id)) <==> Clashes(s.rows, payload(id))
      {
        BatchClashes(s.rows, s.workers, events, payload(id));
      }
    }
  }

  /** Harmless requests never let the table decide differently about the rows; only hires can. */
  lemma {:induction false} TrafficKeepsBadness(before: Server, requests: seq<Request>, payload: Payload, rows: set<nat>)
    requires Sound(before) && Agreeing(payload, rows) && AllHarmless(payload, rows, requests)
    ensures var after := HandleAll(before, requests);
            Sound(after) && before.workers <= after.workers &&
            forall id :: id in rows ==> (Clashes(after.rows, payload(id)) <==> Clashes(before.rows, payload(id)))
  {
    if requests != [] {
      var last := |requests| - 1;
      TrafficKeepsBadness(before, requests[..last], payload, rows);
      assert Harmless(payload, rows, requests[last]);
      if requests[last].Bulk? {
        BatchKeepsBadness(
          HandleAll(before, requests[..last]), requests[last].events, requests[last].checkpoint, payload, rows);
      }
    }
  }

  lemma StepOfHistory(history: History, payload: Payload, rows: set<nat>, n: nat)
    requires Sound(history(n)) && Agreeing(payload, rows) && Serves(history, payload, rows)
    ensures Sound(history(n + 1)) && history(n).workers <= history(n + 1).workers
    ensures forall id :: id in rows ==>
              (Clashes(history(n + 1).rows, payload(id)) <==> Clashes(history(n).rows, payload(id)))
  {
    assert Moves(history(n), history(n + 1), payload, rows);
    var requests :| AllHarmless(payload, rows, requests) && history(n + 1) == HandleAll(history(n), requests);
    TrafficKeepsBadness(history(n), requests, payload, rows);
  }

  /** No note of the rows is contradicted that was not contradicted at first. */
  lemma {:induction false} ClashesStay(history: History, payload: Payload, rows: set<nat>, n: nat)
    requires Sound(history(0)) && Agreeing(payload, rows) && Serves(history, payload, rows)
    ensures Sound(history(n)) && history(0).workers <= history(n).workers
    ensures forall id :: id in rows ==>
              (Clashes(history(n).rows, payload(id)) <==> Clashes(history(0).rows, payload(id)))
  {
    if n > 0 {
      ClashesStay(history, payload, rows, n - 1);
      StepOfHistory(history, payload, rows, n - 1);
    }
  }

  /** At every request the bad rows are those which the first table and the workers of that moment
      make bad: taking in rows never changes them, and a hire turns exactly those good that lacked
      only their worker. */
  lemma OnlyHiresMatter(history: History, payload: Payload, rows: set<nat>, n: nat)
    requires Sound(history(0)) && Agreeing(payload, rows) && Serves(history, payload, rows)
    ensures Sound(history(n)) && history(0).workers <= history(n).workers
    ensures BadRows(history(n), payload, rows) == BadAfterHiring(history(0), history(n).workers, payload, rows)
  {
    ClashesStay(history, payload, rows, n);
  }

  /** A bad row may turn good, and a good one stays good. */
  lemma {:induction false} GoodStays(history: History, payload: Payload, rows: set<nat>, m: nat, n: nat)
    requires Sound(history(0)) && Agreeing(payload, rows) && Serves(history, payload, rows) && m <= n
    ensures BadRows(history(n), payload, rows) <= BadRows(history(m), payload, rows)
  {
    if m < n {
      GoodStays(history, payload, rows, m, n - 1);
      OnlyHiresMatter(history, payload, rows, n - 1);
      StepOfHistory(history, payload, rows, n - 1);
    }
  }

  /** No worker of a row that the table does not contradict is hired along the way. */
  ghost predicate Unhelped(history: History, payload: Payload, rows: set<nat>) {
    forall n: nat, id :: id in rows && payload(id).evidence.worker in history(n).workers ==>
      payload(id).evidence.worker in history(0).workers || Clashes(history(0).rows, payload(id))
  }

  /** The bad rows stay the same all the time exactly if no hire helps one. */
  lemma BadnessStaysIff(history: History, payload: Payload, rows: set<nat>)
    requires Sound(history(0)) && Agreeing(payload, rows) && Serves(history, payload, rows)
    ensures Unhelped(history, payload, rows) <==>
            forall n :: BadRows(history(n), payload, rows) == BadRows(history(0), payload, rows)
  {
    forall n: nat
      ensures Sound(history(n)) && history(0).workers <= history(n).workers
      ensures BadRows(history(n), payload, rows) == BadAfterHiring(history(0), history(n).workers, payload, rows)
    {
      OnlyHiresMatter(history, payload, rows, n);
    }
    if forall n :: BadRows(history(n), payload, rows) == BadRows(history(0), payload, rows) {
      forall n: nat, id | id in rows && payload(id).evidence.worker in history(n).workers
        ensures payload(id).evidence.worker in history(0).workers || Clashes(history(0).rows, payload(id))
      {
        assert id in BadRows(history(n), payload, rows) <==> id in BadRows(history(0), payload, rows);
      }
    }
  }

  /** A request is rejected exactly if one of its rows is bad. */
  lemma RequestRejectedIff(server: Server, payload: Payload, rows: set<nat>, ids: seq<nat>)
    requires Sound(server) && Agreeing(payload, rows) && Upload.Within(ids, rows, MAX_BATCH)
    ensures BulkCreate(server, EventsOf(payload, ids), false).1.Rejected? <==>
            Upload.AnyBad(ids, BadRows(server, payload, rows))
  {
    var events := EventsOf(payload, ids);
    RowsAreKioskBatch(payload, rows, ids);
    KioskBatchRejectedIff(server.rows, server.workers, events);
    forall k: nat | k < |ids|
      ensures BadAt(server.rows, server.workers, events, k) <==> ids[k] in BadRows(server, payload, rows)
    {
    }
    if Upload.AnyBad(ids, BadRows(server, payload, rows)) {
      var k :| 0 <= k < |ids| && ids[k] in BadRows(server, payload, rows);
      assert BadAt(server.rows, server.workers, events, k);
    }
  }

  /** The server answers bisection as it expects, though its table grows along the way. */
  lemma ServerIsReliable(history: History, payload: Payload, rows: set<nat>)
    requires Sound(history(0)) && Agreeing(payload, rows) && Serves(history, payload, rows)
    requires Unhelped(history, payload, rows)
    ensures Upload.Reliable(Link(history, payload), BadRows(history(0), payload, rows), rows, MAX_BATCH)
  {
    var net, bad := Link(history, payload), BadRows(history(0), payload, rows);
    BadnessStaysIff(history, payload, rows);
    forall n: nat, ids | Upload.Within(ids, rows, MAX_BATCH) ensures Upload.Answers(net, n, ids, bad) {
      OnlyHiresMatter(history, payload, rows, n);
      RequestRejectedIff(history(n), payload, rows, ids);
    }
  }

  /** Uploading rows to this server, with notes and all, syncs exactly the good ones and quarantines
      exactly those with an unknown worker or a contradicted note, when at most six are bad and no
      hire helps one meanwhile. */
  lemma BadRowsAreIsolated(history: History, payload: Payload, rows: set<nat>, ids: seq<nat>)
    requires Sound(history(0)) && Agreeing(payload, rows) && Serves(history, payload, rows)
    requires Unhelped(history, payload, rows) && Upload.Within(ids, rows, Upload.BATCH_SIZE)
    requires Upload.CountBad(ids, BadRows(history(0), payload, rows)) <= 6
    ensures var bad := BadRows(history(0), payload, rows);
            Upload.Upload(Link(history, payload), ids, Upload.REQUESTS_PER_CYCLE, 0) ==
            Upload.Result(Upload.Resolved, Upload.Sorted(ids, bad), Upload.Requests(ids, bad))
  {
    ServerIsReliable(history, payload, rows);
    Upload.SixBadRowsFitTheBudget(
      Link(history, payload), ids, 0, BadRows(history(0), payload, rows), rows, MAX_BATCH);
  }

  /** While workers are hired, a request is still rejected only for a row that was bad at first. */
  lemma ServerIsPatient(history: History, payload: Payload, rows: set<nat>)
    requires Sound(history(0)) && Agreeing(payload, rows) && Serves(history, payload, rows)
    ensures Upload.Patient(Link(history, payload), BadRows(history(0), payload, rows), rows, MAX_BATCH)
  {
    var net, bad := Link(history, payload), BadRows(history(0), payload, rows);
    forall n: nat, ids | Upload.Within(ids, rows, MAX_BATCH) ensures Upload.AnswersWithin(net, n, ids, bad) {
      OnlyHiresMatter(history, payload, rows, n);
      GoodStays(history, payload, rows, 0, n);
      RequestRejectedIff(history(n), payload, rows, ids);
    }
  }

  /** One of the first `sent` requests settled the row: a row that is quarantined then was bad at that
      moment, a row that is synced then is good from that moment on. */
  ghost predicate SettledRightly(
    history: History, payload: Payload, rows: set<nat>, asked: seq<seq<nat>>, s: Upload.Settlement) {
    exists i: nat :: SettledAt(history, payload, rows, asked, i, s)
  }

  ghost predicate SettledAt(
    history: History, payload: Payload, rows: set<nat>, asked: seq<seq<nat>>, i: nat, s: Upload.Settlement) {
    i < |asked| && s.id in asked[i] &&
    match s
    case Quarantined(id) => id in BadRows(history(i), payload, rows)
    case Synced(id) => GoodFrom(history, payload, rows, id, i)
  }

  ghost predicate GoodFrom(history: History, payload: Payload, rows: set<nat>, id: nat, n: nat) {
    forall m :: n <= m ==> id !in BadRows(history(m), payload, rows)
  }

  /** The server's answer is a full acknowledgement or a rejection for the rows. */
  lemma LinkAnswers(history: History, payload: Payload, n: nat, ids: seq<nat>)
    ensures var rejected := BulkCreate(history(n), EventsOf(payload, ids), false).1.Rejected?;
            var reply := Link(history, payload).reply(n, ids);
            && (rejected <==> reply == Upload.InvalidRows) && (!rejected <==> reply.Success?)
  {
  }

  lemma AcknowledgedIsGood(history: History, payload: Payload, rows: set<nat>, ids: seq<nat>, n: nat, id: nat)
    requires Sound(history(0)) && Agreeing(payload, rows) && Serves(history, payload, rows)
    requires Upload.Within(ids, rows, MAX_BATCH)
    requires Upload.Decides(Link(history, payload), ids, n, Upload.Synced(id))
    ensures GoodFrom(history, payload, rows, id, n)
  {
    LinkAnswers(history, payload, n, ids);
    OnlyHiresMatter(history, payload, rows, n);
    RequestRejectedIff(history(n), payload, rows, ids);
    forall m | n <= m ensures id !in BadRows(history(m), payload, rows) {
      GoodStays(history, payload, rows, n, m);
    }
  }

  lemma RefusedIsBad(history: History, payload: Payload, rows: set<nat>, ids: seq<nat>, n: nat, id: nat)
    requires Sound(history(0)) && Agreeing(payload, rows) && Serves(history, payload, rows)
    requires Upload.Within(ids, rows, MAX_BATCH)
    requires Upload.Decides(Link(history, payload), ids, n, Upload.Quarantined(id))
    ensures id in BadRows(history(n), payload, rows)
  {
    LinkAnswers(history, payload, n, ids);
    OnlyHiresMatter(history, payload, rows, n);
    RequestRejectedIff(history(n), payload, rows, ids);
  }

  /** However workers are hired meanwhile, a batch with at most six bad rows is settled whole within
      the budget, with no more requests than if nobody were hired, and every row for what it was when
      one of the requests that were sent settled it. */
  lemma BatchIsSettledRightly(history: History, payload: Payload, rows: set<nat>, ids: seq<nat>)
    requires Sound(history(0)) && Agreeing(payload, rows) && Serves(history, payload, rows)
    requires Upload.Within(ids, rows, Upload.BATCH_SIZE)
    requires Upload.CountBad(ids, BadRows(history(0), payload, rows)) <= 6
    ensures var net := Link(history, payload);
            var r := Upload.Upload(net, ids, Upload.REQUESTS_PER_CYCLE, 0);
            var asked := Upload.Asked(net, ids, Upload.REQUESTS_PER_CYCLE, 0);
            && r.verdict == Upload.Resolved && Upload.Ids(r.settled) == ids
            && |asked| == r.requests <= Upload.Requests(ids, BadRows(history(0), payload, rows))
            && forall s :: s in r.settled ==> SettledRightly(history, payload, rows, asked, s)
  {
    var net, bad := Link(history, payload), BadRows(history(0), payload, rows);
    var r := Upload.Upload(net, ids, Upload.REQUESTS_PER_CYCLE, 0);
    ServerIsPatient(history, payload, rows);
    Upload.SixBadRowsCost(ids, bad);
    Upload.UploadResolves(net, ids, Upload.REQUESTS_PER_CYCLE, 0, bad, rows, MAX_BATCH);
    Upload.UploadSettlesPrefix(net, ids, Upload.REQUESTS_PER_CYCLE, 0);
    Upload.AskedCounts(net, ids, Upload.REQUESTS_PER_CYCLE, 0);
    assert ids[..|ids|] == ids;
    var asked := Upload.Asked(net, ids, Upload.REQUESTS_PER_CYCLE, 0);
    forall s | s in r.settled ensures SettledRightly(history, payload, rows, asked, s) {
      Upload.SettledForAReason(net, ids, Upload.REQUESTS_PER_CYCLE, 0, s);
      Upload.AskedAreParts(net, ids, Upload.REQUESTS_PER_CYCLE, 0);
      JustifiedIsRight(history, payload, rows, ids, asked, s);
    }
  }

  lemma PartIsWithin(request: seq<nat>, ids: seq<nat>, rows: set<nat>)
    requires Upload.Within(ids, rows, Upload.BATCH_SIZE) && Upload.PartOf(request, ids)
    ensures Upload.Within(request, rows, MAX_BATCH)
  {
  }

  lemma JustifiedIsRight(
    history: History, payload: Payload, rows: set<nat>, ids: seq<nat>, asked: seq<seq<nat>>, s: Upload.Settlement)
    requires Sound(history(0)) && Agreeing(payload, rows) && Serves(history, payload, rows)
    requires Upload.Within(ids, rows, Upload.BATCH_SIZE) && Upload.AllParts(asked, ids)
    requires Upload.Justified(Link(history, payload), asked, 0, s)
    ensures SettledRightly(history, payload, rows, asked, s)
  {
    var i: nat :| Upload.DecidedAt(Link(history, payload), asked, 0, i, s);
    PartIsWithin(asked[i], ids, rows);
    DecidedIsRight(history, payload, rows, asked[i], i, s);
    assert SettledAt(history, payload, rows, asked, i, s);
  }

  lemma DecidedIsRight(
    history: History, payload: Payload, rows: set<nat>, request: seq<nat>, n: nat, s: Upload.Settlement)
    requires Sound(history(0)) && Agreeing(payload, rows) && Serves(history, payload, rows)
    requires Upload.Within(request, rows, MAX_BATCH) && Upload.Decides(Link(history, payload), request, n, s)
    ensures match s
            case Quarantined(id) => id in BadRows(history(n), payload, rows)
            case Synced(id) => GoodFrom(history, payload, rows, id, n)
  {
    match s
    case Synced(id) => AcknowledgedIsGood(history, payload, rows, request, n, id);
    case Quarantined(id) => RefusedIsBad(history, payload, rows, request, n, id);
  }
}
