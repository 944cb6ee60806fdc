/** What the ingest's workers and receipts are, read from the requests. */
module IngestHistory {
  import opened Options
  import opened Ingest

  ghost predicate Hires(requests: seq<Request>, worker: nat) {
    exists n :: 0 <= n < |requests| && requests[n] == Hire(worker)
  }

  lemma {:induction false} WorkersFollowHires(s: Server, requests: seq<Request>, worker: nat)
    ensures worker in HandleAll(s, requests).workers <==> worker in s.workers || Hires(requests, worker)
  {
    if requests != [] {
      var front := requests[..|requests| - 1];
      WorkersFollowHires(s, front, worker);
      assert requests == front + [requests[|requests| - 1]];
      if n :| 0 <= n < |front| && front[n] == Hire(worker) {
        assert requests[n] == Hire(worker);
      }
    }
  }

  /** Request `n` is a checkpointed upload of this batch, and it is acknowledged. */
  ghost predicate Acknowledges(s: Server, requests: seq<Request>, n: nat, batch: seq<Event>)
    requires n < |requests|
  {
    && requests[n] == Bulk(batch, true)
    && BulkCreate(HandleAll(s, requests[..n]), batch, true).1.Acknowledged?
  }

  ghost predicate Acknowledged(s: Server, requests: seq<Request>, batch: seq<Event>) {
    exists n :: 0 <= n < |requests| && Acknowledges(s, requests, n, batch)
  }

  lemma AcknowledgesInFront(s: Server, requests: seq<Request>, n: nat, batch: seq<Event>)
    requires n + 1 < |requests|
    ensures Acknowledges(s, requests[..|requests| - 1], n, batch) <==> Acknowledges(s, requests, n, batch)
  {
    assert requests[..|requests| - 1][..n] == requests[..n];
  }

  lemma AcknowledgedSnoc(s: Server, requests: seq<Request>, batch: seq<Event>)
    requires requests != []
    ensures Acknowledged(s, requests, batch) <==>
            || Acknowledged(s, requests[..|requests| - 1], batch)
            || Acknowledges(s, requests, |requests| - 1, batch)
  {
    var front := requests[..|requests| - 1];
    forall n: nat | n + 1 < |requests|
      ensures Acknowledges(s, front, n, batch) <==> Acknowledges(s, requests, n, batch)
    {
      AcknowledgesInFront(s, requests, n, batch);
    }
    if n :| 0 <= n < |front| && Acknowledges(s, front, n, batch) {
      assert Acknowledges(s, requests, n, batch);
    }
  }

  /** A receipt is kept for exactly the checkpointed batches that were acknowledged. */
  lemma {:induction false} ReceiptsAreAcknowledged(s: Server, requests: seq<Request>, batch: seq<Event>)
    ensures batch in HandleAll(s, requests).receipts <==> batch in s.receipts || Acknowledged(s, requests, batch)
  {
    if requests != [] {
      ReceiptsAreAcknowledged(s, requests[..|requests| - 1], batch);
      AcknowledgedSnoc(s, requests, batch);
    }
  }

  /** However the table has grown since, a checkpointed batch that was acknowledged once is acknowledged
      again, as stored already, and nothing changes. */
  lemma AcknowledgedStaysSo(s: Server, requests: seq<Request>, batch: seq<Event>)
    requires Acknowledged(s, requests, batch)
    ensures var server := HandleAll(s, requests);
            BulkCreate(server, batch, true) == (server, Ingest.Acknowledged(0, |batch|))
  {
    ReceiptsAreAcknowledged(s, requests, batch);
    var n :| 0 <= n < |requests| && Acknowledges(s, requests, n, batch);
  }
}
