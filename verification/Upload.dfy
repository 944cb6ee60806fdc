/** Upload of attendance batches: bisection that isolates rejected rows under a request budget. */
module Upload {
  import opened Options

  const REQUESTS_PER_CYCLE := 64
  const BATCH_SIZE := 100

  /** A field of the response body, which need not be there nor hold an integer. */
  datatype Field = Absent | NotAnInteger | Integer(value: int)

  /** `InvalidRows` is a rejection that the server attributes to the evidence itself. */
  datatype Response =
    | Lost
    | Success(acknowledged: Field, synced: Field)
    | Unauthorized
    | ClaimMismatch
    | InvalidRows
    | OtherStatus

  /** The server, the link and the clock.  Requests are numbered; `late(n)` tells whether the
      deadline has passed when request `n` would start.  Both are arbitrary. */
  datatype Network = Network(reply: (nat, seq<nat>) -> Response, late: nat -> bool)

  /** True, False, and the exception that ends the whole cycle. */
  datatype Verdict = Resolved | Stopped | CredentialDenied

  datatype Settlement = Synced(id: nat) | Quarantined(id: nat)

  datatype Result = Result(verdict: Verdict, settled: seq<Settlement>, requests: nat)

  /** Only a full count is an acknowledgement; servers that do not count may report fewer inserts. */
  predicate FullyAcknowledged(r: Response, submitted: nat) {
    && r.Success?
    && match r.acknowledged
       case Integer(count) => count == submitted
       case NotAnInteger => false
       case Absent => r.synced.Integer? && 0 <= r.synced.value <= submitted
  }

  /** A retry of which a server that does not count has inserted nothing is acknowledged. */
  lemma RetryCounts(r: Response, n: nat)
    requires r == Success(Absent, Integer(0))
    ensures FullyAcknowledged(r, n)
  {
  }

  /** A count acknowledges requests of just that many rows, a malformed one none, and a server that does
      not count acknowledges every request that is at least as long as what it inserted. */
  lemma AcknowledgementCounts(r: Response, n: nat, m: nat)
    requires FullyAcknowledged(r, n)
    ensures r.Success? && r.acknowledged != NotAnInteger
    ensures r.acknowledged.Integer? ==> (FullyAcknowledged(r, m) <==> m == n)
    ensures r.acknowledged == Absent ==> r.synced.Integer? && (FullyAcknowledged(r, m) <==> r.synced.value <= m)
  {
  }

  function AllSynced(ids: seq<nat>): seq<Settlement> {
    seq(|ids|, i requires 0 <= i < |ids| => Synced(ids[i]))
  }

  function AllQuarantined(ids: seq<nat>): seq<Settlement> {
    seq(|ids|, i requires 0 <= i < |ids| => Quarantined(ids[i]))
  }

  function Upload(net: Network, ids: seq<nat>, budget: nat, sent: nat): (r: Result)
    requires ids != []
    ensures r.requests <= budget
    decreases |ids|, 1
  {
    if budget == 0 || net.late(sent) then Result(Stopped, [], 0)
    else
      var response := net.reply(sent, ids);
      if FullyAcknowledged(response, |ids|) then Result(Resolved, AllSynced(ids), 1)
      else if response == Unauthorized then Result(CredentialDenied, [], 1)
      else if response == ClaimMismatch then Result(Resolved, AllQuarantined(ids), 1)
      else if response != InvalidRows then Result(Stopped, [], 1)
      else if |ids| == 1 then Result(Resolved, [Quarantined(ids[0])], 1)
      else
        var halves := UploadHalves(net, ids, budget - 1, sent + 1);
        halves.(requests := 1 + halves.requests)
  }

  /** Two uploads in turn. */
  function InTurn(left: Result, right: Result): Result {
    Result(right.verdict, left.settled + right.settled, left.requests + right.requests)
  }

  /** The second half is sent only when the first one is resolved. */
  function UploadHalves(net: Network, ids: seq<nat>, budget: nat, sent: nat): (r: Result)
    requires |ids| > 1
    ensures r.requests <= budget
    decreases |ids|, 0
  {
    var left := Upload(net, ids[..|ids| / 2], budget, sent);
    if left.verdict != Resolved then left
    else InTurn(left, Upload(net, ids[|ids| / 2..], budget - left.requests, sent + left.requests))
  }

  function Ids(settled: seq<Settlement>): (r: seq<nat>)
    ensures |r| == |settled|
  {
    seq(|settled|, i requires 0 <= i < |settled| => settled[i].id)
  }

  /** The rows settled so far are the first ones, each once, and all of them exactly on success. */
  ghost predicate SettlesPrefix(ids: seq<nat>, verdict: Verdict, settled: seq<Settlement>) {
    && |settled| <= |ids| && Ids(settled) == ids[..|settled|]
    && (verdict == Resolved <==> |settled| == |ids|)
  }

  lemma PrefixesJoin(ids: seq<nat>, mid: nat, left: seq<Settlement>, verdict: Verdict, right: seq<Settlement>)
    requires mid <= |ids| && Ids(left) == ids[..mid] && SettlesPrefix(ids[mid..], verdict, right)
    ensures SettlesPrefix(ids, verdict, left + right)
  {
    assert Ids(left + right) == Ids(left) + Ids(right);
    assert ids[..mid] + ids[mid..][..|right|] == ids[..mid + |right|];
  }

  /** The batch is settled from the left, each row once: all of it exactly when the upload reports
      success, and otherwise every row from the first unsettled one on is untouched. */
  lemma {:induction false} UploadSettlesPrefix(net: Network, ids: seq<nat>, budget: nat, sent: nat)
    requires ids != []
    ensures SettlesPrefix(ids, Upload(net, ids, budget, sent).verdict, Upload(net, ids, budget, sent).settled)
    decreases |ids|, 1
  {
    if |ids| > 1 && budget > 0 {
      HalvesSettlePrefix(net, ids, budget - 1, sent + 1);
    }
  }

  lemma {:induction false} HalvesSettlePrefix(net: Network, ids: seq<nat>, budget: nat, sent: nat)
    requires |ids| > 1
    ensures var r := UploadHalves(net, ids, budget, sent); SettlesPrefix(ids, r.verdict, r.settled)
    decreases |ids|, 0
  {
    var mid := |ids| / 2;
    var left := Upload(net, ids[..mid], budget, sent);
    UploadSettlesPrefix(net, ids[..mid], budget, sent);
    if left.verdict == Resolved {
      var right := Upload(net, ids[mid..], budget - left.requests, sent + left.requests);
      UploadSettlesPrefix(net, ids[mid..], budget - left.requests, sent + left.requests);
      PrefixesJoin(ids, mid, left.settled, right.verdict, right.settled);
    }
    assert ids[..mid][..|left.settled|] == ids[..|left.settled|];
  }

  // ----- the requests that are sent -----

  /** The rows of each request, in the order of sending. */
  function Asked(net: Network, ids: seq<nat>, budget: nat, sent: nat): seq<seq<nat>>
    requires ids != []
    decreases |ids|, 1
  {
    if budget == 0 || net.late(sent) then []
    else if net.reply(sent, ids) != InvalidRows || |ids| == 1 then [ids]
    else [ids] + AskedHalves(net, ids, budget - 1, sent + 1)
  }

  function AskedHalves(net: Network, ids: seq<nat>, budget: nat, sent: nat): seq<seq<nat>>
    requires |ids| > 1
    decreases |ids|, 0
  {
    var left := Upload(net, ids[..|ids| / 2], budget, sent);
    var first := Asked(net, ids[..|ids| / 2], budget, sent);
    if left.verdict != Resolved then first
    else first + Asked(net, ids[|ids| / 2..], budget - left.requests, sent + left.requests)
  }

  lemma {:induction false} AskedCounts(net: Network, ids: seq<nat>, budget: nat, sent: nat)
    requires ids != []
    ensures |Asked(net, ids, budget, sent)| == Upload(net, ids, budget, sent).requests
    decreases |ids|, 1
  {
    if budget > 0 && |ids| > 1 {
      AskedHalvesCount(net, ids, budget - 1, sent + 1);
    }
  }

  lemma {:induction false} AskedHalvesCount(net: Network, ids: seq<nat>, budget: nat, sent: nat)
    requires |ids| > 1
    ensures |AskedHalves(net, ids, budget, sent)| == UploadHalves(net, ids, budget, sent).requests
    decreases |ids|, 0
  {
    var left := Upload(net, ids[..|ids| / 2], budget, sent);
    AskedCounts(net, ids[..|ids| / 2], budget, sent);
    AskedCounts(net, ids[|ids| / 2..], budget - left.requests, sent + left.requests);
  }

  /** A request of some of the batch's rows. */
  ghost predicate PartOf(request: seq<nat>, ids: seq<nat>) {
    0 < |request| <= |ids| && forall k :: 0 <= k < |request| ==> request[k] in ids
  }

  ghost predicate AllParts(requests: seq<seq<nat>>, ids: seq<nat>) {
    forall i :: 0 <= i < |requests| ==> PartOf(requests[i], ids)
  }

  lemma PartsOfPart(requests: seq<seq<nat>>, ids: seq<nat>, lo: nat, hi: nat)
    requires lo <= hi <= |ids| && AllParts(requests, ids[lo..hi])
    ensures AllParts(requests, ids)
  {
    forall i | 0 <= i < |requests| ensures PartOf(requests[i], ids) {
      assert PartOf(requests[i], ids[lo..hi]);
      forall k | 0 <= k < |requests[i]| ensures requests[i][k] in ids {
        assert requests[i][k] in ids[lo..hi];
      }
    }
  }

  lemma {:induction false} AskedAreParts(net: Network, ids: seq<nat>, budget: nat, sent: nat)
    requires ids != []
    ensures AllParts(Asked(net, ids, budget, sent), ids)
    decreases |ids|, 1
  {
    if budget > 0 && |ids| > 1 {
      AskedHalvesAreParts(net, ids, budget - 1, sent + 1);
    }
  }

  lemma {:induction false} AskedHalvesAreParts(net: Network, ids: seq<nat>, budget: nat, sent: nat)
    requires |ids| > 1
    ensures AllParts(AskedHalves(net, ids, budget, sent), ids)
    decreases |ids|, 0
  {
    var mid := |ids| / 2;
    var left := Upload(net, ids[..mid], budget, sent);
    AskedAreParts(net, ids[..mid], budget, sent);
    assert ids[..mid] == ids[0..mid];
    PartsOfPart(Asked(net, ids[..mid], budget, sent), ids, 0, mid);
    if left.verdict == Resolved {
      var right := Asked(net, ids[mid..], budget - left.requests, sent + left.requests);
      AskedAreParts(net, ids[mid..], budget - left.requests, sent + left.requests);
      assert ids[mid..] == ids[mid..|ids|];
      PartsOfPart(right, ids, mid, |ids|);
    }
  }

  // ----- why a row is settled -----

  /** The server's answer to this request settles the row so: it acknowledges all of the request, or
      it refuses the whole claim or this row alone. */
  ghost predicate Decides(net: Network, request: seq<nat>, n: nat, s: Settlement) {
    s.id in request &&
    match s
    case Synced(_) => FullyAcknowledged(net.reply(n, request), |request|)
    case Quarantined(_) =>
      net.reply(n, request) == ClaimMismatch || (|request| == 1 && net.reply(n, request) == InvalidRows)
  }

  ghost predicate DecidedAt(net: Network, asked: seq<seq<nat>>, sent: nat, i: nat, s: Settlement) {
    i < |asked| && Decides(net, asked[i], sent + i, s)
  }

  /** One of these requests, the first of which is number `sent`, settles the row. */
  ghost predicate Justified(net: Network, asked: seq<seq<nat>>, sent: nat, s: Settlement) {
    exists i: nat :: DecidedAt(net, asked, sent, i, s)
  }

  lemma JustifiedLater(net: Network, first: seq<seq<nat>>, asked: seq<seq<nat>>, sent: nat, s: Settlement)
    requires Justified(net, asked, sent + |first|, s)
    ensures Justified(net, first + asked, sent, s)
  {
    var i: nat :| DecidedAt(net, asked, sent + |first|, i, s);
    assert DecidedAt(net, first + asked, sent, |first| + i, s);
  }

  lemma JustifiedEarlier(net: Network, asked: seq<seq<nat>>, rest: seq<seq<nat>>, sent: nat, s: Settlement)
    requires Justified(net, asked, sent, s)
    ensures Justified(net, asked + rest, sent, s)
  {
    var i: nat :| DecidedAt(net, asked, sent, i, s);
    assert DecidedAt(net, asked + rest, sent, i, s);
  }

  lemma WholeBatchJustified(net: Network, ids: seq<nat>, budget: nat, sent: nat, s: Settlement)
    requires ids != [] && s in Upload(net, ids, budget, sent).settled
    requires net.reply(sent, ids) != InvalidRows || |ids| == 1
    ensures Justified(net, Asked(net, ids, budget, sent), sent, s)
  {
    assert s.id in ids;
    assert DecidedAt(net, Asked(net, ids, budget, sent), sent, 0, s);
  }

  /** A row counts as synced only because a request that was sent with it was acknowledged in full,
      and is quarantined only because one was refused for its claim or for this row alone. */
  lemma {:induction false} SettledForAReason(net: Network, ids: seq<nat>, budget: nat, sent: nat, s: Settlement)
    requires ids != [] && s in Upload(net, ids, budget, sent).settled
    ensures Justified(net, Asked(net, ids, budget, sent), sent, s)
    decreases |ids|, 1
  {
    if net.reply(sent, ids) != InvalidRows || |ids| == 1 {
      WholeBatchJustified(net, ids, budget, sent, s);
    } else {
      HalvesSettleForAReason(net, ids, budget - 1, sent + 1, s);
      JustifiedLater(net, [ids], AskedHalves(net, ids, budget - 1, sent + 1), sent, s);
    }
  }

  lemma {:induction false} HalvesSettleForAReason(net: Network, ids: seq<nat>, budget: nat, sent: nat, s: Settlement)
    requires |ids| > 1 && s in UploadHalves(net, ids, budget, sent).settled
    ensures Justified(net, AskedHalves(net, ids, budget, sent), sent, s)
    decreases |ids|, 0
  {
    var mid := |ids| / 2;
    var left := Upload(net, ids[..mid], budget, sent);
    var first := Asked(net, ids[..mid], budget, sent);
    var second := Asked(net, ids[mid..], budget - left.requests, sent + left.requests);
    AskedCounts(net, ids[..mid], budget, sent);
    if s in left.settled {
      SettledForAReason(net, ids[..mid], budget, sent, s);
      JustifiedEarlier(net, first, second, sent, s);
    } else {
      SettledForAReason(net, ids[mid..], budget - left.requests, sent + left.requests, s);
      JustifiedLater(net, first, second, sent, s);
    }
  }

  // ----- what isolation costs -----

  predicate AnyBad(ids: seq<nat>, bad: set<nat>) {
    exists i :: 0 <= i < |ids| && ids[i] in bad
  }

  /** Requests of at most `size` of these rows. */
  ghost predicate Within(ids: seq<nat>, rows: set<nat>, size: nat) {
    0 < |ids| <= size && forall i :: 0 <= i < |ids| ==> ids[i] in rows
  }

  /** For these rows the server rejects a request exactly when one of its rows is bad, and nothing
      gets lost. */
  ghost predicate Reliable(net: Network, bad: set<nat>, rows: set<nat>, size: nat) {
    && (forall n :: !net.late(n))
    && (forall n, ids :: Within(ids, rows, size) ==> Answers(net, n, ids, bad))
  }

  ghost predicate Answers(net: Network, n: nat, ids: seq<nat>, bad: set<nat>) {
    if AnyBad(ids, bad) then net.reply(n, ids) == InvalidRows
    else FullyAcknowledged(net.reply(n, ids), |ids|)
  }

  function Requests(ids: seq<nat>, bad: set<nat>): nat
    decreases |ids|
  {
    if !AnyBad(ids, bad) || |ids| <= 1 then 1
    else 1 + Requests(ids[..|ids| / 2], bad) + Requests(ids[|ids| / 2..], bad)
  }

  function Sorted(ids: seq<nat>, bad: set<nat>): seq<Settlement> {
    seq(|ids|, i requires 0 <= i < |ids| => if ids[i] in bad then Quarantined(ids[i]) else Synced(ids[i]))
  }

  lemma SortedSplits(ids: seq<nat>, bad: set<nat>, mid: nat)
    requires mid <= |ids|
    ensures Sorted(ids, bad) == Sorted(ids[..mid], bad) + Sorted(ids[mid..], bad)
  {
  }

  ghost predicate Isolates(r: Result, budget: nat, sorted: seq<Settlement>, cost: nat) {
    if cost <= budget then r == Result(Resolved, sorted, cost)
    else r.verdict == Stopped && r.requests == budget
  }

  lemma UnsplitIsolation(net: Network, ids: seq<nat>, budget: nat, sent: nat, bad: set<nat>)
    requires ids != [] && !net.late(sent) && Answers(net, sent, ids, bad) && (!AnyBad(ids, bad) || |ids| == 1)
    ensures Isolates(Upload(net, ids, budget, sent), budget, Sorted(ids, bad), Requests(ids, bad))
  {
    if !AnyBad(ids, bad) {
      assert AllSynced(ids) == Sorted(ids, bad);
    } else {
      assert Sorted(ids, bad) == [Quarantined(ids[0])];
    }
  }

  lemma RequestsOfSplit(ids: seq<nat>, bad: set<nat>)
    requires |ids| > 1 && AnyBad(ids, bad)
    ensures Requests(ids, bad) == 1 + Requests(ids[..|ids| / 2], bad) + Requests(ids[|ids| / 2..], bad)
  {
  }

  /** Isolation in turn: a first part that gives up has spent the whole budget. */
  lemma IsolationsAdd(left: Result, right: Result, budget: nat, a: seq<Settlement>, b: seq<Settlement>, m: nat, n: nat)
    requires Isolates(left, budget, a, m) && left.requests <= budget
    requires left.verdict == Resolved ==> Isolates(right, budget - left.requests, b, n)
    ensures Isolates(if left.verdict != Resolved then left else InTurn(left, right), budget, a + b, m + n)
  {
  }

  lemma {:induction false} HalvesIsolate(
    net: Network, ids: seq<nat>, budget: nat, sent: nat, bad: set<nat>, rows: set<nat>, size: nat)
    requires |ids| > 1 && Reliable(net, bad, rows, size) && Within(ids, rows, size) && AnyBad(ids, bad)
    ensures Isolates(UploadHalves(net, ids, budget, sent), budget, Sorted(ids, bad), Requests(ids, bad) - 1)
    decreases |ids|, 0
  {
    var mid := |ids| / 2;
    var left := Upload(net, ids[..mid], budget, sent);
    var right := Upload(net, ids[mid..], budget - left.requests, sent + left.requests);
    IsolationIsExact(net, ids[..mid], budget, sent, bad, rows, size);
    IsolationIsExact(net, ids[mid..], budget - left.requests, sent + left.requests, bad, rows, size);
    IsolationsAdd(left, right, budget, Sorted(ids[..mid], bad), Sorted(ids[mid..], bad),
                  Requests(ids[..mid], bad), Requests(ids[mid..], bad));
    RequestsOfSplit(ids, bad);
    SortedSplits(ids, bad, mid);
  }

  /** With enough budget every bad row is quarantined and every good one synced, at exactly this
      cost; with less, the whole budget is spent before the upload gives up. */
  lemma {:induction false} IsolationIsExact(
    net: Network, ids: seq<nat>, budget: nat, sent: nat, bad: set<nat>, rows: set<nat>, size: nat)
    requires Reliable(net, bad, rows, size) && Within(ids, rows, size)
    ensures Isolates(Upload(net, ids, budget, sent), budget, Sorted(ids, bad), Requests(ids, bad))
    decreases |ids|, 1
  {
    assert Answers(net, sent, ids, bad);
    if !AnyBad(ids, bad) || |ids| == 1 {
      UnsplitIsolation(net, ids, budget, sent, bad);
    } else if budget > 0 {
      HalvesIsolate(net, ids, budget - 1, sent + 1, bad, rows, size);
    }
  }

  function CountBad(ids: seq<nat>, bad: set<nat>): nat {
    if ids == [] then 0
    else CountBad(ids[..|ids| - 1], bad) + (if ids[|ids| - 1] in bad then 1 else 0)
  }

  lemma {:induction false} CountBadSplits(ids: seq<nat>, bad: set<nat>, mid: nat)
    requires mid <= |ids|
    ensures CountBad(ids, bad) == CountBad(ids[..mid], bad) + CountBad(ids[mid..], bad)
    decreases |ids|
  {
    if mid == |ids| {
      assert ids[..mid] == ids && ids[mid..] == [];
    } else {
      CountBadSplits(ids[..|ids| - 1], bad, mid);
      assert ids[..|ids| - 1][..mid] == ids[..mid];
      assert ids[..|ids| - 1][mid..] == ids[mid..][..|ids| - mid - 1];
    }
  }

  lemma {:induction false} AnyBadCounts(ids: seq<nat>, bad: set<nat>)
    ensures AnyBad(ids, bad) <==> CountBad(ids, bad) > 0
  {
    if ids != [] {
      var last := |ids| - 1;
      AnyBadCounts(ids[..last], bad);
      if i :| 0 <= i < |ids| && ids[i] in bad {
        assert i < last ==> ids[..last][i] in bad;
      }
    }
  }

  /** The base-two logarithm, rounded up. */
  function Levels(n: nat): nat {
    if n <= 1 then 0 else 1 + Levels((n + 1) / 2)
  }

  function PowerOfTwo(n: nat): nat {
    if n == 0 then 1 else 2 * PowerOfTwo(n - 1)
  }

  lemma {:induction false} LevelsIsLogarithm(n: nat)
    requires n > 1
    ensures PowerOfTwo(Levels(n) - 1) < n <= PowerOfTwo(Levels(n))
  {
    var m := (n + 1) / 2;
    var below := Levels(m);
    assert Levels(n) == below + 1;
    assert PowerOfTwo(below + 1) == 2 * PowerOfTwo(below);
    if m > 1 {
      LevelsIsLogarithm(m);
    }
  }

  lemma {:induction false} LevelsMonotone(m: nat, n: nat)
    requires m <= n
    ensures Levels(m) <= Levels(n)
  {
    if m > 1 {
      LevelsMonotone((m + 1) / 2, (n + 1) / 2);
    }
  }

  function Min(a: nat, b: nat): nat {
    if a < b then a else b
  }

  /** How many batches can be split when `bad` rows are spread over `levels` levels, the first of
      which has `width` batches. */
  function Splits(bad: nat, width: nat, levels: nat): nat
    decreases levels
  {
    if levels == 0 then 0 else Min(bad, width) + Splits(bad, 2 * width, levels - 1)
  }

  lemma {:induction false} SplitsCombine(a: nat, b: nat, width: nat, levels: nat)
    ensures Splits(a, width, levels) + Splits(b, width, levels) <= Splits(a + b, 2 * width, levels)
    decreases levels
  {
    if levels > 0 {
      SplitsCombine(a, b, 2 * width, levels - 1);
    }
  }

  lemma {:induction false} SplitsMonotone(a: nat, b: nat, width: nat, m: nat, n: nat)
    requires a <= b && m <= n
    ensures Splits(a, width, m) <= Splits(b, width, n)
    decreases m
  {
    if m > 0 {
      SplitsMonotone(a, b, 2 * width, m - 1, n - 1);
    }
  }

  lemma {:induction false} SplitsAtMost(bad: nat, width: nat, levels: nat)
    ensures Splits(bad, width, levels) <= bad * levels
    decreases levels
  {
    if levels > 0 {
      SplitsAtMost(bad, 2 * width, levels - 1);
      assert bad * levels == bad + bad * (levels - 1);
    }
  }

  lemma SplitsOfHalves(n: nat, left: nat, right: nat)
    requires n > 1 && left + right > 0
    ensures 1 + Splits(left, 1, Levels(n / 2)) + Splits(right, 1, Levels(n - n / 2)) <=
            Splits(left + right, 1, Levels(n))
  {
    var below := Levels((n + 1) / 2);
    LevelsMonotone(n / 2, (n + 1) / 2);
    SplitsMonotone(left, left, 1, Levels(n / 2), below);
    SplitsCombine(left, right, 1, below);
    assert Splits(left + right, 1, below + 1) == 1 + Splits(left + right, 2, below);
  }

  /** One request, and two more for each batch that has to be split. */
  lemma {:induction false} RequestsAtMostTwicePerSplit(ids: seq<nat>, bad: set<nat>)
    ensures Requests(ids, bad) <= 1 + 2 * Splits(CountBad(ids, bad), 1, Levels(|ids|))
    decreases |ids|
  {
    if AnyBad(ids, bad) && |ids| > 1 {
      var mid := |ids| / 2;
      AnyBadCounts(ids, bad);
      CountBadSplits(ids, bad, mid);
      RequestsAtMostTwicePerSplit(ids[..mid], bad);
      RequestsAtMostTwicePerSplit(ids[mid..], bad);
      SplitsOfHalves(|ids|, CountBad(ids[..mid], bad), CountBad(ids[mid..], bad));
    }
  }

  /** A batch of n rows, k of them bad, costs at most 1 + 2 * k * ceil(log2 n) requests. */
  lemma RequestBound(ids: seq<nat>, bad: set<nat>)
    ensures Requests(ids, bad) <= 1 + 2 * (CountBad(ids, bad) * Levels(|ids|))
  {
    RequestsAtMostTwicePerSplit(ids, bad);
    SplitsAtMost(CountBad(ids, bad), 1, Levels(|ids|));
  }

  lemma SixBadRowsCost(ids: seq<nat>, bad: set<nat>)
    requires |ids| <= BATCH_SIZE && CountBad(ids, bad) <= 6
    ensures Requests(ids, bad) <= REQUESTS_PER_CYCLE
  {
    RequestsAtMostTwicePerSplit(ids, bad);
    LevelsMonotone(|ids|, BATCH_SIZE);
    assert Levels(100) == 7;
    SplitsMonotone(CountBad(ids, bad), 6, 1, Levels(|ids|), 7);
    assert Splits(6, 1, 7) == 31;
  }

  /** A full batch with up to six bad rows fits the budget of one cycle: all good rows are synced
      and all bad rows quarantined. */
  lemma SixBadRowsFitTheBudget(
    net: Network, ids: seq<nat>, sent: nat, bad: set<nat>, rows: set<nat>, size: nat)
    requires Reliable(net, bad, rows, size) && Within(ids, rows, size)
    requires |ids| <= BATCH_SIZE && CountBad(ids, bad) <= 6
    ensures Upload(net, ids, REQUESTS_PER_CYCLE, sent) == Result(Resolved, Sorted(ids, bad), Requests(ids, bad))
  {
    SixBadRowsCost(ids, bad);
    IsolationIsExact(net, ids, REQUESTS_PER_CYCLE, sent, bad, rows, size);
  }

  // ----- when rows may turn good along the way -----

  ghost predicate AnswersWithin(net: Network, n: nat, ids: seq<nat>, bad: set<nat>) {
    || FullyAcknowledged(net.reply(n, ids), |ids|)
    || (net.reply(n, ids) == InvalidRows && AnyBad(ids, bad))
  }

  /** A request is rejected only if one of its rows is among these bad ones, and nothing gets lost. */
  ghost predicate Patient(net: Network, bad: set<nat>, rows: set<nat>, size: nat) {
    && (forall n :: !net.late(n))
    && (forall n, ids :: Within(ids, rows, size) ==> AnswersWithin(net, n, ids, bad))
  }

  lemma {:induction false} HalvesResolve(
    net: Network, ids: seq<nat>, budget: nat, sent: nat, bad: set<nat>, rows: set<nat>, size: nat)
    requires |ids| > 1 && Patient(net, bad, rows, size) && Within(ids, rows, size) && AnyBad(ids, bad)
    requires Requests(ids, bad) - 1 <= budget
    ensures var r := UploadHalves(net, ids, budget, sent);
            r.verdict == Resolved && r.requests <= Requests(ids, bad) - 1
    decreases |ids|, 0
  {
    var mid := |ids| / 2;
    var left := Upload(net, ids[..mid], budget, sent);
    RequestsOfSplit(ids, bad);
    UploadResolves(net, ids[..mid], budget, sent, bad, rows, size);
    UploadResolves(net, ids[mid..], budget - left.requests, sent + left.requests, bad, rows, size);
  }

  /** With budget for these bad rows every row is settled, also if some of them turn good. */
  lemma {:induction false} UploadResolves(
    net: Network, ids: seq<nat>, budget: nat, sent: nat, bad: set<nat>, rows: set<nat>, size: nat)
    requires Patient(net, bad, rows, size) && Within(ids, rows, size) && Requests(ids, bad) <= budget
    ensures var r := Upload(net, ids, budget, sent);
            r.verdict == Resolved && r.requests <= Requests(ids, bad)
    decreases |ids|, 1
  {
    assert AnswersWithin(net, sent, ids, bad);
    if AnyBad(ids, bad) && |ids| > 1 {
      HalvesResolve(net, ids, budget - 1, sent + 1, bad, rows, size);
    }
  }

  // ----- seven bad rows can exceed the budget -----

  function Numbers(lo: nat, hi: nat): seq<nat>
    requires lo <= hi
  {
    seq(hi - lo, i requires 0 <= i < hi - lo => lo + i)
  }

  /** What a stretch of consecutive rows costs. */
  ghost predicate Costs(lo: nat, hi: nat, bad: set<nat>, n: nat) {
    lo <= hi && Requests(Numbers(lo, hi), bad) == n
  }

  /** A stretch with the bad row `b` costs one request and its two halves. */
  lemma HalvesCost(lo: nat, mid: nat, hi: nat, bad: set<nat>, b: nat, m: nat, n: nat)
    requires lo + 1 < hi && mid == lo + (hi - lo) / 2 && b in bad && lo <= b < hi
    requires Costs(lo, mid, bad, m) && Costs(mid, hi, bad, n)
    ensures Costs(lo, hi, bad, 1 + m + n)
  {
    var ids := Numbers(lo, hi);
    assert ids[..|ids| / 2] == Numbers(lo, mid) && ids[|ids| / 2..] == Numbers(mid, hi);
    assert ids[b - lo] in bad;
  }

  lemma UnsplitCosts(lo: nat, hi: nat, bad: set<nat>)
    requires lo < hi && (hi == lo + 1 || forall b :: b in bad ==> b < lo || hi <= b)
    ensures Costs(lo, hi, bad, 1)
  {
    if AnyBad(Numbers(lo, hi), bad) {
      var i :| 0 <= i < hi - lo && Numbers(lo, hi)[i] in bad;
      assert hi == lo + 1;
    }
  }

  /** A stretch of 12 or 13 rows whose second row alone is bad is split four times. */
  lemma EighthCosts(lo: nat, n: nat, bad: set<nat>)
    requires n == 12 || n == 13
    requires lo + 1 in bad && forall b :: b in bad && b != lo + 1 ==> b < lo || lo + n <= b
    ensures Costs(lo, lo + n, bad, 9)
  {
    UnsplitCosts(lo, lo + 1, bad);
    UnsplitCosts(lo + 1, lo + 2, bad);
    UnsplitCosts(lo + 2, lo + 3, bad);
    UnsplitCosts(lo + 3, lo + 6, bad);
    UnsplitCosts(lo + 6, lo + n, bad);
    HalvesCost(lo + 1, lo + 2, lo + 3, bad, lo + 1, 1, 1);
    HalvesCost(lo, lo + 1, lo + 3, bad, lo + 1, 1, 3);
    HalvesCost(lo, lo + 3, lo + 6, bad, lo + 1, 5, 1);
    HalvesCost(lo, lo + 6, lo + n, bad, lo + 1, 7, 1);
  }

  function SevenBad(): set<nat> {
    {1, 13, 26, 38, 51, 63, 76}
  }

  lemma QuarterCosts(lo: nat, bad: set<nat>)
    requires lo == 0 || lo == 25 || lo == 50
    requires bad == SevenBad()
    ensures Costs(lo, lo + 25, bad, 19)
  {
    assert lo + 1 in bad && lo + 13 in bad;
    EighthCosts(lo, 12, bad);
    EighthCosts(lo + 12, 13, bad);
    HalvesCost(lo, lo + 12, lo + 25, bad, lo + 1, 9, 9);
  }

  lemma LastQuarterCosts(lo: nat, bad: set<nat>)
    requires lo == 75 && bad == SevenBad()
    ensures Costs(lo, lo + 25, bad, 11)
  {
    assert lo + 1 in bad;
    EighthCosts(lo, 12, bad);
    UnsplitCosts(lo + 12, lo + 25, bad);
    HalvesCost(lo, lo + 12, lo + 25, bad, lo + 1, 9, 1);
  }

  lemma SevenBadCost(lo: nat, bad: set<nat>)
    requires lo == 0 && bad == SevenBad()
    ensures Costs(lo, lo + 100, bad, 71)
  {
    assert lo + 1 in bad && lo + 51 in bad;
    QuarterCosts(lo, bad);
    QuarterCosts(lo + 25, bad);
    QuarterCosts(lo + 50, bad);
    LastQuarterCosts(lo + 75, bad);
    HalvesCost(lo, lo + 25, lo + 50, bad, lo + 1, 19, 19);
    HalvesCost(lo + 50, lo + 75, lo + 100, bad, lo + 51, 19, 11);
    HalvesCost(lo, lo + 50, lo + 100, bad, lo + 1, 39, 31);
  }

  lemma {:induction false} CountBadNumbers(lo: nat, hi: nat, bad: set<nat>)
    requires lo <= hi
    ensures CountBad(Numbers(lo, hi), bad) == |set b | b in bad && lo <= b < hi|
  {
    var inside := set b | b in bad && lo <= b < hi;
    if lo < hi {
      var less := set b | b in bad && lo <= b < hi - 1;
      CountBadNumbers(lo, hi - 1, bad);
      assert Numbers(lo, hi)[..hi - lo - 1] == Numbers(lo, hi - 1);
      assert inside == less + (if hi - 1 in bad then {hi - 1} else {});
    }
  }

  /** Six is the most that always fits: a full batch with these seven bad rows exhausts the budget
      of a cycle and is given up. */
  lemma SevenBadRowsCanExceed(net: Network, sent: nat, rows: set<nat>, size: nat)
    requires Reliable(net, SevenBad(), rows, size) && Within(Numbers(0, BATCH_SIZE), rows, size)
    ensures CountBad(Numbers(0, BATCH_SIZE), SevenBad()) == 7
    ensures Requests(Numbers(0, BATCH_SIZE), SevenBad()) > REQUESTS_PER_CYCLE
    ensures var r := Upload(net, Numbers(0, BATCH_SIZE), REQUESTS_PER_CYCLE, sent);
            r.verdict == Stopped && r.requests == REQUESTS_PER_CYCLE
  {
    SevenBadCost(0, SevenBad());
    CountBadNumbers(0, 100, SevenBad());
    assert (set b | b in SevenBad() && 0 <= b < 100) == SevenBad();
    IsolationIsExact(net, Numbers(0, 100), REQUESTS_PER_CYCLE, sent, SevenBad(), rows, size);
  }

  // ----- the queue -----

  ghost function SyncedIn(settled: seq<Settlement>): set<nat> {
    set s | s in settled && s.Synced? :: s.id
  }

  ghost function QuarantinedIn(settled: seq<Settlement>): set<nat> {
    set s | s in settled && s.Quarantined? :: s.id
  }

  ghost predicate Distinct(ids: seq<nat>) {
    forall i, j :: 0 <= i < j < |ids| ==> ids[i] != ids[j]
  }

  ghost predicate Open(ids: seq<nat>, synced: set<nat>, rejected: set<nat>) {
    forall i :: 0 <= i < |ids| ==> ids[i] !in synced && ids[i] !in rejected
  }

  lemma SettlementsAdd(a: seq<Settlement>, b: seq<Settlement>)
    ensures SyncedIn(a + b) == SyncedIn(a) + SyncedIn(b)
    ensures QuarantinedIn(a + b) == QuarantinedIn(a) + QuarantinedIn(b)
  {
  }

  lemma RightHalfStaysOpen(ids: seq<nat>, mid: nat, synced: set<nat>, rejected: set<nat>, left: seq<Settlement>)
    requires Distinct(ids) && Open(ids, synced, rejected)
    requires mid <= |ids| && SettlesPrefix(ids[..mid], Resolved, left)
    ensures Open(ids[mid..], synced + SyncedIn(left), rejected + QuarantinedIn(left))
  {
    forall i, k | mid <= i < |ids| && 0 <= k < |left| ensures left[k].id != ids[i] {
      assert Ids(left)[k] == ids[k];
    }
  }

  /** The queue and what is left of the budget, with every change of the queue and every request. */
  datatype Queue = Queue(
    budget: nat, sent: nat, synced: set<nat>, rejected: set<nat>, settled: seq<Settlement>, asked: seq<seq<nat>>)

  ghost function Settled(q: Queue, settled: seq<Settlement>): Queue {
    q.(synced := q.synced + SyncedIn(settled), rejected := q.rejected + QuarantinedIn(settled),
       settled := q.settled + settled)
  }

  /** The queue changes by exactly these settlements, and the budget by these requests. */
  ghost function After(q: Queue, r: Result, asked: seq<seq<nat>>): Queue
    requires r.requests <= q.budget
  {
    Settled(q, r.settled).(budget := q.budget - r.requests, sent := q.sent + r.requests, asked := q.asked + asked)
  }

  lemma SettledInTurn(q: Queue, a: seq<Settlement>, b: seq<Settlement>)
    ensures Settled(Settled(q, a), b) == Settled(q, a + b)
  {
    SettlementsAdd(a, b);
    assert (q.settled + a) + b == q.settled + (a + b);
  }

  lemma SettledOne(q: Queue, s: Settlement)
    ensures Settled(q, []) == q
    ensures Settled(q, [s]) == if s.Synced? then q.(synced := q.synced + {s.id}, settled := q.settled + [s])
                               else q.(rejected := q.rejected + {s.id}, settled := q.settled + [s])
  {
    assert s in [s];
  }

  lemma SettledSynced(q: Queue, ids: seq<nat>)
    ensures Settled(q, AllSynced(ids)) ==
            q.(synced := q.synced + (set id | id in ids), settled := q.settled + AllSynced(ids))
  {
    forall id ensures Synced(id) in AllSynced(ids) <==> id in ids {
      if id in ids {
        var i :| 0 <= i < |ids| && ids[i] == id;
        assert AllSynced(ids)[i] == Synced(id);
      }
    }
  }

  ghost function Uploaded(net: Network, q: Queue, ids: seq<nat>): (Queue, Verdict)
    requires ids != []
  {
    var r := Upload(net, ids, q.budget, q.sent);
    (After(q, r, Asked(net, ids, q.budget, q.sent)), r.verdict)
  }

  ghost function HalvesUploaded(net: Network, q: Queue, ids: seq<nat>): (Queue, Verdict)
    requires |ids| > 1
  {
    var r := UploadHalves(net, ids, q.budget, q.sent);
    (After(q, r, AskedHalves(net, ids, q.budget, q.sent)), r.verdict)
  }

  lemma AfterInTurn(q: Queue, left: Result, right: Result, first: seq<seq<nat>>, second: seq<seq<nat>>)
    requires left.requests + right.requests <= q.budget
    ensures After(After(q, left, first), right, second) == After(q, InTurn(left, right), first + second)
  {
    SettledInTurn(q, left.settled, right.settled);
    assert (q.asked + first) + second == q.asked + (first + second);
  }

  lemma HalvesInTurn(net: Network, q: Queue, ids: seq<nat>)
    requires |ids| > 1
    ensures var (left, verdict) := Uploaded(net, q, ids[..|ids| / 2]);
            HalvesUploaded(net, q, ids) ==
            if verdict != Resolved then (left, verdict) else Uploaded(net, left, ids[|ids| / 2..])
  {
    var mid := |ids| / 2;
    var left := Upload(net, ids[..mid], q.budget, q.sent);
    var right := Upload(net, ids[mid..], q.budget - left.requests, q.sent + left.requests);
    AfterInTurn(q, left, right, Asked(net, ids[..mid], q.budget, q.sent),
                Asked(net, ids[mid..], q.budget - left.requests, q.sent + left.requests));
  }

  /** The request for the whole batch, before it is split. */
  ghost function Requested(q: Queue, ids: seq<nat>): Queue
    requires q.budget > 0
  {
    q.(budget := q.budget - 1, sent := q.sent + 1, asked := q.asked + [ids])
  }

  lemma SplitUploads(net: Network, q: Queue, ids: seq<nat>)
    requires |ids| > 1 && q.budget > 0 && !net.late(q.sent) && net.reply(q.sent, ids) == InvalidRows
    ensures Uploaded(net, q, ids) == HalvesUploaded(net, Requested(q, ids), ids)
  {
    var halves := AskedHalves(net, ids, q.budget - 1, q.sent + 1);
    assert (q.asked + [ids]) + halves == q.asked + ([ids] + halves);
  }

  lemma NotSent(net: Network, q: Queue, ids: seq<nat>)
    requires ids != [] && (q.budget == 0 || net.late(q.sent))
    ensures Uploaded(net, q, ids) == (q, Stopped)
  {
    SettledOne(q, Synced(0));
    assert q.asked + [] == q.asked;
  }

  /** The request that decides the whole batch. */
  lemma Decided(net: Network, q: Queue, ids: seq<nat>)
    requires ids != [] && q.budget > 0 && !net.late(q.sent)
    ensures FullyAcknowledged(net.reply(q.sent, ids), |ids|) ==>
              Uploaded(net, q, ids) == (Settled(Requested(q, ids), AllSynced(ids)), Resolved)
    ensures net.reply(q.sent, ids) == Unauthorized ==>
              Uploaded(net, q, ids) == (Requested(q, ids), CredentialDenied)
    ensures net.reply(q.sent, ids) == ClaimMismatch ==>
              Uploaded(net, q, ids) == (Settled(Requested(q, ids), AllQuarantined(ids)), Resolved)
    ensures net.reply(q.sent, ids) == InvalidRows && |ids| == 1 ==>
              Uploaded(net, q, ids) == (Settled(Requested(q, ids), [Quarantined(ids[0])]), Resolved)
  {
    SettledOne(Requested(q, ids), Synced(0));
  }

  lemma Undecided(net: Network, q: Queue, ids: seq<nat>)
    requires ids != [] && q.budget > 0 && !net.late(q.sent)
    requires var reply := net.reply(q.sent, ids);
             !FullyAcknowledged(reply, |ids|) && !(reply in {Unauthorized, ClaimMismatch, InvalidRows})
    ensures Uploaded(net, q, ids) == (Requested(q, ids), Stopped)
  {
    SettledOne(Requested(q, ids), Synced(0));
  }

  lemma RightHalfIsOpen(net: Network, q: Queue, ids: seq<nat>)
    requires |ids| > 1 && Distinct(ids) && Open(ids, q.synced, q.rejected)
    ensures var (left, verdict) := Uploaded(net, q, ids[..|ids| / 2]);
            verdict == Resolved ==> Distinct(ids[|ids| / 2..]) && Open(ids[|ids| / 2..], left.synced, left.rejected)
  {
    var left := Upload(net, ids[..|ids| / 2], q.budget, q.sent);
    if left.verdict == Resolved {
      UploadSettlesPrefix(net, ids[..|ids| / 2], q.budget, q.sent);
      RightHalfStaysOpen(ids, |ids| / 2, q.synced, q.rejected, left.settled);
    }
  }

  /** The kiosk's queue during one cycle. */
  class Uploader {
    const net: Network
    var budget: nat
    var sent: nat
    var synced: set<nat>
    var rejected: set<nat>
    /** Every change of the queue, in order. */
    ghost var settled: seq<Settlement>
    /** The rows of every request, in order. */
    ghost var asked: seq<seq<nat>>

    constructor (net: Network, budget: nat, synced: set<nat>, rejected: set<nat>)
      ensures this.net == net && this.budget == budget && sent == 0
      ensures this.synced == synced && this.rejected == rejected && settled == [] && asked == []
    {
      this.net, this.budget, this.synced, this.rejected := net, budget, synced, rejected;
      sent, settled, asked := 0, [], [];
    }

    ghost function State(): Queue
      reads this
    {
      Queue(budget, sent, synced, rejected, settled, asked)
    }

    /** Rows that are synced or already in quarantine cannot be quarantined. */
    method RejectAttendance(id: nat)
      requires id !in synced && id !in rejected
      modifies this`rejected, this`settled
      ensures State() == Settled(old(State()), [Quarantined(id)])
      ensures rejected == old(rejected) + {id}
    {
      SettledOne(State(), Quarantined(id));
      rejected := rejected + {id};
      settled := settled + [Quarantined(id)];
    }

    method MarkSynced(ids: seq<nat>)
      modifies this`synced, this`settled
      ensures State() == Settled(old(State()), AllSynced(ids))
    {
      SettledSynced(State(), ids);
      synced := synced + set id | id in ids :: id;
      settled := settled + AllSynced(ids);
    }

    method UploadAttendance(ids: seq<nat>) returns (verdict: Verdict)
      requires ids != [] && Distinct(ids) && Open(ids, synced, rejected)
      modifies this`budget, this`sent, this`synced, this`rejected, this`settled, this`asked
      ensures (State(), verdict) == Uploaded(net, old(State()), ids)
      decreases |ids|, 1
    {
      ghost var before := State();
      if budget == 0 || net.late(sent) {
        NotSent(net, before, ids);
        return Stopped;
      }
      var response := net.reply(sent, ids);
      budget, sent, asked := budget - 1, sent + 1, asked + [ids];
      Decided(net, before, ids);
      if FullyAcknowledged(response, |ids|) {
        MarkSynced(ids);
        return Resolved;
      }
      if response == Unauthorized {
        return CredentialDenied;
      }
      if response == ClaimMismatch {
        QuarantineAll(ids);
        return Resolved;
      }
      if response != InvalidRows {
        Undecided(net, before, ids);
        return Stopped;
      }
      if |ids| == 1 {
        RejectAttendance(ids[0]);
        return Resolved;
      }
      verdict := SplitAndUpload(ids);
      SplitUploads(net, before, ids);
    }

    method SplitAndUpload(ids: seq<nat>) returns (verdict: Verdict)
      requires |ids| > 1 && Distinct(ids) && Open(ids, synced, rejected)
      modifies this`budget, this`sent, this`synced, this`rejected, this`settled, this`asked
      ensures (State(), verdict) == HalvesUploaded(net, old(State()), ids)
      decreases |ids|, 0
    {
      var mid := |ids| / 2;
      HalvesInTurn(net, State(), ids);
      RightHalfIsOpen(net, State(), ids);
      verdict := UploadAttendance(ids[..mid]);
      if verdict == Resolved {
        verdict := UploadAttendance(ids[mid..]);
      }
    }

    method QuarantineAll(ids: seq<nat>)
      requires Distinct(ids) && Open(ids, synced, rejected)
      modifies this`rejected, this`settled
      ensures State() == Settled(old(State()), AllQuarantined(ids))
    {
      SettledOne(State(), Synced(0));
      var n := 0;
      while n < |ids|
        invariant 0 <= n <= |ids|
        invariant State() == Settled(old(State()), AllQuarantined(ids[..n]))
        invariant rejected == old(rejected) + set i | 0 <= i < n :: ids[i]
      {
        RejectAttendance(ids[n]);
        assert AllQuarantined(ids[..n + 1]) == AllQuarantined(ids[..n]) + [Quarantined(ids[n])];
        SettledInTurn(old(State()), AllQuarantined(ids[..n]), [Quarantined(ids[n])]);
        n := n + 1;
      }
      assert ids[..n] == ids;
    }
  }
}
