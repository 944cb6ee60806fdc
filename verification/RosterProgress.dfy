/** Progress: a sync that nothing disturbs completes, and leaves exactly the server's templates. */
module RosterProgress {
  import opened Options
  import opened RosterServer
  import opened RosterProtocol
  import opened RosterProofs

  // ----- receipts -----

  /** A kiosk's last acknowledged receipt is not handed out again. */
  ghost predicate Spent(s: Server) {
    forall k: nat :: k < |s.kiosks| && s.kiosks[k].lastReceipt.Some? ==>
      s.kiosks[k].lastReceipt.value < s.nextReceipt && s.kiosks[k].lastReceipt.value !in s.receipts
  }

  ghost predicate OnePendingEach(s: Server) {
    forall r, q :: r in s.receipts && q in s.receipts && s.receipts[r].kiosk == s.receipts[q].kiosk ==> r == q
  }

  ghost predicate ReceiptsNumbered(s: Server) {
    forall r :: r in s.receipts ==> r < s.nextReceipt
  }

  ghost predicate Orderly(s: Server) {
    Spent(s) && OnePendingEach(s) && ReceiptsNumbered(s)
  }

  lemma {:induction false} CommitAllKeepsReceipts(s: System, ids: seq<nat>)
    requires forall i :: 0 <= i < |ids| ==> ids[i] < |s.server.workers|
    ensures var t := CommitAll(s, ids).server;
            t.kiosks == s.server.kiosks && t.receipts == s.server.receipts && t.nextReceipt == s.server.nextReceipt
    decreases |ids|
  {
    if ids != [] {
      CommitAllKeepsReceipts(s, ids[..|ids| - 1]);
    }
  }

  lemma IssueKeepsOrder(s: Server, k: nat)
    requires Orderly(s) && k < |s.kiosks|
    ensures Orderly(IssueRosterReceipt(s, k).0)
  {
  }

  lemma AcknowledgeKeepsOrder(s: Server, k: nat, r: nat, clockAllows: bool)
    requires Orderly(s) && k < |s.kiosks|
    ensures Orderly(Acknowledge(s, k, r, clockAllows).0)
  {
  }

  lemma StepKeepsOrder(s: System, step: Step)
    requires Shaped(s) && Orderly(s.server)
    ensures Orderly(Do(s, step).server)
  {
    match step
    case Backfill => CommitAllKeepsReceipts(s, BackfillIds(s.server));
    case Issue(k) => if k < |s.devices| { IssueKeepsOrder(s.server, k); }
    case Start(k, _) => if k < |s.devices| { IssueKeepsOrder(s.server, k); }
    case DeliverAck(k, r, clockAllows, _) =>
      if k < |s.devices| { AcknowledgeKeepsOrder(s.server, k, r, clockAllows); }
    case _ =>
  }

  /** Every kiosk has at most one pending receipt, in every reachable state. */
  lemma {:induction false} RunKeepsOrder(s: System, steps: seq<Step>)
    requires Shaped(s) && Orderly(s.server)
    ensures Orderly(Run(s, steps).server)
  {
    if steps != [] {
      RunKeepsOrder(s, steps[..|steps| - 1]);
      StepKeepsOrder(Run(s, steps[..|steps| - 1]), steps[|steps| - 1]);
    }
  }

  // ----- pages of a download -----

  lemma {:induction false} UpdatedIdsAscend(workers: seq<WorkerRow>, q: nat, counter: nat, limit: nat, i: nat, j: nat)
    requires i < j < |UpdatedIds(workers, q, counter, limit)|
    ensures var ids := UpdatedIds(workers, q, counter, limit);
            workers[ids[i]].sequence.value < workers[ids[j]].sequence.value
    decreases counter + 1 - q
  {
    match FindSequence(workers, q)
    case Some(w) =>
      if i > 0 {
        UpdatedIdsAscend(workers, q + 1, counter, limit - 1, i - 1, j - 1);
      }
    case None => UpdatedIdsAscend(workers, q + 1, counter, limit, i, j);
  }

  lemma {:induction false} LegacyIdsAscend(workers: seq<WorkerRow>, next: nat, limit: nat, i: nat, j: nat)
    requires i < j < |LegacyIds(workers, next, limit)|
    ensures LegacyIds(workers, next, limit)[i] < LegacyIds(workers, next, limit)[j]
    decreases |workers| - next
  {
    if workers[next].sequence == None {
      if i > 0 {
        LegacyIdsAscend(workers, next + 1, limit - 1, i - 1, j - 1);
      }
    } else {
      LegacyIdsAscend(workers, next + 1, limit, i, j);
    }
  }

  /** Without writes in between, the rows read so far are behind the cursor. */
  ghost predicate Behind(server: Server, cursor: Cursor, w: nat)
    requires w < |server.workers|
  {
    match cursor
    case FullScan(next) => w < next
    case Updated(after) => server.workers[w].sequence.Some? && server.workers[w].sequence.value <= after
    case Legacy(next) => server.workers[w].sequence.Some? || w < next
    case Complete => true
  }

  ghost predicate CursorOk(server: Server, cursor: Cursor) {
    && (cursor.FullScan? ==> cursor.next <= |server.workers|)
    && (cursor.Updated? ==> cursor.after <= server.counter)
  }

  ghost predicate AllBehind(server: Server, cursor: Cursor, rows: seq<Row>) {
    forall j :: 0 <= j < |rows| ==> rows[j].id < |server.workers| && Behind(server, cursor, rows[j].id)
  }

  ghost predicate Steady(server: Server, ss: Session) {
    && CursorOk(server, ss.cursor) && NoDuplicates(ss.rows) && AllBehind(server, ss.cursor, ss.rows)
  }

  /** At most this many pages are left once the server reports an exhausted query. */
  ghost function PagesLeft(server: Server, cursor: Cursor): nat
    requires CursorOk(server, cursor)
  {
    match cursor
    case FullScan(next) => 1 + |server.workers| - next
    case Updated(after) => 2 + |server.workers| + server.counter - after
    case Legacy(next) => 1 + if next < |server.workers| then |server.workers| - next else 0
    case Complete => 0
  }

  lemma PageIsDistinct(server: Server, cursor: Cursor)
    requires CursorOk(server, cursor)
    ensures NoDuplicates(ReadRows(server.workers, PageIds(server, cursor)))
  {
    var ids := PageIds(server, cursor);
    forall i: nat, j: nat | i < j < |ids| ensures ids[i] != ids[j] {
      match cursor
      case FullScan(_) =>
      case Updated(after) => UpdatedIdsAscend(server.workers, after + 1, server.counter, PAGE_SIZE, i, j);
      case Legacy(next) => LegacyIdsAscend(server.workers, next, PAGE_SIZE, i, j);
      case Complete =>
    }
  }

  /** A page holds only rows that are not behind the cursor yet. */
  lemma PageIsAhead(server: Server, cursor: Cursor, i: nat)
    requires CursorOk(server, cursor) && !cursor.Complete? && i < |PageIds(server, cursor)|
    ensures !Behind(server, cursor, PageIds(server, cursor)[i])
  {
  }

  lemma DistinctTogether(server: Server, cursor: Cursor, rows: seq<Row>, page: seq<Row>)
    requires NoDuplicates(rows) && NoDuplicates(page) && AllBehind(server, cursor, rows)
    requires forall i :: 0 <= i < |page| ==> page[i].id < |server.workers| && !Behind(server, cursor, page[i].id)
    ensures NoDuplicates(rows + page)
  {
  }

  lemma PageKeepsDistinct(server: Server, ss: Session, settled: bool)
    requires Steady(server, ss)
    ensures NoDuplicates(NextPage(server, ss, settled).rows)
  {
    if !ss.cursor.Complete? {
      var page := ReadRows(server.workers, PageIds(server, ss.cursor));
      NextPageRows(server, ss, settled);
      PageIsDistinct(server, ss.cursor);
      forall i: nat | i < |page| ensures !Behind(server, ss.cursor, page[i].id) {
        PageIsAhead(server, ss.cursor, i);
      }
      DistinctTogether(server, ss.cursor, ss.rows, page);
    }
  }

  /** The cursor after the page is beyond all that was behind it before, and beyond the page. */
  lemma CursorMoves(server: Server, ss: Session, settled: bool)
    requires CursorOk(server, ss.cursor)
    ensures var next := NextPage(server, ss, settled).cursor;
            && CursorOk(server, next)
            && PagesLeft(server, next) <= PagesLeft(server, ss.cursor)
            && (settled && !ss.cursor.Complete? ==> PagesLeft(server, next) < PagesLeft(server, ss.cursor))
            && (forall w: nat :: w < |server.workers| && Behind(server, ss.cursor, w) ==> Behind(server, next, w))
  {
  }

  lemma ScanIsPassed(server: Server, ss: Session, settled: bool, next: nat, i: nat)
    requires CursorOk(server, ss.cursor) && ss.cursor == FullScan(next) && i < |PageIds(server, ss.cursor)|
    ensures Behind(server, NextPage(server, ss, settled).cursor, PageIds(server, ss.cursor)[i])
  {
  }

  lemma UpdatedIsPassed(server: Server, ss: Session, settled: bool, after: nat, i: nat)
    requires CursorOk(server, ss.cursor) && ss.cursor == Updated(after) && i < |PageIds(server, ss.cursor)|
    ensures Behind(server, NextPage(server, ss, settled).cursor, PageIds(server, ss.cursor)[i])
  {
    var last := |PageIds(server, ss.cursor)| - 1;
    if i < last {
      UpdatedIdsAscend(server.workers, after + 1, server.counter, PAGE_SIZE, i, last);
    }
  }

  lemma LegacyIsPassed(server: Server, ss: Session, settled: bool, next: nat, i: nat)
    requires CursorOk(server, ss.cursor) && ss.cursor == Legacy(next) && i < |PageIds(server, ss.cursor)|
    ensures Behind(server, NextPage(server, ss, settled).cursor, PageIds(server, ss.cursor)[i])
  {
    var last := |PageIds(server, ss.cursor)| - 1;
    if i < last {
      LegacyIdsAscend(server.workers, next, PAGE_SIZE, i, last);
    }
  }

  lemma PageIsPassed(server: Server, ss: Session, settled: bool, i: nat)
    requires CursorOk(server, ss.cursor) && i < |PageIds(server, ss.cursor)|
    ensures Behind(server, NextPage(server, ss, settled).cursor, PageIds(server, ss.cursor)[i])
  {
    match ss.cursor
    case FullScan(next) => ScanIsPassed(server, ss, settled, next, i);
    case Updated(after) => UpdatedIsPassed(server, ss, settled, after, i);
    case Legacy(next) => LegacyIsPassed(server, ss, settled, next, i);
    case Complete =>
  }

  lemma PageKeepsSteady(server: Server, ss: Session, settled: bool)
    requires Steady(server, ss)
    ensures Steady(server, NextPage(server, ss, settled))
  {
    var tt := NextPage(server, ss, settled);
    PageKeepsDistinct(server, ss, settled);
    CursorMoves(server, ss, settled);
    NextPageRows(server, ss, settled);
    forall j: nat | j < |tt.rows| ensures tt.rows[j].id < |server.workers| && Behind(server, tt.cursor, tt.rows[j].id) {
      if j >= |ss.rows| {
        PageIsPassed(server, ss, settled, j - |ss.rows|);
      }
    }
  }

  // ----- reading all pages -----

  ghost function CountTrue(flags: seq<bool>): nat {
    if flags == [] then 0 else CountTrue(flags[..|flags| - 1]) + (if flags[|flags| - 1] then 1 else 0)
  }

  /** One read per flag, which tells whether the server reports an exhausted query as such. */
  function Pages(k: nat, flags: seq<bool>): seq<Step> {
    seq(|flags|, i requires 0 <= i < |flags| => ReadPage(k, flags[i]))
  }

  /** Only kiosk `k` differs. */
  ghost predicate OnlyDevice(s: System, t: System, k: nat)
    requires k < |s.devices|
  {
    |t.devices| == |s.devices| && t == WithDevice(s, k, t.devices[k])
  }

  /** The kiosk reads pages of the sync with this receipt. */
  ghost predicate Reading(s: System, k: nat, r: nat) {
    && k < |s.devices| && s.devices[k].session.Some?
    && s.devices[k].session.value.phase == Downloading && s.devices[k].session.value.receipt == r
    && Steady(s.server, s.devices[k].session.value)
  }

  lemma ReadMoves(s: System, k: nat, r: nat, settled: bool)
    requires Shaped(s) && Reading(s, k, r)
    ensures var t := Do(s, ReadPage(k, settled));
            && Reading(t, k, r) && OnlyDevice(s, t, k)
            && t.devices[k].session.value == NextPage(s.server, s.devices[k].session.value, settled)
  {
    PageKeepsSteady(s.server, s.devices[k].session.value, settled);
  }

  lemma OnlyDeviceTwice(s: System, t: System, u: System, k: nat)
    requires k < |s.devices| && OnlyDevice(s, t, k) && OnlyDevice(t, u, k)
    ensures OnlyDevice(s, u, k)
  {
  }

  ghost function SessionOf(s: System, k: nat): Session
    requires k < |s.devices| && s.devices[k].session.Some?
  {
    s.devices[k].session.value
  }

  /** After `n` settled pages of the sync. */
  ghost predicate ReadsOn(s: System, t: System, k: nat, r: nat, n: nat) {
    && Reading(s, k, r) && OnlyDevice(s, t, k) && Reading(t, k, r)
    && PagesLeft(t.server, SessionOf(t, k).cursor) <=
       AtLeastZero(PagesLeft(s.server, SessionOf(s, k).cursor) - n)
  }

  lemma PageProgresses(s: System, k: nat, r: nat, settled: bool)
    requires Shaped(s) && Reading(s, k, r)
    ensures ReadsOn(s, Do(s, ReadPage(k, settled)), k, r, if settled then 1 else 0)
  {
    ReadMoves(s, k, r, settled);
    CursorMoves(s.server, SessionOf(s, k), settled);
  }

  lemma ReadsOnTwice(s: System, t: System, u: System, k: nat, r: nat, m: nat, n: nat)
    requires ReadsOn(s, t, k, r, m) && ReadsOn(t, u, k, r, n)
    ensures ReadsOn(s, u, k, r, m + n)
  {
  }

  lemma {:induction false} ReadingProgresses(s: System, k: nat, r: nat, flags: seq<bool>)
    requires Shaped(s) && Reading(s, k, r)
    ensures ReadsOn(s, Run(s, Pages(k, flags)), k, r, CountTrue(flags))
  {
    if flags != [] {
      var last := |flags| - 1;
      assert Pages(k, flags)[..last] == Pages(k, flags[..last]);
      var t := Run(s, Pages(k, flags[..last]));
      ReadingProgresses(s, k, r, flags[..last]);
      PageProgresses(t, k, r, flags[last]);
      ReadsOnTwice(s, t, Do(t, ReadPage(k, flags[last])), k, r, CountTrue(flags[..last]), if flags[last] then 1 else 0);
    }
  }

  function AtLeastZero(n: int): nat {
    if n < 0 then 0 else n
  }

  // ----- applying the response -----

  /** The kiosk applies a response without duplicate rows, or has done so. */
  ghost predicate Applies(d: Device, r: nat, n: nat) {
    match d.session
    case None => d.pending == Some(r)
    case Some(ss) =>
      ss.receipt == r && NoDuplicates(ss.rows) && |ss.rows| <= n &&
      match ss.phase
      case Revoking(i) => i <= |ss.rows|
      case Applying(i) => i <= |ss.rows|
      case _ => false
  }

  ghost function StepsLeft(d: Device): nat {
    match d.session
    case None => 0
    case Some(ss) =>
      match ss.phase
      case Revoking(i) => AtLeastZero(2 * |ss.rows| + 2 - i)
      case Applying(i) => AtLeastZero(|ss.rows| + 1 - i)
      case _ => 0
  }

  lemma AdvanceProgresses(d: Device, r: nat, n: nat)
    requires Applies(d, r, n) && d.session.Some?
    ensures Applies(AdvanceDevice(d), r, n) && StepsLeft(AdvanceDevice(d)) < StepsLeft(d)
  {
  }

  function Times(step: Step, n: nat): seq<Step> {
    seq(n, i requires 0 <= i < n => step)
  }

  lemma {:induction false} ApplyingProgresses(s: System, k: nat, r: nat, n: nat, m: nat)
    requires Shaped(s) && k < |s.devices| && Applies(s.devices[k], r, n)
    ensures var t := Run(s, Times(Advance(k), m));
            && OnlyDevice(s, t, k) && Applies(t.devices[k], r, n)
            && StepsLeft(t.devices[k]) <= AtLeastZero(StepsLeft(s.devices[k]) - m)
  {
    if m > 0 {
      assert Times(Advance(k), m)[..m - 1] == Times(Advance(k), m - 1);
      ApplyingProgresses(s, k, r, n, m - 1);
      var t := Run(s, Times(Advance(k), m - 1));
      if t.devices[k].session.Some? {
        AdvanceProgresses(t.devices[k], r, n);
      }
      OnlyDeviceTwice(s, t, Do(t, Advance(k)), k);
    }
  }

  // ----- a whole sync -----

  lemma {:induction false} RunAppends(s: System, a: seq<Step>, b: seq<Step>)
    requires Shaped(s)
    ensures Run(s, a + b) == Run(Run(s, a), b)
  {
    if b == [] {
      assert a + b == a;
    } else {
      RunAppends(s, a, b[..|b| - 1]);
      assert (a + b)[..|a + b| - 1] == a + b[..|b| - 1];
    }
  }

  lemma RunFirst(s: System, step: Step, rest: seq<Step>)
    requires Shaped(s)
    ensures Shaped(Do(s, step)) && Run(s, [step] + rest) == Run(Do(s, step), rest)
  {
    var first := [step];
    assert first[..|first| - 1] == [];
    DoKeepsShape(s, step);
    RunAppends(s, first, rest);
  }

  /** How many settled pages suffice for any download. */
  function PageBound(s: Server): nat {
    |s.workers| + s.counter + 2
  }

  function StepBound(s: Server): nat {
    2 * |s.workers| + 2
  }

  lemma StartReads(s: System, k: nat, forceFull: bool)
    requires Inv(s) && k < |s.devices| && s.server.kiosks[k].hasCredential
    ensures var (server, issued) := IssueRosterReceipt(s.server, k);
            var t := Do(s, Start(k, forceFull));
            && issued.Some? && t == s.(server := server, devices := t.devices) && |t.devices| == |s.devices|
            && Reading(t, k, issued.value.receipt)
            && PagesLeft(t.server, SessionOf(t, k).cursor) <= PageBound(s.server)
  {
    assert DeviceOk(s, k);
  }

  lemma {:induction false} DistinctAreFew(rows: seq<Row>, n: nat)
    requires NoDuplicates(rows) && forall j :: 0 <= j < |rows| ==> rows[j].id < n
    ensures |rows| <= n
  {
    var ids := set j | 0 <= j < |rows| :: rows[j].id;
    DistinctIds(rows);
    FewBelow(ids, n);
  }

  lemma {:induction false} DistinctIds(rows: seq<Row>)
    requires NoDuplicates(rows)
    ensures |set j | 0 <= j < |rows| :: rows[j].id| == |rows|
  {
    if rows != [] {
      var last := |rows| - 1;
      DistinctIds(rows[..last]);
      assert (set j | 0 <= j < |rows| :: rows[j].id) == (set j | 0 <= j < last :: rows[..last][j].id) + {rows[last].id};
    }
  }

  lemma {:induction false} FewBelow(ids: set<nat>, n: nat)
    requires forall i :: i in ids ==> i < n
    ensures |ids| <= n
  {
    if n > 0 {
      FewBelow(ids - {n - 1}, n - 1);
    } else {
      assert ids == {};
    }
  }

  ghost predicate Downloaded(s: System, k: nat, r: nat) {
    && Reading(s, k, r) && SessionOf(s, k).cursor.Complete? && |SessionOf(s, k).rows| <= |s.server.workers|
  }

  lemma PagesComplete(s: System, k: nat, r: nat, flags: seq<bool>)
    requires Shaped(s) && Reading(s, k, r) && CountTrue(flags) >= PagesLeft(s.server, SessionOf(s, k).cursor)
    ensures var t := Run(s, Pages(k, flags)); OnlyDevice(s, t, k) && Downloaded(t, k, r)
  {
    ReadingProgresses(s, k, r, flags);
    var t := Run(s, Pages(k, flags));
    DistinctAreFew(SessionOf(t, k).rows, |t.server.workers|);
  }

  lemma DownloadCompletes(s: System, k: nat, forceFull: bool, flags: seq<bool>)
    requires Inv(s) && k < |s.devices| && s.server.kiosks[k].hasCredential && CountTrue(flags) >= PageBound(s.server)
    ensures var (server, issued) := IssueRosterReceipt(s.server, k);
            var t := Run(s, [Start(k, forceFull)] + Pages(k, flags));
            && issued.Some? && t == s.(server := server, devices := t.devices) && |t.devices| == |s.devices|
            && Downloaded(t, k, issued.value.receipt)
  {
    StartReads(s, k, forceFull);
    RunFirst(s, Start(k, forceFull), Pages(k, flags));
    PagesComplete(Do(s, Start(k, forceFull)), k, IssueRosterReceipt(s.server, k).1.value.receipt, flags);
  }

  lemma DeliverApplies(s: System, k: nat, r: nat)
    requires Shaped(s) && Downloaded(s, k, r)
    ensures var t := Do(s, Deliver(k));
            && OnlyDevice(s, t, k) && Applies(t.devices[k], r, |s.server.workers|)
            && StepsLeft(t.devices[k]) <= StepBound(s.server)
  {
  }

  lemma ApplyCompletes(s: System, k: nat, r: nat, m: nat)
    requires Shaped(s) && Downloaded(s, k, r) && m >= StepBound(s.server)
    ensures var t := Run(s, [Deliver(k)] + Times(Advance(k), m));
            OnlyDevice(s, t, k) && t.devices[k].session == None && t.devices[k].pending == Some(r)
  {
    var u := Do(s, Deliver(k));
    DeliverApplies(s, k, r);
    RunFirst(s, Deliver(k), Times(Advance(k), m));
    ApplyingProgresses(u, k, r, |s.server.workers|, m);
    var t := Run(u, Times(Advance(k), m));
    OnlyDeviceTwice(s, u, t, k);
    NothingLeft(t.devices[k], r, |s.server.workers|);
  }

  lemma NothingLeft(d: Device, r: nat, n: nat)
    requires Applies(d, r, n) && StepsLeft(d) == 0
    ensures d.session == None && d.pending == Some(r)
  {
  }

  lemma FreshAck(s: Server, k: nat, r: nat, clockAllows: bool)
    requires k < |s.kiosks| && Spent(s) && s.kiosks[k].hasCredential
    requires r in s.receipts && s.receipts[r].kiosk == k && (s.receipts[r].sequence == None ==> clockAllows)
    ensures var (t, acknowledged) := Acknowledge(s, k, r, clockAllows);
            && acknowledged && t == s.(kiosks := t.kiosks, receipts := s.receipts - {r})
            && k < |t.kiosks| && t.kiosks[k].hasCredential
            && (s.receipts[r].sequence.Some? ==>
                  t.kiosks[k].applied.Some? && t.kiosks[k].applied.value >= s.receipts[r].sequence.value)
  {
  }

  ghost predicate Applied(s: System, k: nat, r: nat) {
    k < |s.devices| && s.devices[k].session == None && s.devices[k].pending == Some(r)
  }

  function AckSteps(k: nat, r: nat, clockAllows: bool): seq<Step> {
    [SendAck(k)] + [DeliverAck(k, r, clockAllows, true)]
  }

  lemma AckRuns(s: System, k: nat, r: nat, clockAllows: bool)
    requires Shaped(s)
    ensures Shaped(Do(s, SendAck(k)))
    ensures Run(s, AckSteps(k, r, clockAllows)) == Do(Do(s, SendAck(k)), DeliverAck(k, r, clockAllows, true))
  {
    var last := DeliverAck(k, r, clockAllows, true);
    RunFirst(s, SendAck(k), [last]);
    RunFirst(Do(s, SendAck(k)), last, []);
    assert [last] + [] == [last];
  }

  lemma AckCompletes(s: System, k: nat, r: nat, clockAllows: bool)
    requires Shaped(s) && Applied(s, k, r) && Spent(s.server) && s.server.kiosks[k].hasCredential
    requires r in s.server.receipts && s.server.receipts[r].kiosk == k
    requires s.server.receipts[r].sequence == None ==> clockAllows
    ensures var t := Run(s, AckSteps(k, r, clockAllows));
            && t.server == Acknowledge(s.server, k, r, clockAllows).0 && t.log == s.log && t.legacy == s.legacy
            && t.devices == s.devices[k := s.devices[k].(pending := None)]
  {
    AckRuns(s, k, r, clockAllows);
    FreshAck(s.server, k, r, clockAllows);
  }

  /** A sync in which nothing is lost and nobody writes: the download, the application, and the
      acknowledgement with its answer. */
  function SyncSteps(k: nat, forceFull: bool, flags: seq<bool>, m: nat, r: nat, clockAllows: bool): seq<Step> {
    ([Start(k, forceFull)] + Pages(k, flags)) + (([Deliver(k)] + Times(Advance(k), m)) + AckSteps(k, r, clockAllows))
  }

  lemma {:induction false} InvIsKept(s: System, steps: seq<Step>)
    requires Inv(s)
    ensures Inv(Run(s, steps))
  {
    if steps != [] {
      InvIsKept(s, steps[..|steps| - 1]);
      StepKeepsInv(Run(s, steps[..|steps| - 1]), steps[|steps| - 1]);
    }
  }

  lemma IssuedReceipt(s: Server, k: nat)
    requires k < |s.kiosks| && s.kiosks[k].hasCredential && Orderly(s)
    ensures var (t, issued) := IssueRosterReceipt(s, k);
            && issued.Some? && Orderly(t) && t == s.(receipts := t.receipts, nextReceipt := t.nextReceipt)
            && issued.value.receipt in t.receipts && t.receipts[issued.value.receipt].kiosk == k
            && (PendingOf(s, k) == None ==> t.receipts[issued.value.receipt].sequence == Some(s.counter))
  {
  }

  /** The receipt that a sync of kiosk `k` acknowledges. */
  ghost function ReceiptOf(s: Server, k: nat): (r: nat)
    requires k < |s.kiosks| && s.kiosks[k].hasCredential
  {
    IssueRosterReceipt(s, k).1.value.receipt
  }

  lemma SyncRuns(s: System, k: nat, forceFull: bool, flags: seq<bool>, m: nat, clockAllows: bool)
    requires Inv(s) && Orderly(s.server) && k < |s.devices| && s.server.kiosks[k].hasCredential
    requires CountTrue(flags) >= PageBound(s.server) && m >= StepBound(s.server)
    ensures var r, server := ReceiptOf(s.server, k), IssueRosterReceipt(s.server, k).0;
            var t := Run(s, SyncSteps(k, forceFull, flags, m, r, clockAllows));
            r in server.receipts && (server.receipts[r].sequence == None ==> clockAllows) ==>
              && t.server == Acknowledge(server, k, r, clockAllows).0 && t.log == s.log && t.legacy == s.legacy
              && |t.devices| == |s.devices| && t.devices[k].session == None && t.devices[k].pending == None
  {
    var r, server := ReceiptOf(s.server, k), IssueRosterReceipt(s.server, k).0;
    IssuedReceipt(s.server, k);
    var first, second := [Start(k, forceFull)] + Pages(k, flags), [Deliver(k)] + Times(Advance(k), m);
    DownloadCompletes(s, k, forceFull, flags);
    var read := Run(s, first);
    ApplyCompletes(read, k, r, m);
    var applied := Run(read, second);
    RunAppends(s, first, second + AckSteps(k, r, clockAllows));
    RunAppends(read, second, AckSteps(k, r, clockAllows));
    if server.receipts[r].sequence == None ==> clockAllows {
      AckCompletes(applied, k, r, clockAllows);
    }
  }

  /** From any reachable state, a sync that nothing disturbs completes: its receipt is acknowledged,
      the kiosk has reported at least the sequence at which the receipt was issued, and no receipt of
      the kiosk is pending any more. */
  lemma UndisturbedSyncCompletes(s: System, k: nat, forceFull: bool, flags: seq<bool>, m: nat, clockAllows: bool)
    requires Inv(s) && Orderly(s.server) && k < |s.devices| && s.server.kiosks[k].hasCredential
    requires CountTrue(flags) >= PageBound(s.server) && m >= StepBound(s.server)
    ensures var r, issued := ReceiptOf(s.server, k), IssueRosterReceipt(s.server, k).0;
            var t := Run(s, SyncSteps(k, forceFull, flags, m, r, clockAllows));
            && r in issued.receipts && Inv(t) && Orderly(t.server)
            && (issued.receipts[r].sequence.Some? || clockAllows ==>
                 && t.log == s.log && t.server.workers == s.server.workers && |t.devices| == |s.devices|
                 && t.devices[k].session == None && t.devices[k].pending == None
                 && t.server.kiosks[k].hasCredential && PendingOf(t.server, k) == None
                 && (issued.receipts[r].sequence.Some? ==>
                      t.server.kiosks[k].applied.Some? &&
                      t.server.kiosks[k].applied.value >= issued.receipts[r].sequence.value))
  {
    var r, issued := ReceiptOf(s.server, k), IssueRosterReceipt(s.server, k).0;
    IssuedReceipt(s.server, k);
    SyncRuns(s, k, forceFull, flags, m, clockAllows);
    InvIsKept(s, SyncSteps(k, forceFull, flags, m, r, clockAllows));
    RunKeepsOrder(s, SyncSteps(k, forceFull, flags, m, r, clockAllows));
    if issued.receipts[r].sequence.Some? || clockAllows {
      FreshAck(issued, k, r, clockAllows);
      NonePending(issued, k, r, Acknowledge(issued, k, r, clockAllows).0);
    }
  }

  lemma NonePending(s: Server, k: nat, r: nat, t: Server)
    requires OnePendingEach(s) && r in s.receipts && s.receipts[r].kiosk == k && t.receipts == s.receipts - {r}
    ensures PendingOf(t, k) == None
  {
  }

  // ----- convergence -----

  /** What every kiosk should store. */
  function Templates(s: Server): set<nat> {
    set w | 0 <= w < |s.workers| && s.workers[w].Present()
  }

  /** A kiosk that has reported the latest sequence stores exactly the server's templates. */
  lemma ReportedIsCurrent(s: System, k: nat)
    requires Inv(s) && k < |s.devices|
    requires s.server.kiosks[k].applied.Some? && s.server.kiosks[k].applied.value >= |s.log|
    ensures s.devices[k].local == Templates(s.server) && !PurgePending(s.server, k)
  {
    forall w: nat ensures w in s.devices[k].local <==> w in Templates(s.server) {
      WorkerIsCurrent(s, k, w);
    }
    assert DeviceOk(s, k);
  }

  lemma WorkerIsCurrent(s: System, k: nat, w: nat)
    requires Inv(s) && k < |s.devices|
    requires s.server.kiosks[k].applied.Some? && s.server.kiosks[k].applied.value >= |s.log|
    ensures w in s.devices[k].local <==> w < |s.server.workers| && s.server.workers[w].Present()
  {
    CertificationHolds(s, k, w);
    if w < |s.server.workers| {
      assert RowOk(s, w);
      CurrentVersion(s, w);
    }
  }

  /** Progress: with no earlier receipt pending, an undisturbed sync from any reachable state leaves
      the kiosk with exactly the server's templates, and no purge is shown as pending for it. */
  lemma SyncConverges(s: System, k: nat, forceFull: bool, flags: seq<bool>, m: nat, clockAllows: bool)
    requires Inv(s) && Orderly(s.server) && k < |s.devices| && s.server.kiosks[k].hasCredential
    requires CountTrue(flags) >= PageBound(s.server) && m >= StepBound(s.server) && PendingOf(s.server, k) == None
    ensures var t := Run(s, SyncSteps(k, forceFull, flags, m, ReceiptOf(s.server, k), clockAllows));
            && t.server.workers == s.server.workers && |t.devices| == |s.devices|
            && t.server.kiosks[k].applied == Some(s.server.counter)
            && t.devices[k].local == Templates(s.server) && !PurgePending(t.server, k)
  {
    var t := Run(s, SyncSteps(k, forceFull, flags, m, ReceiptOf(s.server, k), clockAllows));
    IssuedReceipt(s.server, k);
    UndisturbedSyncCompletes(s, k, forceFull, flags, m, clockAllows);
    ReportedIsCurrent(t, k);
    CertificationHolds(t, k, 0);
  }

  /** Whatever has happened before, two undisturbed syncs are enough: the first one acknowledges a
      receipt that may still be pending, and the second one gets a fresh one. */
  lemma TwoSyncsConverge(
    start: System, steps: seq<Step>, k: nat, forceFull: bool, again: bool, flags: seq<bool>, m: nat)
    requires Upgraded(start) && Orderly(start.server) && k < |start.devices|
    requires var s := Run(start, steps);
             && s.server.kiosks[k].hasCredential
             && CountTrue(flags) >= PageBound(s.server) && m >= StepBound(s.server)
    ensures var s := Run(start, steps);
            var t := Run(s, SyncSteps(k, forceFull, flags, m, ReceiptOf(s.server, k), true));
            && |t.devices| == |s.devices| && t.server.kiosks[k].hasCredential
            && var u := Run(t, SyncSteps(k, again, flags, m, ReceiptOf(t.server, k), true));
               && |u.devices| == |s.devices| && u.server.workers == s.server.workers
               && u.server.kiosks[k].applied == Some(|s.log|)
               && u.devices[k].local == Templates(s.server) && !PurgePending(u.server, k)
  {
    var s := Run(start, steps);
    RunKeepsInv(start, steps);
    RunKeepsOrder(start, steps);
    UndisturbedSyncCompletes(s, k, forceFull, flags, m, true);
    var t := Run(s, SyncSteps(k, forceFull, flags, m, ReceiptOf(s.server, k), true));
    SyncConverges(t, k, again, flags, m, true);
  }
}
