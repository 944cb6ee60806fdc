/** The resumable epoch backfill and reads that stay exact while it runs. */
module EpochMigration {
  import opened Options
  import opened KioskLog

  const BACKFILL_BATCH := 100

  /** `parsed` is what the row's timestamp parses to, `cache` the epoch column. */
  datatype CachedRow = CachedRow(parsed: Option<real>, cache: Option<real>)

  /** The durable progress: rows up to `after`, and rows beyond `high`, are done. */
  datatype Progress = Progress(after: nat, high: nat)

  /** The batch that the background worker has parsed but not yet written. */
  datatype Worker = Idle | Working | Batch(ids: set<nat>)

  datatype Table = Table(rows: map<nat, CachedRow>, next: nat, progress: Option<Progress>, worker: Worker)

  // ----- today's activity -----

  predicate InRange(epoch: Option<real>, start: real, end: real) {
    epoch.Some? && start <= epoch.value < end
  }

  /** The rows of the day by their parsed instants: what the screen should list. */
  ghost function Today(t: Table, start: real, end: real): multiset<Position> {
    multiset(set i | i in t.rows && InRange(t.rows[i].parsed, start, end) :: Position(t.rows[i].parsed.value, i))
  }

  ghost function Cached(t: Table, start: real, end: real): multiset<Position> {
    multiset(set i | i in t.rows && InRange(t.rows[i].cache, start, end) :: Position(t.rows[i].cache.value, i))
  }

  ghost function Fallback(t: Table, p: Progress, start: real, end: real): multiset<Position> {
    multiset(set i | i in t.rows && p.after < i <= p.high && t.rows[i].cache == None &&
               InRange(t.rows[i].parsed, start, end) :: Position(t.rows[i].parsed.value, i))
  }

  /** The rows the query collects; `progress` was read by an earlier statement. */
  ghost function Collect(t: Table, progress: Option<Progress>, start: real, end: real): multiset<Position> {
    match progress
    case None => Cached(t, start, end)
    case Some(p) => Cached(t, start, end) + Fallback(t, p, start, end)
  }

  ghost predicate IsGreatest(ms: multiset<Position>, x: Position) {
    x in ms && forall y :: y in ms && y != x ==> Before(y, x)
  }

  lemma {:induction false} GreatestExists(ms: multiset<Position>)
    requires ms != multiset{}
    ensures exists x :: IsGreatest(ms, x)
    decreases |ms|
  {
    var x :| x in ms;
    var rest := ms - multiset{x};
    if rest == multiset{} {
      assert ms == multiset{x};
      assert IsGreatest(ms, x);
    } else {
      GreatestExists(rest);
      var y :| IsGreatest(rest, y);
      var z := if Before(y, x) then x else y;
      forall w | w in ms && w != z ensures Before(w, z) {
        assert w != x ==> w in rest;
        assert w != x && w != y ==> Before(w, y);
      }
      assert IsGreatest(ms, z);
    }
  }

  ghost function Greatest(ms: multiset<Position>): (x: Position)
    requires ms != multiset{}
    ensures IsGreatest(ms, x)
  {
    GreatestExists(ms);
    var x :| IsGreatest(ms, x);
    x
  }

  /** Newest first, ties by id, at most `limit` of them. */
  ghost function Newest(ms: multiset<Position>, limit: nat): (r: seq<Position>)
    ensures |r| <= limit && forall i :: 0 <= i < |r| ==> r[i] in ms
    decreases limit
  {
    if limit == 0 || ms == multiset{} then []
    else [Greatest(ms)] + Newest(ms - multiset{Greatest(ms)}, limit - 1)
  }

  lemma NewestUnfolds(ms: multiset<Position>, limit: nat)
    requires limit > 0 && ms != multiset{}
    ensures var g := Greatest(ms);
            IsGreatest(ms, g) && Newest(ms, limit) == [g] + Newest(ms - multiset{g}, limit - 1)
  {
  }

  /** The listing leaves out no row of the day when the limit allows. */
  lemma {:induction false} NewestShowsAll(ms: multiset<Position>, limit: nat, x: Position)
    requires |ms| <= limit && x in ms
    ensures x in Newest(ms, limit)
    decreases limit
  {
    var g := Greatest(ms);
    NewestUnfolds(ms, limit);
    if x != g {
      NewestShowsAll(ms - multiset{g}, limit - 1, x);
    }
  }

  /** The listing is in strictly descending order. */
  lemma {:induction false} NewestDescends(ms: multiset<Position>, limit: nat, i: nat, j: nat)
    requires (forall x :: ms[x] <= 1) && i < j < |Newest(ms, limit)|
    ensures Before(Newest(ms, limit)[j], Newest(ms, limit)[i])
    decreases limit
  {
    var less := ms - multiset{Greatest(ms)};
    NewestUnfolds(ms, limit);
    if i == 0 {
      assert Newest(less, limit - 1)[j - 1] in less;
    } else {
      NewestDescends(less, limit - 1, i - 1, j - 1);
    }
  }

  // ----- the invariant -----

  ghost predicate Done(t: Table, i: nat)
    requires i in t.rows
  {
    t.rows[i].cache == t.rows[i].parsed
  }

  /** A cache is never wrong, and it is there for every row the progress counts as done. */
  ghost predicate Covers(t: Table, progress: Option<Progress>) {
    && (forall i :: i in t.rows ==> Done(t, i) || t.rows[i].cache == None)
    && (forall i :: i in t.rows && (progress.Some? ==> i <= progress.value.after || progress.value.high < i) ==>
          Done(t, i))
  }

  /** The parsed batch holds every row between the progress and its last row. */
  ghost predicate BatchOk(t: Table) {
    t.worker.Batch? ==>
      && t.progress.Some?
      && (forall i :: i in t.worker.ids ==> i in t.rows && t.progress.value.after < i <= t.progress.value.high)
      && (t.worker.ids == {} ==>
            forall i :: i in t.rows ==> i <= t.progress.value.after || t.progress.value.high < i)
      && (forall i, j :: i in t.rows && t.progress.value.after < i <= j && j in t.worker.ids ==> i in t.worker.ids)
  }

  ghost predicate Inv(t: Table) {
    && Covers(t, t.progress) && BatchOk(t)
    && (t.worker == Working ==> t.progress.Some?)
    && (forall i :: i in t.rows ==> i < t.next)
    && (t.progress.Some? ==> t.progress.value.high < t.next)
  }

  /** The column has just been added together with its progress row: nothing is cached yet. */
  ghost predicate Prepared(t: Table) {
    && t.worker == Idle && t.progress.Some? && t.progress.value.after == 0
    && (forall i :: i in t.rows ==> 0 < i <= t.progress.value.high < t.next && t.rows[i].cache == None)
    && t.progress.value.high < t.next
  }

  // ----- steps -----

  datatype Step =
    | Insert(parsed: Option<real>)
    | Release(id: nat)
    | Load
    | Parse
    | Write
    | Crash

  /** The next rows to parse: at most a batch, in id order. */
  function NextIds(rows: map<nat, CachedRow>, i: nat, high: nat, limit: nat): (ids: set<nat>)
    ensures forall j :: j in ids ==> j in rows && i < j <= high
    ensures |ids| <= limit
    decreases high - i
  {
    if i >= high || limit == 0 then {}
    else if i + 1 in rows then
      {i + 1} + NextIds(rows, i + 1, high, limit - 1)
    else NextIds(rows, i + 1, high, limit)
  }

  lemma {:induction false} NextIdsAreFirst(rows: map<nat, CachedRow>, i: nat, high: nat, limit: nat)
    requires limit > 0
    ensures var ids := NextIds(rows, i, high, limit);
            && (ids == {} ==> forall j :: j in rows ==> j <= i || high < j)
            && (forall j, l :: j in rows && i < j <= l && l in ids ==> j in ids)
    decreases high - i
  {
    if i < high {
      if i + 1 in rows {
        if limit > 1 {
          NextIdsAreFirst(rows, i + 1, high, limit - 1);
        }
      } else {
        NextIdsAreFirst(rows, i + 1, high, limit);
      }
    }
  }

  lemma {:induction false} MaximumExists(ids: set<nat>)
    requires ids != {}
    ensures exists m :: m in ids && forall j :: j in ids ==> j <= m
  {
    var x :| x in ids;
    if ids - {x} != {} {
      MaximumExists(ids - {x});
      var y :| y in ids - {x} && forall j :: j in ids - {x} ==> j <= y;
      var m := if x < y then y else x;
      forall j | j in ids ensures j <= m {
        assert j != x ==> j in ids - {x};
      }
    } else {
      assert ids == {x};
    }
  }

  function Maximum(ids: set<nat>): (m: nat)
    requires ids != {}
    ensures m in ids && forall j :: j in ids ==> j <= m
  {
    MaximumExists(ids);
    var m :| m in ids && forall j | j in ids :: j <= m;
    m
  }

  /** Fill the caches of the batch that are still empty. */
  function Filled(rows: map<nat, CachedRow>, ids: set<nat>): map<nat, CachedRow> {
    map i | i in rows :: if i in ids && rows[i].cache == None then rows[i].(cache := rows[i].parsed) else rows[i]
  }

  function Do(t: Table, step: Step): Table {
    match step
    case Insert(parsed) => t.(rows := t.rows[t.next := CachedRow(parsed, parsed)], next := t.next + 1)
    case Release(id) => if id in t.rows then t.(rows := t.rows[id := t.rows[id].(cache := t.rows[id].parsed)]) else t
    case Load => if t.worker == Idle && t.progress.Some? then t.(worker := Working) else t
    case Parse =>
      if t.worker != Working || t.progress == None then t
      else t.(worker := Batch(NextIds(t.rows, t.progress.value.after, t.progress.value.high, BACKFILL_BATCH)))
    case Write =>
      if !t.worker.Batch? || t.progress == None then t
      else if t.worker.ids == {} then t.(progress := None, worker := Idle)
      else t.(rows := Filled(t.rows, t.worker.ids),
              progress := Some(Progress(Maximum(t.worker.ids), t.progress.value.high)), worker := Working)
    case Crash => t.(worker := Idle)
  }

  function Run(t: Table, steps: seq<Step>): Table {
    if steps == [] then t else Do(Run(t, steps[..|steps| - 1]), steps[|steps| - 1])
  }

  lemma PreparedIsOk(t: Table)
    requires Prepared(t)
    ensures Inv(t)
  {
  }

  lemma StepKeepsInv(t: Table, step: Step)
    requires Inv(t)
    ensures Inv(Do(t, step))
  {
    if step == Parse && t.worker == Working && t.progress.Some? {
      NextIdsAreFirst(t.rows, t.progress.value.after, t.progress.value.high, BACKFILL_BATCH);
    }
  }

  /** Progress that was read earlier still tells the truth about the rows it counts as done. */
  lemma StaleProgressStays(t: Table, step: Step, progress: Option<Progress>)
    requires Inv(t) && Covers(t, progress)
    requires progress.Some? ==> progress.value.high < t.next
    ensures Covers(Do(t, step), progress)
    ensures t.next <= Do(t, step).next
  {
  }

  lemma {:induction false} RunKeepsInv(t: Table, steps: seq<Step>, progress: Option<Progress>)
    requires Inv(t) && Covers(t, progress) && (progress.Some? ==> progress.value.high < t.next)
    ensures Inv(Run(t, steps)) && Covers(Run(t, steps), progress)
    ensures t.next <= Run(t, steps).next
  {
    if steps != [] {
      RunKeepsInv(t, steps[..|steps| - 1], progress);
      StepKeepsInv(Run(t, steps[..|steps| - 1]), steps[|steps| - 1]);
      StaleProgressStays(Run(t, steps[..|steps| - 1]), steps[|steps| - 1], progress);
    }
  }

  // ----- reads -----

  lemma CollectIsToday(t: Table, progress: Option<Progress>, start: real, end: real)
    requires Covers(t, progress)
    ensures Collect(t, progress, start, end) == Today(t, start, end)
  {
    match progress
    case None =>
      CachedIsToday(t, start, end);
    case Some(p) =>
      forall x ensures Collect(t, progress, start, end)[x] == Today(t, start, end)[x] {
        PositionCounts(t, p, start, end, x);
      }
  }

  lemma CachedIsToday(t: Table, start: real, end: real)
    requires Covers(t, None)
    ensures Cached(t, start, end) == Today(t, start, end)
  {
    assert (set i | i in t.rows && InRange(t.rows[i].cache, start, end) :: Position(t.rows[i].cache.value, i)) ==
           (set i | i in t.rows && InRange(t.rows[i].parsed, start, end) :: Position(t.rows[i].parsed.value, i));
  }

  /** Every row of the day is in exactly one branch. */
  lemma PositionCounts(t: Table, p: Progress, start: real, end: real, x: Position)
    requires Covers(t, Some(p))
    ensures Cached(t, start, end)[x] + Fallback(t, p, start, end)[x] == Today(t, start, end)[x]
  {
    if x.id in t.rows {
      assert Done(t, x.id) || t.rows[x.id].cache == None;
    }
  }

  /** From the creation of the column, through every batch, insert, crash and restart, and however
      long ago the reader looked up the progress, the list of today's events is the list of the
      rows whose timestamps parse into the day, each once, newest first. */
  lemma ReadsAreExact(t: Table, earlier: seq<Step>, later: seq<Step>, start: real, end: real, limit: nat)
    requires Prepared(t)
    ensures var seen := Run(t, earlier).progress;
            var now := Run(Run(t, earlier), later);
            Newest(Collect(now, seen, start, end), limit) == Newest(Today(now, start, end), limit)
  {
    PreparedIsOk(t);
    RunKeepsInv(t, earlier, t.progress);
    RunKeepsInv(Run(t, earlier), later, Run(t, earlier).progress);
    CollectIsToday(Run(Run(t, earlier), later), Run(t, earlier).progress, start, end);
  }

  /** When the progress row is gone, every cache is the parse of its timestamp. */
  lemma CompletionIsExact(t: Table, steps: seq<Step>, i: nat)
    requires Prepared(t) && Run(t, steps).progress == None && i in Run(t, steps).rows
    ensures Run(t, steps).rows[i].cache == Run(t, steps).rows[i].parsed
  {
    PreparedIsOk(t);
    RunKeepsInv(t, steps, t.progress);
    assert Done(Run(t, steps), i);
  }

  /** The table and its progress row, migrated in place. */
  class EpochStore {
    var rows: map<nat, CachedRow>
    var next: nat
    var progress: Option<Progress>

    function State(worker: Worker): Table
      reads this
    {
      Table(rows, next, progress, worker)
    }

    constructor (t: Table)
      ensures State(t.worker) == t
    {
      rows, next, progress := t.rows, t.next, t.progress;
    }

    /** Migrate until done or until stopped after `batches` committed batches. */
    method Migrate(batches: nat) returns (completed: bool)
      requires Inv(State(Idle))
      modifies this`rows, this`progress
      ensures Inv(State(Idle))
      ensures completed ==> progress == None && forall i :: i in rows ==> rows[i].cache == rows[i].parsed
      ensures rows.Keys == old(rows).Keys && forall i :: i in rows ==> rows[i].parsed == old(rows)[i].parsed
      ensures !completed ==>
        progress.Some? && old(progress).Some? && progress.value.after >= old(progress).value.after + batches
    {
      if progress == None {
        assert forall i :: i in rows ==> Done(State(Idle), i);
        return true;
      }
      for n := 0 to batches
        invariant Inv(State(Idle)) && progress.Some? && old(progress).Some?
        invariant rows.Keys == old(rows).Keys && forall i :: i in rows ==> rows[i].parsed == old(rows)[i].parsed
        invariant progress.value.after >= old(progress).value.after + n
      {
        ghost var before := State(Working);
        var after, high := progress.value.after, progress.value.high;
        var ids := NextIds(rows, after, high, BACKFILL_BATCH);
        StepKeepsInv(before, Parse);
        StepKeepsInv(Do(before, Parse), Write);
        if ids == {} {
          progress := None;
          assert State(Idle) == Do(Do(before, Parse), Write);
          assert forall i :: i in rows ==> Done(State(Idle), i);
          return true;
        }
        rows := Filled(rows, ids);
        progress := Some(Progress(Maximum(ids), high));
        assert State(Working) == Do(Do(before, Parse), Write);
      }
      completed := false;
    }
  }
}
