/** The bounded prune: each call looks at the next 100 old rows behind a durable cursor. */
module PruneSweep {
  import opened Options
  import opened KioskLog

  predicate Precedes(k: Kiosk, i: nat, j: nat)
    requires i in k.logs && k.logs[i].epoch.Some? && j in k.logs && k.logs[j].epoch.Some?
  {
    Before(PositionOf(k, i), PositionOf(k, j))
  }

  /** The cursor is the position of the last row a previous call looked at. */
  predicate Behind(k: Kiosk, i: nat, cursor: Option<Position>)
    requires i in k.logs && k.logs[i].epoch.Some?
  {
    cursor == None || Before(cursor.value, PositionOf(k, i))
  }

  predicate Rows(k: Kiosk, s: set<nat>) {
    forall i | i in s :: i in k.logs && k.logs[i].epoch.Some?
  }

  /** The old synced rows after the cursor, as one lexicographic range. */
  function Range(k: Kiosk, cursor: Option<Position>, cutoff: real): (s: set<nat>)
    ensures Rows(k, s)
  {
    set i | i in k.logs && IsCandidate(k, i, cutoff) && Behind(k, i, cursor)
  }

  predicate IsLeast(k: Kiosk, s: set<nat>, i: nat)
    requires Rows(k, s)
  {
    i in s && forall j | j in s && j != i :: Precedes(k, i, j)
  }

  lemma {:induction false} LeastExists(k: Kiosk, s: set<nat>)
    requires s != {} && Rows(k, s)
    ensures exists i :: IsLeast(k, s, i)
  {
    var x :| x in s;
    var rest := s - {x};
    if rest != {} {
      LeastExists(k, rest);
      var y :| IsLeast(k, rest, y);
      LeastOfTwo(k, s, x, y);
    } else {
      assert s == {x};
      assert IsLeast(k, s, x);
    }
  }

  lemma LeastOfTwo(k: Kiosk, s: set<nat>, x: nat, y: nat)
    requires Rows(k, s) && x in s && IsLeast(k, s - {x}, y)
    ensures IsLeast(k, s, x) || IsLeast(k, s, y)
  {
    forall j | j in s && j != x && j != y ensures Precedes(k, y, j) {
      assert j in s - {x};
    }
    if Precedes(k, x, y) {
      forall j | j in s && j != x ensures Precedes(k, x, j) {
        assert j != y ==> Before(PositionOf(k, y), PositionOf(k, j));
      }
    } else {
      assert Precedes(k, y, x);
    }
  }

  function Least(k: Kiosk, s: set<nat>): (i: nat)
    requires s != {} && Rows(k, s)
    ensures IsLeast(k, s, i)
  {
    LeastExists(k, s);
    var i :| IsLeast(k, s, i);
    i
  }

  /** The first `n` rows of a set in (epoch, id) order: what an ordered query with a limit returns. */
  function FirstOf(k: Kiosk, s: set<nat>, n: nat): (r: seq<nat>)
    requires Rows(k, s)
    ensures |r| <= n && forall i :: 0 <= i < |r| ==> r[i] in s
    decreases n
  {
    if n == 0 || s == {} then []
    else [Least(k, s)] + FirstOf(k, s - {Least(k, s)}, n - 1)
  }

  /** Rows that share the cursor's epoch. */
  function Ties(k: Kiosk, cursor: Option<Position>, cutoff: real): (s: set<nat>)
    ensures Rows(k, s)
  {
    set i | i in k.logs && IsCandidate(k, i, cutoff) && cursor.Some? &&
      k.logs[i].epoch.value == cursor.value.epoch && i > cursor.value.id
  }

  /** Rows of later epochs. */
  function Later(k: Kiosk, cursor: Option<Position>, cutoff: real): (s: set<nat>)
    ensures Rows(k, s)
  {
    set i | i in k.logs && IsCandidate(k, i, cutoff) &&
      (cursor == None || k.logs[i].epoch.value > cursor.value.epoch)
  }

  lemma LeastOfUnion(k: Kiosk, a: set<nat>, b: set<nat>)
    requires a != {} && Rows(k, a) && Rows(k, b)
    requires forall i, j :: i in a && j in b ==> Precedes(k, i, j)
    ensures Least(k, a + b) == Least(k, a) && Least(k, a) !in b
  {
    var m, l := Least(k, a), Least(k, a + b);
    assert IsLeast(k, a, m) && IsLeast(k, a + b, l);
    assert l != m ==> Precedes(k, l, m);
    assert m in b ==> Precedes(k, m, m);
    assert l in b || l != m ==> Precedes(k, m, l);
  }

  lemma {:induction false} FirstOfUnion(k: Kiosk, a: set<nat>, b: set<nat>, n: nat)
    requires Rows(k, a) && Rows(k, b)
    requires forall i, j :: i in a && j in b ==> Precedes(k, i, j)
    ensures FirstOf(k, a + b, n) == FirstOf(k, a, n) + FirstOf(k, b, n - |FirstOf(k, a, n)|)
    decreases n
  {
    if n > 0 {
      if a == {} {
        assert a + b == b;
      } else {
        var m := Least(k, a);
        LeastOfUnion(k, a, b);
        FirstOfUnion(k, a - {m}, b, n - 1);
        assert a + b - {m} == (a - {m}) + b;
        assert FirstOf(k, a, n) == [m] + FirstOf(k, a - {m}, n - 1);
        assert FirstOf(k, a + b, n) == [m] + FirstOf(k, a + b - {m}, n - 1);
      }
    }
  }

  lemma RangeParts(k: Kiosk, cursor: Option<Position>, cutoff: real)
    ensures Ties(k, cursor, cutoff) + Later(k, cursor, cutoff) == Range(k, cursor, cutoff)
    ensures forall i, j :: i in Ties(k, cursor, cutoff) && j in Later(k, cursor, cutoff) ==> Precedes(k, i, j)
  {
  }

  /** A query for ties followed by one for later epochs. */
  function TwoQueries(k: Kiosk, cursor: Option<Position>, cutoff: real, n: nat): seq<nat> {
    var ties := FirstOf(k, Ties(k, cursor, cutoff), n);
    ties + FirstOf(k, Later(k, cursor, cutoff), n - |ties|)
  }

  /** The two queries are one lexicographic range. */
  lemma SplitQueryIsOneRange(k: Kiosk, cursor: Option<Position>, cutoff: real, n: nat)
    ensures TwoQueries(k, cursor, cutoff, n) == FirstOf(k, Range(k, cursor, cutoff), n)
  {
    RangeParts(k, cursor, cutoff);
    FirstOfUnion(k, Ties(k, cursor, cutoff), Later(k, cursor, cutoff), n);
  }

  function Elements(s: seq<nat>): set<nat> {
    set i | i in s
  }

  /** The rows a call looks at. */
  function Page(k: Kiosk, cursor: Option<Position>, cutoff: real): seq<nat> {
    FirstOf(k, Range(k, cursor, cutoff), PRUNE_BATCH)
  }

  /** One call: delete what may go among the next rows and remember the last of them; start over
      when there are none. */
  function PruneCall(k: Kiosk, cursor: Option<Position>, cutoff: real): (Kiosk, Option<Position>) {
    var rows := Page(k, cursor, cutoff);
    if rows == [] then (k, None)
    else
      var last := rows[|rows| - 1];
      assert last in Range(k, cursor, cutoff);
      (DeleteRows(k, Elements(rows), cutoff), Some(PositionOf(k, last)))
  }

  /** The store with its durable cursor, pruned in place. */
  class RetentionStore {
    var kiosk: Kiosk
    var after: Option<Position>

    constructor (k: Kiosk)
      ensures kiosk == k && after == None
    {
      kiosk, after := k, None;
    }

    /** Two queries, so that a long run of equal epochs is never scanned again. */
    method Select(cutoff: real) returns (candidates: seq<nat>)
      ensures candidates == Page(kiosk, after, cutoff)
    {
      candidates := [];
      if after.Some? {
        candidates := FirstOf(kiosk, Ties(kiosk, after, cutoff), PRUNE_BATCH);
      } else {
        assert Ties(kiosk, after, cutoff) == {};
      }
      var remaining := PRUNE_BATCH - |candidates|;
      if remaining > 0 {
        candidates := candidates + FirstOf(kiosk, Later(kiosk, after, cutoff), remaining);
      }
      assert candidates == TwoQueries(kiosk, after, cutoff, PRUNE_BATCH);
      SplitQueryIsOneRange(kiosk, after, cutoff, PRUNE_BATCH);
    }

    /** `ready` tells that every epoch is cached and the indexes exist; before that nothing is deleted. */
    method PruneSyncedHistory(ready: bool, cutoff: real) returns (deleted: nat)
      modifies this
      ensures (kiosk, after) == if ready then PruneCall(old(kiosk), old(after), cutoff) else (old(kiosk), old(after))
      ensures deleted == |old(kiosk).logs.Keys| - |kiosk.logs.Keys|
    {
      if !ready {
        return 0;
      }
      var candidates := Select(cutoff);
      if candidates == [] {
        after := None;
        return 0;
      }
      var last := candidates[|candidates| - 1];
      var before := kiosk;
      kiosk := DeleteRows(before, Elements(candidates), cutoff);
      after := Some(PositionOf(before, last));
      CardinalityOfSubset(kiosk.logs.Keys, before.logs.Keys);
      deleted := |before.logs.Keys| - |kiosk.logs.Keys|;
    }
  }

  ghost function Sweep(k: Kiosk, cursor: Option<Position>, cutoff: real, calls: nat): Kiosk
    decreases calls
  {
    if calls == 0 then k
    else
      var (next, position) := PruneCall(k, cursor, cutoff);
      Sweep(next, position, cutoff, calls - 1)
  }

  // ----- what the first rows are -----

  lemma ElementsOfCons(m: nat, rest: seq<nat>)
    requires m !in rest
    ensures Elements([m] + rest) == {m} + Elements(rest)
    ensures |Elements([m] + rest)| == 1 + |Elements(rest)|
  {
    assert Elements([m] + rest) == {m} + Elements(rest);
  }

  lemma FirstOfUnfolds(k: Kiosk, s: set<nat>, n: nat)
    requires Rows(k, s) && n > 0 && s != {}
    ensures var m := Least(k, s);
            FirstOf(k, s, n) == [m] + FirstOf(k, s - {m}, n - 1) &&
            m !in FirstOf(k, s - {m}, n - 1) && IsLeast(k, s, m)
  {
    var m, rest := Least(k, s), FirstOf(k, s - {Least(k, s)}, n - 1);
    assert forall i :: 0 <= i < |rest| ==> rest[i] in s - {m};
  }

  lemma CountWithHead(m: nat, rest: seq<nat>)
    requires m !in rest && |Elements(rest)| == |rest|
    ensures |Elements([m] + rest)| == |[m] + rest|
  {
    ElementsOfCons(m, rest);
  }

  lemma FirstOfTail(k: Kiosk, s: set<nat>, n: nat) returns (m: nat, rest: seq<nat>)
    requires Rows(k, s) && n > 0 && s != {}
    ensures m in s && Rows(k, s - {m}) && rest == FirstOf(k, s - {m}, n - 1)
    ensures FirstOf(k, s, n) == [m] + rest && m !in rest
  {
    m, rest := Least(k, s), FirstOf(k, s - {Least(k, s)}, n - 1);
    FirstOfUnfolds(k, s, n);
  }

  /** The selected rows are distinct. */
  lemma {:induction false} FirstOfCounts(k: Kiosk, s: set<nat>, n: nat)
    requires Rows(k, s)
    ensures |Elements(FirstOf(k, s, n))| == |FirstOf(k, s, n)|
    decreases n
  {
    if n == 0 || s == {} {
      assert Elements(FirstOf(k, s, n)) == {};
    } else {
      var m, rest := FirstOfTail(k, s, n);
      FirstOfCounts(k, s - {m}, n - 1);
      CountWithHead(m, rest);
    }
  }

  /** The selected rows are everything when they are few. */
  lemma {:induction false} FirstOfIsAll(k: Kiosk, s: set<nat>, n: nat)
    requires Rows(k, s) && |FirstOf(k, s, n)| < n
    ensures Elements(FirstOf(k, s, n)) == s
    decreases n
  {
    if s != {} {
      FirstOfUnfolds(k, s, n);
      var m := Least(k, s);
      FirstOfIsAll(k, s - {m}, n - 1);
      ElementsOfCons(m, FirstOf(k, s - {m}, n - 1));
    }
  }

  /** The selected rows precede all others. */
  lemma {:induction false} FirstOfPrecedes(k: Kiosk, s: set<nat>, n: nat, i: nat, j: nat)
    requires Rows(k, s) && i < |FirstOf(k, s, n)| && j in s && j !in FirstOf(k, s, n)
    ensures Precedes(k, FirstOf(k, s, n)[i], j)
    decreases n
  {
    FirstOfUnfolds(k, s, n);
    var m := Least(k, s);
    if i > 0 {
      FirstOfPrecedes(k, s - {m}, n - 1, i - 1, j);
    }
  }

  /** The selected rows come in order. */
  lemma {:induction false} FirstOfAscends(k: Kiosk, s: set<nat>, n: nat, i: nat, j: nat)
    requires Rows(k, s) && i < j < |FirstOf(k, s, n)|
    ensures Precedes(k, FirstOf(k, s, n)[i], FirstOf(k, s, n)[j])
    decreases n
  {
    FirstOfUnfolds(k, s, n);
    var m := Least(k, s);
    if i > 0 {
      FirstOfAscends(k, s - {m}, n - 1, i - 1, j - 1);
    } else {
      assert FirstOf(k, s - {m}, n - 1)[j - 1] in s - {m};
    }
  }

  lemma FirstIsEmpty(k: Kiosk, s: set<nat>, n: nat)
    requires Rows(k, s) && n > 0
    ensures FirstOf(k, s, n) == [] <==> s == {}
  {
  }

  // ----- the protected rows -----

  ghost predicate IsLatestOf(k: Kiosk, s: set<nat>, i: nat)
    requires Rows(k, s)
  {
    i in s && forall j | j in s && j != i :: Precedes(k, j, i)
  }

  lemma {:induction false} LatestOfExists(k: Kiosk, s: set<nat>)
    requires s != {} && Rows(k, s)
    ensures exists i :: IsLatestOf(k, s, i)
  {
    var x :| x in s;
    var rest := s - {x};
    if rest != {} {
      LatestOfExists(k, rest);
      var y :| IsLatestOf(k, rest, y);
      LatestOfTwo(k, s, x, y);
    } else {
      assert s == {x};
      assert IsLatestOf(k, s, x);
    }
  }

  lemma LatestOfTwo(k: Kiosk, s: set<nat>, x: nat, y: nat)
    requires Rows(k, s) && x in s && IsLatestOf(k, s - {x}, y)
    ensures IsLatestOf(k, s, x) || IsLatestOf(k, s, y)
  {
    forall j | j in s && j != x && j != y ensures Precedes(k, j, y) {
      assert j in s - {x};
    }
    if Precedes(k, y, x) {
      forall j | j in s && j != x ensures Precedes(k, j, x) {
        assert j != y ==> Before(PositionOf(k, j), PositionOf(k, y));
      }
    } else {
      assert Precedes(k, x, y);
    }
  }

  /** Deleting rows does not change which of the remaining rows are protected. */
  lemma ProtectionIsStable(k: Kiosk, candidates: set<nat>, cutoff: real, i: nat)
    requires i in DeleteRows(k, candidates, cutoff).logs
    ensures var next := DeleteRows(k, candidates, cutoff);
            && (IsLastInserted(next, i) <==> IsLastInserted(k, i))
            && (IsLatestInstant(next, i) <==> IsLatestInstant(k, i))
  {
    var next := DeleteRows(k, candidates, cutoff);
    if !IsLastInserted(k, i) {
      LastInsertedExists(k, i);
      var j :| j in k.logs && i <= j && k.logs[j].worker == k.logs[i].worker && IsLastInserted(k, j);
      assert j in next.logs && j != i;
    }
    if k.logs[i].epoch.Some? && !IsLatestInstant(k, i) {
      var s := set j | j in k.logs && k.logs[j].epoch.Some? && k.logs[j].worker == k.logs[i].worker;
      assert i in s;
      LatestOfExists(k, s);
      var j :| IsLatestOf(k, s, j);
      assert IsLatestInstant(k, j) by {
        forall l | l in k.logs && k.logs[l].worker == k.logs[j].worker && k.logs[l].epoch.Some? && l != j
          ensures Before(PositionOf(k, l), PositionOf(k, j))
        {
          assert l in s;
          assert Precedes(k, l, j);
        }
      }
      assert j != i && j in next.logs;
      assert Precedes(k, i, j) && next.logs[j] == k.logs[j];
    }
  }

  lemma DeletableIsStable(k: Kiosk, candidates: set<nat>, cutoff: real)
    ensures forall i :: Deletable(DeleteRows(k, candidates, cutoff), i, cutoff) <==>
        Deletable(k, i, cutoff) && i !in candidates
  {
    var next := DeleteRows(k, candidates, cutoff);
    forall i ensures Deletable(next, i, cutoff) <==> Deletable(k, i, cutoff) && i !in candidates {
      if i in next.logs {
        ProtectionIsStable(k, candidates, cutoff, i);
      }
    }
  }

  // ----- a whole sweep -----

  /** Everything up to the cursor that may go is gone. */
  ghost predicate Clean(k: Kiosk, cursor: Option<Position>, cutoff: real) {
    forall i :: i in k.logs && Deletable(k, i, cutoff) ==> Behind(k, i, cursor)
  }

  function Pruned(k: Kiosk, cutoff: real): Kiosk {
    k.(logs := map i | i in k.logs && !Deletable(k, i, cutoff) :: k.logs[i])
  }

  lemma {:induction false} SweepOfPruned(k: Kiosk, cursor: Option<Position>, cutoff: real, calls: nat)
    requires forall i :: i in k.logs ==> !Deletable(k, i, cutoff)
    ensures Sweep(k, cursor, cutoff, calls) == k
    decreases calls
  {
    if calls > 0 {
      var (next, position) := PruneCall(k, cursor, cutoff);
      assert next.logs == k.logs;
      SweepOfPruned(k, position, cutoff, calls - 1);
    }
  }

  lemma CallOfPage(k: Kiosk, cursor: Option<Position>, cutoff: real)
    requires Range(k, cursor, cutoff) != {}
    ensures var page := Page(k, cursor, cutoff);
            && page != [] && page[|page| - 1] in Range(k, cursor, cutoff)
            && PruneCall(k, cursor, cutoff) ==
                 (DeleteRows(k, Elements(page), cutoff),
                  Some(PositionOf(k, page[|page| - 1])))
  {
    FirstIsEmpty(k, Range(k, cursor, cutoff), PRUNE_BATCH);
  }

  /** A call deletes only deletable rows. */
  lemma CallKeepsGoal(k: Kiosk, cursor: Option<Position>, cutoff: real)
    ensures Pruned(PruneCall(k, cursor, cutoff).0, cutoff) == Pruned(k, cutoff)
  {
    if Range(k, cursor, cutoff) != {} {
      CallOfPage(k, cursor, cutoff);
      var page := Elements(Page(k, cursor, cutoff));
      DeletableIsStable(k, page, cutoff);
      assert Pruned(DeleteRows(k, page, cutoff), cutoff).logs == Pruned(k, cutoff).logs;
    }
  }

  /** What is behind the new position is the old range without the page. */
  lemma BehindPage(k: Kiosk, cursor: Option<Position>, cutoff: real, i: nat)
    requires i in Range(k, cursor, cutoff)
    ensures var page := Page(k, cursor, cutoff);
            page != [] &&
            (Behind(k, i, Some(PositionOf(k, page[|page| - 1]))) <==> i !in page)
  {
    CallOfPage(k, cursor, cutoff);
    var page := Page(k, cursor, cutoff);
    if i in page {
      var j :| 0 <= j < |page| && page[j] == i;
      if j < |page| - 1 {
        FirstOfAscends(k, Range(k, cursor, cutoff), PRUNE_BATCH, j, |page| - 1);
      }
    } else {
      FirstOfPrecedes(k, Range(k, cursor, cutoff), PRUNE_BATCH, |page| - 1, i);
    }
  }

  /** A call cleans up to its new position. */
  lemma CallCleans(k: Kiosk, cursor: Option<Position>, cutoff: real)
    requires Clean(k, cursor, cutoff) && Range(k, cursor, cutoff) != {}
    ensures var (next, position) := PruneCall(k, cursor, cutoff); position.Some? && Clean(next, position, cutoff)
  {
    CallOfPage(k, cursor, cutoff);
    var page := Page(k, cursor, cutoff);
    var (next, position) := PruneCall(k, cursor, cutoff);
    DeletableIsStable(k, Elements(page), cutoff);
    forall i | i in next.logs && Deletable(next, i, cutoff) ensures Behind(next, i, position) {
      assert Deletable(k, i, cutoff) && i !in page;
      BehindPage(k, cursor, cutoff, i);
    }
  }

  /** A call leaves 100 rows fewer to look at, or none. */
  lemma CallMakesProgress(k: Kiosk, cursor: Option<Position>, cutoff: real)
    requires Range(k, cursor, cutoff) != {}
    ensures var (next, position) := PruneCall(k, cursor, cutoff);
            |Range(next, position, cutoff)| + PRUNE_BATCH <= |Range(k, cursor, cutoff)| ||
            |Range(next, position, cutoff)| == 0
  {
    var range, page := Range(k, cursor, cutoff), Page(k, cursor, cutoff);
    CallOfPage(k, cursor, cutoff);
    FirstOfCounts(k, range, PRUNE_BATCH);
    if |page| < PRUNE_BATCH {
      FirstOfIsAll(k, range, PRUNE_BATCH);
    }
    assert Elements(page) <= range;
    var (next, position) := PruneCall(k, cursor, cutoff);
    var ahead := Range(next, position, cutoff);
    forall i | i in ahead ensures i in range && i !in Elements(page) {
      StillInRange(k, cursor, cutoff, i);
      BehindPage(k, cursor, cutoff, i);
    }
    assert ahead <= range - Elements(page);
    CardinalityOfSubset(ahead, range - Elements(page));
  }

  lemma StillInRange(k: Kiosk, cursor: Option<Position>, cutoff: real, i: nat)
    requires Range(k, cursor, cutoff) != {}
    requires var (next, position) := PruneCall(k, cursor, cutoff); i in Range(next, position, cutoff)
    ensures i in Range(k, cursor, cutoff)
  {
    CallOfPage(k, cursor, cutoff);
  }

  lemma {:induction false} CardinalityOfSubset(a: set<nat>, b: set<nat>)
    requires a <= b
    ensures |a| <= |b|
  {
    if a != b {
      Subset(a, b);
    }
  }

  lemma NothingLeft(k: Kiosk, cursor: Option<Position>, cutoff: real)
    requires Clean(k, cursor, cutoff) && Range(k, cursor, cutoff) == {}
    ensures Pruned(k, cutoff) == k && forall i :: i in k.logs ==> !Deletable(k, i, cutoff)
  {
    forall i | i in k.logs ensures !Deletable(k, i, cutoff) {
      assert Deletable(k, i, cutoff) ==> i in Range(k, cursor, cutoff);
    }
    assert Pruned(k, cutoff).logs == k.logs;
  }

  lemma {:induction false} SweepClears(k: Kiosk, cursor: Option<Position>, cutoff: real, calls: nat)
    requires Clean(k, cursor, cutoff) && |Range(k, cursor, cutoff)| <= PRUNE_BATCH * calls
    ensures Sweep(k, cursor, cutoff, calls) == Pruned(k, cutoff)
    decreases calls
  {
    if Range(k, cursor, cutoff) == {} {
      NothingLeft(k, cursor, cutoff);
      SweepOfPruned(k, cursor, cutoff, calls);
    } else {
      CallMakesProgress(k, cursor, cutoff);
      CallCleans(k, cursor, cutoff);
      CallKeepsGoal(k, cursor, cutoff);
      var (next, position) := PruneCall(k, cursor, cutoff);
      SweepClears(next, position, cutoff, calls - 1);
    }
  }

  /** From a fresh cursor, n / 100 calls rounded up remove every deletable row and nothing else. */
  lemma FreshSweepIsExact(k: Kiosk, cutoff: real)
    ensures var n := |Range(k, None, cutoff)|;
            Sweep(k, None, cutoff, (n + PRUNE_BATCH - 1) / PRUNE_BATCH) == Pruned(k, cutoff)
  {
    var n := |Range(k, None, cutoff)|;
    SweepClears(k, None, cutoff, (n + PRUNE_BATCH - 1) / PRUNE_BATCH);
  }

  /** The cursor strictly advances until the sweep starts over. */
  lemma CursorAdvances(k: Kiosk, cursor: Option<Position>, cutoff: real)
    ensures var (next, position) := PruneCall(k, cursor, cutoff);
            cursor.Some? && position.Some? ==>
              position.value.epoch > cursor.value.epoch ||
              (position.value.epoch == cursor.value.epoch && position.value.id > cursor.value.id)
  {
    var page := Page(k, cursor, cutoff);
    assert page != [] ==> page[|page| - 1] in Range(k, cursor, cutoff);
  }
}
