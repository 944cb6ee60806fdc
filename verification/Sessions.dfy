/** Portal sessions of one account: revocation, its bounded cleanup, and authorization. */
module Sessions {
  import opened Options

  const MAX_SESSIONS := 10
  const TOKEN_BUDGET := 100
  const EXPIRY_BATCH := 100

  datatype Session = Session(id: nat, created: real, expires: real)

  /** `sessions` is in index order; `tokens` lists the refresh tokens of a session.  `jobs` are the
      scheduled cleanups by cutoff and `expired` the scheduled token removals by session.
      `revoked` is history: every session that was there at some revocation. */
  datatype Portal = Portal(
    active: bool, revokedAt: Option<real>,
    sessions: seq<Session>, tokens: map<nat, seq<nat>>, next: nat,
    jobs: multiset<real>, expired: set<nat>, revoked: set<nat>)

  // ----- authorization -----

  /** A token names its user alone, or also the session it was issued for. */
  datatype Identity = BareUser | ForSession(id: nat)

  predicate Present(sessions: seq<Session>, id: nat) {
    exists x :: x in sessions && x.id == id
  }

  predicate HasCurrentSession(p: Portal, identity: Identity, now: real) {
    match identity
    case BareUser => p.revokedAt == None
    case ForSession(id) =>
      exists x :: x in p.sessions && x.id == id && x.expires > now
        && (p.revokedAt == None || x.created > p.revokedAt.value)
  }

  predicate Authorized(p: Portal, identity: Identity, now: real) {
    p.active && HasCurrentSession(p, identity, now)
  }

  // ----- the cleanup batch -----

  function TokensOf(tokens: map<nat, seq<nat>>, id: nat): seq<nat> {
    if id in tokens then tokens[id] else []
  }

  datatype Batch = Batch(sessions: seq<Session>, tokens: map<nat, seq<nat>>, deleted: nat)

  /** At most `left` sessions from the front, at most `budget` tokens; a session goes only when all
      its tokens are gone, and a session after the cutoff ends the batch. */
  function RevokeBatch(
    sessions: seq<Session>, tokens: map<nat, seq<nat>>, cutoff: real, left: nat, budget: nat): (b: Batch)
    ensures b.deleted <= budget
    decreases left
  {
    if left == 0 || sessions == [] || sessions[0].created > cutoff then Batch(sessions, tokens, 0)
    else
      var id := sessions[0].id;
      var owned := TokensOf(tokens, id);
      if |owned| > budget then Batch(sessions, tokens[id := owned[budget..]], budget)
      else
        var rest := RevokeBatch(sessions[1..], tokens - {id}, cutoff, left - 1, budget - |owned|);
        rest.(deleted := |owned| + rest.deleted)
  }

  predicate HasWork(sessions: seq<Session>, cutoff: real) {
    sessions != [] && sessions[0].created <= cutoff
  }

  ghost predicate InOrder(sessions: seq<Session>) {
    forall i, j :: 0 <= i < j < |sessions| ==>
      sessions[i].created <= sessions[j].created && sessions[i].id != sessions[j].id
  }

  function CountTokens(sessions: seq<Session>, tokens: map<nat, seq<nat>>): nat {
    if sessions == [] then 0
    else |TokensOf(tokens, sessions[0].id)| + CountTokens(sessions[1..], tokens)
  }

  lemma {:induction false} CountIgnoresOthers(sessions: seq<Session>, a: map<nat, seq<nat>>, b: map<nat, seq<nat>>)
    requires forall i :: 0 <= i < |sessions| ==> TokensOf(a, sessions[i].id) == TokensOf(b, sessions[i].id)
    ensures CountTokens(sessions, a) == CountTokens(sessions, b)
  {
    if sessions != [] {
      CountIgnoresOthers(sessions[1..], a, b);
    }
  }

  /** `k` sessions are gone from the front, with all their tokens; no other session, and no token
      of one after the cutoff, is touched. */
  ghost predicate Removes(sessions: seq<Session>, tokens: map<nat, seq<nat>>, cutoff: real, b: Batch, k: nat) {
    && k <= |sessions| && b.sessions == sessions[k..]
    && (forall i :: 0 <= i < k ==> sessions[i].created <= cutoff && TokensOf(b.tokens, sessions[i].id) == [])
    && (forall i :: k <= i < |sessions| && sessions[i].created > cutoff ==>
          TokensOf(b.tokens, sessions[i].id) == TokensOf(tokens, sessions[i].id))
  }

  lemma RemovesOneMore(
    sessions: seq<Session>, tokens: map<nat, seq<nat>>, cutoff: real, b: Batch, k: nat)
    requires InOrder(sessions) && HasWork(sessions, cutoff)
    requires Removes(sessions[1..], tokens - {sessions[0].id}, cutoff, b, k)
    requires TokensOf(b.tokens, sessions[0].id) == []
    ensures Removes(sessions, tokens, cutoff, b, k + 1)
  {
    assert sessions[1..][k..] == sessions[k + 1..];
    forall i | 0 <= i < k + 1 ensures sessions[i].created <= cutoff && TokensOf(b.tokens, sessions[i].id) == [] {
      assert i > 0 ==> sessions[1..][i - 1] == sessions[i];
    }
    forall i | k + 1 <= i < |sessions| && sessions[i].created > cutoff
      ensures TokensOf(b.tokens, sessions[i].id) == TokensOf(tokens, sessions[i].id)
    {
      assert sessions[1..][i - 1] == sessions[i];
    }
  }

  lemma {:induction false} BatchAddsNoTokens(
    sessions: seq<Session>, tokens: map<nat, seq<nat>>, cutoff: real, left: nat, budget: nat, id: nat)
    requires TokensOf(tokens, id) == []
    ensures TokensOf(RevokeBatch(sessions, tokens, cutoff, left, budget).tokens, id) == []
    decreases left
  {
    if left > 0 && HasWork(sessions, cutoff) && |TokensOf(tokens, sessions[0].id)| <= budget {
      var owned := TokensOf(tokens, sessions[0].id);
      BatchAddsNoTokens(sessions[1..], tokens - {sessions[0].id}, cutoff, left - 1, budget - |owned|, id);
    }
  }

  /** What one batch does.  When work is left over, the batch removed its ten sessions or its
      hundred tokens. */
  ghost predicate BatchMeans(
    sessions: seq<Session>, tokens: map<nat, seq<nat>>, cutoff: real, left: nat, budget: nat, b: Batch, k: nat)
  {
    && Removes(sessions, tokens, cutoff, b, k) && k <= left
    && CountTokens(sessions, tokens) == CountTokens(b.sessions, b.tokens) + b.deleted
    && (HasWork(b.sessions, cutoff) ==> k == left || b.deleted == budget)
  }

  lemma EmptyBatchMeans(sessions: seq<Session>, tokens: map<nat, seq<nat>>, cutoff: real, left: nat, budget: nat)
    requires left == 0 || !HasWork(sessions, cutoff)
    ensures BatchMeans(sessions, tokens, cutoff, left, budget, Batch(sessions, tokens, 0), 0)
  {
  }

  lemma PartialBatchMeans(sessions: seq<Session>, tokens: map<nat, seq<nat>>, cutoff: real, left: nat, budget: nat)
    requires InOrder(sessions) && HasWork(sessions, cutoff) && |TokensOf(tokens, sessions[0].id)| > budget
    ensures var id := sessions[0].id;
            BatchMeans(sessions, tokens, cutoff, left, budget,
                       Batch(sessions, tokens[id := TokensOf(tokens, id)[budget..]], budget), 0)
  {
    var id := sessions[0].id;
    CountIgnoresOthers(sessions[1..], tokens, tokens[id := TokensOf(tokens, id)[budget..]]);
  }

  lemma LargerBatchMeans(
    sessions: seq<Session>, tokens: map<nat, seq<nat>>, cutoff: real, left: nat, budget: nat, b: Batch, k: nat)
    requires InOrder(sessions) && HasWork(sessions, cutoff) && |TokensOf(tokens, sessions[0].id)| <= budget && left > 0
    requires BatchMeans(sessions[1..], tokens - {sessions[0].id}, cutoff, left - 1,
                        budget - |TokensOf(tokens, sessions[0].id)|, b, k)
    requires TokensOf(b.tokens, sessions[0].id) == []
    ensures BatchMeans(sessions, tokens, cutoff, left, budget,
                       b.(deleted := |TokensOf(tokens, sessions[0].id)| + b.deleted), k + 1)
  {
    RemovesOneMore(sessions, tokens, cutoff, b, k);
    CountIgnoresOthers(sessions[1..], tokens, tokens - {sessions[0].id});
  }

  lemma {:induction false} RevokeBatchMeans(
    sessions: seq<Session>, tokens: map<nat, seq<nat>>, cutoff: real, left: nat, budget: nat) returns (k: nat)
    requires InOrder(sessions)
    ensures BatchMeans(sessions, tokens, cutoff, left, budget, RevokeBatch(sessions, tokens, cutoff, left, budget), k)
    decreases left
  {
    if left == 0 || !HasWork(sessions, cutoff) {
      EmptyBatchMeans(sessions, tokens, cutoff, left, budget);
      return 0;
    }
    var id := sessions[0].id;
    var owned := TokensOf(tokens, id);
    if |owned| > budget {
      PartialBatchMeans(sessions, tokens, cutoff, left, budget);
      return 0;
    }
    var b := RevokeBatch(sessions[1..], tokens - {id}, cutoff, left - 1, budget - |owned|);
    k := RevokeBatchMeans(sessions[1..], tokens - {id}, cutoff, left - 1, budget - |owned|);
    BatchAddsNoTokens(sessions[1..], tokens - {id}, cutoff, left - 1, budget - |owned|, id);
    LargerBatchMeans(sessions, tokens, cutoff, left, budget, b, k);
    k := k + 1;
  }

  /** The scheduled continuation, undisturbed: batches until no session at or before the cutoff is
      left.  `batches` counts the transactions. */
  function Cleanup(sessions: seq<Session>, tokens: map<nat, seq<nat>>, cutoff: real): (r: (Batch, nat))
    requires InOrder(sessions)
    decreases |sessions| + CountTokens(sessions, tokens)
  {
    var b := RevokeBatch(sessions, tokens, cutoff, MAX_SESSIONS, TOKEN_BUDGET);
    CleanupProgress(sessions, tokens, cutoff);
    if HasWork(b.sessions, cutoff) then
      var rest := Cleanup(b.sessions, b.tokens, cutoff);
      (rest.0.(deleted := b.deleted + rest.0.deleted), 1 + rest.1)
    else (b, 1)
  }

  /** A batch that leaves work behind has removed ten sessions or a hundred tokens. */
  lemma CleanupProgress(sessions: seq<Session>, tokens: map<nat, seq<nat>>, cutoff: real)
    requires InOrder(sessions)
    ensures var b := RevokeBatch(sessions, tokens, cutoff, MAX_SESSIONS, TOKEN_BUDGET);
            && InOrder(b.sessions)
            && |b.sessions| <= |sessions| && CountTokens(b.sessions, b.tokens) <= CountTokens(sessions, tokens)
            && (HasWork(b.sessions, cutoff) ==>
                  || |b.sessions| + 10 <= |sessions|
                  || CountTokens(b.sessions, b.tokens) + 100 <= CountTokens(sessions, tokens))
  {
    var k := RevokeBatchMeans(sessions, tokens, cutoff, MAX_SESSIONS, TOKEN_BUDGET);
  }

  /** Cleanup stops, after at most one batch more than the tens of sessions and hundreds of tokens.
      It removes exactly the sessions at or before the cutoff, with all their tokens, counts the tokens
      that it deletes, and touches no later session. */
  lemma {:induction false} CleanupRemovesExactly(sessions: seq<Session>, tokens: map<nat, seq<nat>>, cutoff: real)
    returns (k: nat)
    requires InOrder(sessions)
    ensures var (b, batches) := Cleanup(sessions, tokens, cutoff);
            && Removes(sessions, tokens, cutoff, b, k)
            && (forall i :: k <= i < |sessions| ==> sessions[i].created > cutoff)
            && CountTokens(sessions, tokens) == CountTokens(b.sessions, b.tokens) + b.deleted
            && 100 * (batches - 1) <= 10 * |sessions| + CountTokens(sessions, tokens)
    decreases |sessions| + CountTokens(sessions, tokens)
  {
    var b := RevokeBatch(sessions, tokens, cutoff, MAX_SESSIONS, TOKEN_BUDGET);
    CleanupProgress(sessions, tokens, cutoff);
    k := RevokeBatchMeans(sessions, tokens, cutoff, MAX_SESSIONS, TOKEN_BUDGET);
    if HasWork(b.sessions, cutoff) {
      var m := CleanupRemovesExactly(b.sessions, b.tokens, cutoff);
      var (c, _) := Cleanup(b.sessions, b.tokens, cutoff);
      forall i | 0 <= i < k ensures TokensOf(c.tokens, sessions[i].id) == [] {
        CleanupAddsNoTokens(b.sessions, b.tokens, cutoff, sessions[i].id);
      }
      RemovesThenRemoves(sessions, tokens, cutoff, b, k, c, m);
      k := k + m;
    } else {
      NoWorkLeft(sessions, cutoff, k);
    }
  }

  /** No transaction of it removes more than ten sessions or a hundred tokens. */
  lemma {:induction false} CleanupIsBatched(sessions: seq<Session>, tokens: map<nat, seq<nat>>, cutoff: real)
    requires InOrder(sessions)
    ensures var (b, batches) := Cleanup(sessions, tokens, cutoff);
            |sessions| - |b.sessions| <= 10 * batches && b.deleted <= 100 * batches
    decreases |sessions| + CountTokens(sessions, tokens)
  {
    var b := RevokeBatch(sessions, tokens, cutoff, MAX_SESSIONS, TOKEN_BUDGET);
    CleanupProgress(sessions, tokens, cutoff);
    var k := RevokeBatchMeans(sessions, tokens, cutoff, MAX_SESSIONS, TOKEN_BUDGET);
    if HasWork(b.sessions, cutoff) {
      CleanupIsBatched(b.sessions, b.tokens, cutoff);
    }
  }

  lemma NoWorkLeft(sessions: seq<Session>, cutoff: real, k: nat)
    requires InOrder(sessions) && k <= |sessions| && !HasWork(sessions[k..], cutoff)
    ensures forall i :: k <= i < |sessions| ==> sessions[i].created > cutoff
  {
  }

  lemma {:induction false} CleanupAddsNoTokens(
    sessions: seq<Session>, tokens: map<nat, seq<nat>>, cutoff: real, id: nat)
    requires InOrder(sessions) && TokensOf(tokens, id) == []
    ensures TokensOf(Cleanup(sessions, tokens, cutoff).0.tokens, id) == []
    decreases |sessions| + CountTokens(sessions, tokens)
  {
    var b := RevokeBatch(sessions, tokens, cutoff, MAX_SESSIONS, TOKEN_BUDGET);
    CleanupProgress(sessions, tokens, cutoff);
    BatchAddsNoTokens(sessions, tokens, cutoff, MAX_SESSIONS, TOKEN_BUDGET, id);
    if HasWork(b.sessions, cutoff) {
      CleanupAddsNoTokens(b.sessions, b.tokens, cutoff, id);
    }
  }

  lemma RemovesThenRemoves(
    sessions: seq<Session>, tokens: map<nat, seq<nat>>, cutoff: real, b: Batch, k: nat, c: Batch, m: nat)
    requires Removes(sessions, tokens, cutoff, b, k) && Removes(b.sessions, b.tokens, cutoff, c, m)
    requires forall i :: 0 <= i < k ==> TokensOf(c.tokens, sessions[i].id) == []
    ensures Removes(sessions, tokens, cutoff, c, k + m)
  {
    assert sessions[k..][m..] == sessions[k + m..];
    forall i | 0 <= i < k + m ensures sessions[i].created <= cutoff && TokensOf(c.tokens, sessions[i].id) == [] {
      assert i >= k ==> b.sessions[i - k] == sessions[i];
    }
    forall i | k + m <= i < |sessions| && sessions[i].created > cutoff
      ensures TokensOf(c.tokens, sessions[i].id) == TokensOf(tokens, sessions[i].id)
    {
      assert b.sessions[i - k] == sessions[i];
    }
  }

  // ----- every history of the account -----

  function Max(a: real, b: real): real {
    if a < b then b else a
  }

  /** The newest session's creation time, or zero. */
  function Latest(sessions: seq<Session>): real {
    if sessions == [] then 0.0 else sessions[|sessions| - 1].created
  }

  function IdsOf(sessions: seq<Session>): set<nat> {
    set i | 0 <= i < |sessions| :: sessions[i].id
  }

  function RunBatch(p: Portal, cutoff: real): Portal {
    var b := RevokeBatch(p.sessions, p.tokens, cutoff, MAX_SESSIONS, TOKEN_BUDGET);
    p.(sessions := b.sessions, tokens := b.tokens,
       jobs := if HasWork(b.sessions, cutoff) then p.jobs + multiset{cutoff} else p.jobs)
  }

  function Revoke(p: Portal, cutoff: real): Portal {
    RunBatch(p.(revokedAt := Some(cutoff), revoked := p.revoked + IdsOf(p.sessions)), cutoff)
  }

  function InsertSession(sessions: seq<Session>, s: Session): seq<Session> {
    if sessions == [] || sessions[|sessions| - 1].created <= s.created then sessions + [s]
    else InsertSession(sessions[..|sessions| - 1], s) + [sessions[|sessions| - 1]]
  }

  function Without(sessions: seq<Session>, id: nat): seq<Session> {
    if sessions == [] then []
    else if sessions[|sessions| - 1].id == id then sessions[..|sessions| - 1]
    else Without(sessions[..|sessions| - 1], id) + [sessions[|sessions| - 1]]
  }

  datatype Step =
    | SignIn(created: real, expires: real, token: nat)
    | Refresh(id: nat, token: nat)
    | SignOut(id: nat)
    | Disable(now: real)
    | Enable
    | ResetPassword(now: real)
    | ChangePassword(now: real)
    | CleanupRevoked(cutoff: real)
    | Expire(id: nat)
    | RemoveExpired(id: nat)

  /** Clocks are arbitrary: a later step may carry an earlier time.  Disabling takes the newest
      session into its cutoff but, unlike a reset or a change, not the previous cutoff. */
  function Do(p: Portal, step: Step): Portal {
    match step
    case SignIn(created, expires, token) =>
      p.(sessions := InsertSession(p.sessions, Session(p.next, created, expires)),
         tokens := p.tokens[p.next := [token]], next := p.next + 1)
    case Refresh(id, token) =>
      if Present(p.sessions, id) then p.(tokens := p.tokens[id := TokensOf(p.tokens, id) + [token]]) else p
    case SignOut(id) =>
      if Present(p.sessions, id) then p.(sessions := Without(p.sessions, id), tokens := p.tokens - {id}) else p
    case Disable(now) =>
      if !p.active then p else Revoke(p.(active := false), Max(now, Latest(p.sessions)))
    case Enable => p.(active := true)
    case ResetPassword(now) => Revoke(p, Max(Max(now, Latest(p.sessions)), p.revokedAt.GetOr(0.0)))
    case ChangePassword(now) => Revoke(p, Max(Max(now, Latest(p.sessions)), p.revokedAt.GetOr(0.0)))
    case CleanupRevoked(cutoff) =>
      if cutoff in p.jobs then RunBatch(p.(jobs := p.jobs - multiset{cutoff}), cutoff) else p
    case Expire(id) =>
      if Present(p.sessions, id) then p.(sessions := Without(p.sessions, id), expired := p.expired + {id}) else p
    case RemoveExpired(id) =>
      if id !in p.expired then p
      else if Present(p.sessions, id) then p.(expired := p.expired - {id})
      else
        var owned := TokensOf(p.tokens, id);
        var taken := if |owned| < EXPIRY_BATCH then |owned| else EXPIRY_BATCH;
        p.(tokens := p.tokens[id := owned[taken..]],
           expired := if taken == EXPIRY_BATCH then p.expired else p.expired - {id})
  }

  function Run(p: Portal, steps: seq<Step>): Portal {
    if steps == [] then p else Do(Run(p, steps[..|steps| - 1]), steps[|steps| - 1])
  }

  // ----- the invariant -----

  ghost predicate IdsOk(p: Portal) {
    && InOrder(p.sessions)
    && (forall x :: x in p.sessions ==> x.id < p.next)
    && (forall id :: id in p.revoked || id in p.tokens || id in p.expired ==> id < p.next)
  }

  /** A session revoked once is behind the current cutoff. */
  ghost predicate BehindCutoff(p: Portal) {
    && (p.revoked != {} ==> p.revokedAt.Some?)
    && (forall x :: x in p.sessions && x.id in p.revoked ==> p.revokedAt.Some? && x.created <= p.revokedAt.value)
  }

  ghost predicate Pending(jobs: multiset<real>, created: real) {
    exists cutoff :: cutoff in jobs && created <= cutoff
  }

  /** Every revoked session that is still there waits for a scheduled cleanup. */
  ghost predicate CleanupScheduled(p: Portal) {
    forall x :: x in p.sessions && x.id in p.revoked ==> Pending(p.jobs, x.created)
  }

  /** Tokens belong to a session that is there, or wait for their removal. */
  ghost predicate TokensOwned(p: Portal) {
    forall id :: TokensOf(p.tokens, id) != [] ==> Present(p.sessions, id) || id in p.expired
  }

  ghost predicate Inv(p: Portal) {
    IdsOk(p) && BehindCutoff(p) && CleanupScheduled(p) && TokensOwned(p)
  }

  ghost predicate IsNewAccount(p: Portal) {
    p.sessions == [] && p.tokens == map[] && p.expired == {} && p.revoked == {}
  }

  lemma NewAccountIsOk(p: Portal)
    requires IsNewAccount(p)
    ensures Inv(p)
  {
  }

  lemma {:induction false} InsertedSession(sessions: seq<Session>, s: Session)
    requires InOrder(sessions) && forall i :: 0 <= i < |sessions| ==> sessions[i].id != s.id
    ensures InOrder(InsertSession(sessions, s))
    ensures forall x :: x in InsertSession(sessions, s) <==> x in sessions || x == s
  {
    if sessions != [] && s.created < sessions[|sessions| - 1].created {
      var front, last := sessions[..|sessions| - 1], sessions[|sessions| - 1];
      InsertedSession(front, s);
      var r := InsertSession(front, s);
      assert sessions == front + [last];
      forall i | 0 <= i < |r| ensures r[i].created <= last.created && r[i].id != last.id {
        assert r[i] in r;
      }
    }
  }

  lemma {:induction false} WithoutSession(sessions: seq<Session>, id: nat)
    requires InOrder(sessions)
    ensures InOrder(Without(sessions, id))
    ensures forall x :: x in Without(sessions, id) <==> x in sessions && x.id != id
  {
    if sessions != [] {
      var front, last := sessions[..|sessions| - 1], sessions[|sessions| - 1];
      assert sessions == front + [last];
      if last.id != id {
        WithoutSession(front, id);
        var r := Without(front, id);
        forall i | 0 <= i < |r| ensures r[i].created <= last.created && r[i].id != last.id {
          assert r[i] in r;
        }
      }
    }
  }

  // ----- one batch -----

  /** A batch keeps the rest of the table, and what it drops is at or before the cutoff and has no
      tokens left. */
  ghost predicate BatchSafe(sessions: seq<Session>, tokens: map<nat, seq<nat>>, cutoff: real, b: Batch) {
    && InOrder(b.sessions)
    && (forall x :: x in b.sessions ==> x in sessions)
    && (forall x :: x in sessions && x !in b.sessions ==> x.created <= cutoff && TokensOf(b.tokens, x.id) == [])
    && (forall id :: TokensOf(tokens, id) == [] ==> TokensOf(b.tokens, id) == [])
    && (forall id :: id in b.tokens ==> id in tokens)
  }

  lemma SuffixMembers(sessions: seq<Session>, k: nat, x: Session)
    requires k <= |sessions| && x in sessions
    ensures x in sessions[k..] || exists i :: 0 <= i < k && sessions[i] == x
  {
    var i :| 0 <= i < |sessions| && sessions[i] == x;
    if i >= k {
      assert sessions[k..][i - k] == x;
    }
  }

  lemma {:induction false} BatchAddsNoKeys(
    sessions: seq<Session>, tokens: map<nat, seq<nat>>, cutoff: real, left: nat, budget: nat, id: nat)
    requires id in RevokeBatch(sessions, tokens, cutoff, left, budget).tokens
    ensures id in tokens
    decreases left
  {
    if left > 0 && HasWork(sessions, cutoff) && |TokensOf(tokens, sessions[0].id)| <= budget {
      var owned := TokensOf(tokens, sessions[0].id);
      BatchAddsNoKeys(sessions[1..], tokens - {sessions[0].id}, cutoff, left - 1, budget - |owned|, id);
    }
  }

  lemma BatchIsSafe(sessions: seq<Session>, tokens: map<nat, seq<nat>>, cutoff: real)
    requires InOrder(sessions)
    ensures BatchSafe(sessions, tokens, cutoff, RevokeBatch(sessions, tokens, cutoff, MAX_SESSIONS, TOKEN_BUDGET))
  {
    var b := RevokeBatch(sessions, tokens, cutoff, MAX_SESSIONS, TOKEN_BUDGET);
    var k := RevokeBatchMeans(sessions, tokens, cutoff, MAX_SESSIONS, TOKEN_BUDGET);
    forall x | x in sessions && x !in b.sessions ensures x.created <= cutoff && TokensOf(b.tokens, x.id) == [] {
      SuffixMembers(sessions, k, x);
    }
    forall id | TokensOf(tokens, id) == [] ensures TokensOf(b.tokens, id) == [] {
      BatchAddsNoTokens(sessions, tokens, cutoff, MAX_SESSIONS, TOKEN_BUDGET, id);
    }
    forall id | id in b.tokens ensures id in tokens {
      BatchAddsNoKeys(sessions, tokens, cutoff, MAX_SESSIONS, TOKEN_BUDGET, id);
    }
  }

  /** A session at or before the cutoff is work for the next batch. */
  lemma LeftOverIsWork(sessions: seq<Session>, cutoff: real, x: Session)
    requires InOrder(sessions) && x in sessions && x.created <= cutoff
    ensures HasWork(sessions, cutoff)
  {
  }

  /** Every revoked session is due by the cutoff or waits for a scheduled cleanup. */
  ghost predicate Awaited(p: Portal, cutoff: real) {
    forall x :: x in p.sessions && x.id in p.revoked ==> x.created <= cutoff || Pending(p.jobs, x.created)
  }

  lemma BatchKeepsInv(p: Portal, cutoff: real)
    requires IdsOk(p) && BehindCutoff(p) && TokensOwned(p)
    requires Awaited(p, cutoff)
    ensures Inv(RunBatch(p, cutoff))
  {
    var after := RunBatch(p, cutoff);
    BatchIsSafe(p.sessions, p.tokens, cutoff);
    forall x | x in after.sessions && x.id in p.revoked ensures Pending(after.jobs, x.created) {
      if x.created <= cutoff {
        LeftOverIsWork(after.sessions, cutoff, x);
        assert cutoff in after.jobs;
      } else {
        var c :| c in p.jobs && x.created <= c;
        assert c in after.jobs;
      }
    }
    forall id | TokensOf(after.tokens, id) != [] ensures Present(after.sessions, id) || id in after.expired {
      if x :| x in p.sessions && x.id == id {
        assert x in after.sessions;
      }
    }
  }

  lemma LatestIsNewest(sessions: seq<Session>, x: Session)
    requires InOrder(sessions) && x in sessions
    ensures x.created <= Latest(sessions)
  {
    var i :| 0 <= i < |sessions| && sessions[i] == x;
  }

  /** Whatever the clock and the previous cutoff, a revocation's cutoff covers every session that
      is there, and so keeps every earlier revocation. */
  lemma RevokeKeepsInv(p: Portal, cutoff: real)
    requires Inv(p) && Latest(p.sessions) <= cutoff
    ensures Inv(Revoke(p, cutoff))
  {
    forall x | x in p.sessions ensures x.created <= cutoff {
      LatestIsNewest(p.sessions, x);
    }
    BatchKeepsInv(p.(revokedAt := Some(cutoff), revoked := p.revoked + IdsOf(p.sessions)), cutoff);
  }

  lemma StillPending(jobs: multiset<real>, cutoff: real, created: real)
    requires Pending(jobs, created)
    ensures created <= cutoff || Pending(jobs - multiset{cutoff}, created)
  {
    var c :| c in jobs && created <= c;
    assert c != cutoff ==> c in jobs - multiset{cutoff};
  }

  lemma CleanupIsAwaited(p: Portal, cutoff: real)
    requires CleanupScheduled(p)
    ensures Awaited(p.(jobs := p.jobs - multiset{cutoff}), cutoff)
  {
    forall x | x in p.sessions && x.id in p.revoked
      ensures x.created <= cutoff || Pending(p.jobs - multiset{cutoff}, x.created)
    {
      StillPending(p.jobs, cutoff, x.created);
    }
  }

  lemma QueueIsApart(p: Portal, jobs: multiset<real>)
    requires IdsOk(p) && BehindCutoff(p) && TokensOwned(p)
    ensures IdsOk(p.(jobs := jobs)) && BehindCutoff(p.(jobs := jobs)) && TokensOwned(p.(jobs := jobs))
  {
  }

  lemma CleanupKeepsInv(p: Portal, cutoff: real)
    requires Inv(p) && cutoff in p.jobs
    ensures Inv(Do(p, CleanupRevoked(cutoff)))
  {
    var q := p.(jobs := p.jobs - multiset{cutoff});
    CleanupIsAwaited(p, cutoff);
    QueueIsApart(p, q.jobs);
    BatchKeepsInv(q, cutoff);
    assert Do(p, CleanupRevoked(cutoff)) == RunBatch(q, cutoff);
  }

  lemma SignInKeepsInv(p: Portal, created: real, expires: real, token: nat)
    requires Inv(p)
    ensures Inv(Do(p, SignIn(created, expires, token)))
  {
    var s := Session(p.next, created, expires);
    var after := Do(p, SignIn(created, expires, token));
    InsertedSession(p.sessions, s);
    assert s in after.sessions;
    forall id | TokensOf(after.tokens, id) != [] ensures Present(after.sessions, id) || id in after.expired {
      assert id != p.next ==> TokensOf(p.tokens, id) != [];
      if x :| x in p.sessions && x.id == id {
        assert x in after.sessions;
      }
    }
  }

  lemma DropKeepsInv(p: Portal, step: Step)
    requires Inv(p) && (step.SignOut? || step.Expire?)
    ensures Inv(Do(p, step))
  {
    var after := Do(p, step);
    WithoutSession(p.sessions, step.id);
    forall id | TokensOf(after.tokens, id) != [] ensures Present(after.sessions, id) || id in after.expired {
      assert TokensOf(p.tokens, id) != [];
      if x :| x in p.sessions && x.id == id {
        assert id != step.id ==> x in after.sessions;
      }
    }
  }

  lemma TokenStepKeepsInv(p: Portal, step: Step)
    requires Inv(p) && (step.Refresh? || step.RemoveExpired? || step.Enable?)
    ensures Inv(Do(p, step))
  {
  }

  lemma StepKeepsInv(p: Portal, step: Step)
    requires Inv(p)
    ensures Inv(Do(p, step))
  {
    match step
    case SignIn(created, expires, token) => SignInKeepsInv(p, created, expires, token);
    case SignOut(_) => DropKeepsInv(p, step);
    case Expire(_) => DropKeepsInv(p, step);
    case Disable(now) =>
      if p.active {
        RevokeKeepsInv(p.(active := false), Max(now, Latest(p.sessions)));
      }
    case ResetPassword(now) => RevokeKeepsInv(p, Max(Max(now, Latest(p.sessions)), p.revokedAt.GetOr(0.0)));
    case ChangePassword(now) => RevokeKeepsInv(p, Max(Max(now, Latest(p.sessions)), p.revokedAt.GetOr(0.0)));
    case CleanupRevoked(cutoff) =>
      if cutoff in p.jobs {
        CleanupKeepsInv(p, cutoff);
      }
    case _ => TokenStepKeepsInv(p, step);
  }

  /** Revocations are only ever added. */
  lemma StepKeepsRevoked(p: Portal, step: Step)
    ensures p.revoked <= Do(p, step).revoked
    ensures p.revokedAt.Some? ==> Do(p, step).revokedAt.Some?
  {
  }

  lemma {:induction false} RunKeepsInv(p: Portal, steps: seq<Step>)
    requires Inv(p)
    ensures Inv(Run(p, steps)) && p.revoked <= Run(p, steps).revoked
    ensures p.revokedAt.Some? ==> Run(p, steps).revokedAt.Some?
  {
    if steps != [] {
      RunKeepsInv(p, steps[..|steps| - 1]);
      StepKeepsInv(Run(p, steps[..|steps| - 1]), steps[|steps| - 1]);
      StepKeepsRevoked(Run(p, steps[..|steps| - 1]), steps[|steps| - 1]);
    }
  }

  predicate Revokes(p: Portal, step: Step) {
    (step.Disable? && p.active) || step.ResetPassword? || step.ChangePassword?
  }

  lemma RevokedIsDenied(p: Portal, id: nat, now: real)
    requires Inv(p) && id in p.revoked
    ensures !Authorized(p, ForSession(id), now) && !Authorized(p, BareUser, now)
  {
  }

  lemma RevocationMarks(p: Portal, step: Step, id: nat)
    requires Revokes(p, step)
    ensures Present(p.sessions, id) ==> id in Do(p, step).revoked
    ensures Do(p, step).revokedAt.Some?
  {
    if x :| x in p.sessions && x.id == id {
      var i :| 0 <= i < |p.sessions| && p.sessions[i] == x;
      assert p.sessions[i].id in IdsOf(p.sessions);
    }
  }

  /** Revocation is permanent: a session that is there when the account is disabled, reset or given
      a new password never authorizes again, whatever happens later, even when a later cutoff is
      numerically lower.  Neither does a token that names the user alone. */
  lemma RevocationIsPermanent(p: Portal, step: Step, id: nat, steps: seq<Step>, now: real)
    requires Inv(p) && Revokes(p, step)
    ensures Present(p.sessions, id) ==> !Authorized(Run(Do(p, step), steps), ForSession(id), now)
    ensures !Authorized(Run(Do(p, step), steps), BareUser, now)
  {
    StepKeepsInv(p, step);
    RunKeepsInv(Do(p, step), steps);
    RevocationMarks(p, step, id);
    if Present(p.sessions, id) {
      RevokedIsDenied(Run(Do(p, step), steps), id, now);
    }
  }

  /** In every history of an account, a session that is there when the account is disabled, reset or
      given a new password never authorizes again. */
  lemma RevocationIsPermanentFromTheStart(
    p: Portal, earlier: seq<Step>, step: Step, id: nat, later: seq<Step>, now: real)
    requires IsNewAccount(p) && Revokes(Run(p, earlier), step) && Present(Run(p, earlier).sessions, id)
    ensures !Authorized(Run(Do(Run(p, earlier), step), later), ForSession(id), now)
  {
    NewAccountIsOk(p);
    RunKeepsInv(p, earlier);
    RevocationIsPermanent(Run(p, earlier), step, id, later, now);
  }

  lemma {:induction false} GoneStaysGone(p: Portal, steps: seq<Step>, id: nat)
    requires Inv(p) && id < p.next && !Present(p.sessions, id)
    ensures !Present(Run(p, steps).sessions, id) && Inv(Run(p, steps)) && p.next <= Run(p, steps).next
  {
    if steps != [] {
      var before := Run(p, steps[..|steps| - 1]);
      GoneStaysGone(p, steps[..|steps| - 1], id);
      StepKeepsInv(before, steps[|steps| - 1]);
      StepBringsBackNone(before, steps[|steps| - 1], id);
    }
  }

  lemma BatchBringsBackNone(p: Portal, cutoff: real, id: nat)
    requires InOrder(p.sessions) && !Present(p.sessions, id)
    ensures !Present(RunBatch(p, cutoff).sessions, id) && RunBatch(p, cutoff).next == p.next
  {
    BatchIsSafe(p.sessions, p.tokens, cutoff);
  }

  lemma RevokeBringsBackNone(p: Portal, cutoff: real, id: nat)
    requires InOrder(p.sessions) && !Present(p.sessions, id)
    ensures !Present(Revoke(p, cutoff).sessions, id) && Revoke(p, cutoff).next == p.next
  {
    BatchBringsBackNone(p.(revokedAt := Some(cutoff), revoked := p.revoked + IdsOf(p.sessions)), cutoff, id);
  }

  lemma TableStepBringsBackNone(p: Portal, step: Step, id: nat)
    requires Inv(p) && id < p.next && !Present(p.sessions, id)
    requires step.SignIn? || step.SignOut? || step.Expire? || step.Refresh? || step.Enable? || step.RemoveExpired?
    ensures !Present(Do(p, step).sessions, id) && p.next <= Do(p, step).next
  {
    if step.SignIn? {
      InsertedSession(p.sessions, Session(p.next, step.created, step.expires));
    } else if step.SignOut? || step.Expire? {
      WithoutSession(p.sessions, step.id);
    }
  }

  lemma StepBringsBackNone(p: Portal, step: Step, id: nat)
    requires Inv(p) && id < p.next && !Present(p.sessions, id)
    ensures !Present(Do(p, step).sessions, id) && p.next <= Do(p, step).next
  {
    match step
    case Disable(now) => RevokeBringsBackNone(p.(active := false), Max(now, Latest(p.sessions)), id);
    case ResetPassword(now) =>
      RevokeBringsBackNone(p, Max(Max(now, Latest(p.sessions)), p.revokedAt.GetOr(0.0)), id);
    case ChangePassword(now) =>
      RevokeBringsBackNone(p, Max(Max(now, Latest(p.sessions)), p.revokedAt.GetOr(0.0)), id);
    case CleanupRevoked(cutoff) =>
      BatchBringsBackNone(p.(jobs := p.jobs - multiset{cutoff}), cutoff, id);
    case _ => TableStepBringsBackNone(p, step, id);
  }

  lemma DroppedIsDenied(p: Portal, step: Step, steps: seq<Step>, now: real)
    requires Inv(p) && (step.SignOut? || step.Expire?) && step.id < p.next
    ensures !Authorized(Run(Do(p, step), steps), ForSession(step.id), now)
  {
    WithoutSession(p.sessions, step.id);
    DropKeepsInv(p, step);
    GoneStaysGone(Do(p, step), steps, step.id);
  }

  /** Signing in authorizes at once when the account is active and the session is later than the
      cutoff; signing out, or expiry, ends that for good. */
  lemma SignInUntilSignOut(p: Portal, created: real, expires: real, token: nat, steps: seq<Step>, now: real)
    requires Inv(p) && p.active && now < expires && (p.revokedAt.Some? ==> p.revokedAt.value < created)
    ensures var signedIn := Do(p, SignIn(created, expires, token));
            && Authorized(signedIn, ForSession(p.next), now)
            && !Authorized(Run(Do(signedIn, SignOut(p.next)), steps), ForSession(p.next), now)
            && !Authorized(Run(Do(signedIn, Expire(p.next)), steps), ForSession(p.next), now)
  {
    var signedIn := Do(p, SignIn(created, expires, token));
    InsertedSession(p.sessions, Session(p.next, created, expires));
    assert Session(p.next, created, expires) in signedIn.sessions;
    SignInKeepsInv(p, created, expires, token);
    DroppedIsDenied(signedIn, SignOut(p.next), steps, now);
    DroppedIsDenied(signedIn, Expire(p.next), steps, now);
  }

  /** When no cleanup is scheduled any more, no revoked session is left. */
  lemma CleanupCompletes(p: Portal, steps: seq<Step>, id: nat)
    requires Inv(p) && id in Run(p, steps).revoked && Run(p, steps).jobs == multiset{}
    ensures !Present(Run(p, steps).sessions, id)
    ensures id !in Run(p, steps).expired ==> TokensOf(Run(p, steps).tokens, id) == []
  {
    RunKeepsInv(p, steps);
    var after := Run(p, steps);
    forall created ensures !Pending(after.jobs, created) {
    }
  }

  // ----- when the cutoff moves back -----

  /** Disabling the active account while the clock and its newest session are behind the cutoff. */
  predicate LowersCutoff(p: Portal, step: Step) {
    && p.revokedAt.Some? && step.Disable? && p.active
    && Max(step.now, Latest(p.sessions)) < p.revokedAt.value
  }

  predicate AtLeast(later: Option<real>, earlier: Option<real>) {
    earlier.Some? ==> later.Some? && earlier.value <= later.value
  }

  /** A step lowers the cutoff exactly if it is such a disable. */
  lemma CutoffLowersIff(p: Portal, step: Step)
    ensures AtLeast(Do(p, step).revokedAt, p.revokedAt) <==> !LowersCutoff(p, step)
    ensures p.revokedAt.Some? ==> Do(p, step).revokedAt.Some?
  {
  }

  /** The cutoff after the first `i` steps. */
  function CutoffAfter(p: Portal, steps: seq<Step>, i: nat): Option<real>
    requires i <= |steps|
  {
    Run(p, steps[..i]).revokedAt
  }

  /** Step `i` lowers the cutoff. */
  predicate LowersAt(p: Portal, steps: seq<Step>, i: nat)
    requires i < |steps|
  {
    LowersCutoff(Run(p, steps[..i]), steps[i])
  }

  lemma CutoffAfterStep(p: Portal, steps: seq<Step>, i: nat)
    requires i < |steps|
    ensures AtLeast(CutoffAfter(p, steps, i + 1), CutoffAfter(p, steps, i)) <==>
            !LowersAt(p, steps, i)
  {
    assert steps[..i + 1][..i] == steps[..i];
    CutoffLowersIff(Run(p, steps[..i]), steps[i]);
  }

  lemma {:induction false} CutoffGrows(p: Portal, steps: seq<Step>, i: nat, j: nat)
    requires i <= j <= |steps|
    requires forall k: nat :: k < |steps| ==> !LowersAt(p, steps, k)
    ensures AtLeast(CutoffAfter(p, steps, j), CutoffAfter(p, steps, i))
  {
    if i < j {
      CutoffGrows(p, steps, i, j - 1);
      CutoffAfterStep(p, steps, j - 1);
    }
  }

  /** Along a history the cutoff never decreases. */
  ghost predicate CutoffNeverDrops(p: Portal, steps: seq<Step>) {
    forall i: nat, j: nat :: i <= j <= |steps| ==> AtLeast(CutoffAfter(p, steps, j), CutoffAfter(p, steps, i))
  }

  /** Over every history: the cutoff never decreases exactly if no step of it disables the active
      account while the clock and its newest session are behind the cutoff. */
  lemma CutoffNeverDropsIff(p: Portal, steps: seq<Step>)
    ensures CutoffNeverDrops(p, steps) <==>
            forall k: nat :: k < |steps| ==> !LowersAt(p, steps, k)
  {
    if CutoffNeverDrops(p, steps) {
      forall k: nat | k < |steps| ensures !LowersAt(p, steps, k) {
        CutoffAfterStep(p, steps, k);
        assert AtLeast(CutoffAfter(p, steps, k + 1), CutoffAfter(p, steps, k));
      }
    }
    if forall k: nat :: k < |steps| ==> !LowersAt(p, steps, k) {
      forall i: nat, j: nat | i <= j <= |steps| ensures AtLeast(CutoffAfter(p, steps, j), CutoffAfter(p, steps, i)) {
        CutoffGrows(p, steps, i, j);
      }
    }
  }

  /** Such a history exists: the account was reset by a clock ahead, and disabled after the clock
      had been set back. */
  lemma CutoffCanMoveBack(p: Portal, later: real, earlier: real)
    requires p.active && p.sessions == [] && 0.0 <= earlier < later
    ensures LowersCutoff(Do(p, ResetPassword(later)), Disable(earlier))
    ensures var reset := Do(p, ResetPassword(later));
            reset.revokedAt.Some? && Do(reset, Disable(earlier)).revokedAt == Some(earlier)
            && earlier < reset.revokedAt.value
  {
  }

  /** The rows themselves, cleaned up in place. */
  class PortalStore {
    var sessions: seq<Session>
    var tokens: map<nat, seq<nat>>

    constructor (sessions: seq<Session>, tokens: map<nat, seq<nat>>)
      ensures this.sessions == sessions && this.tokens == tokens
    {
      this.sessions, this.tokens := sessions, tokens;
    }

    /** One transaction; true when the rest is scheduled. */
    method RevokeSessionBatch(cutoff: real) returns (again: bool)
      modifies this
      ensures var b := RevokeBatch(old(sessions), old(tokens), cutoff, MAX_SESSIONS, TOKEN_BUDGET);
              sessions == b.sessions && tokens == b.tokens && again == HasWork(b.sessions, cutoff)
    {
      var budget, n := TOKEN_BUDGET, 0;
      ghost var all := RevokeBatch(sessions, tokens, cutoff, MAX_SESSIONS, TOKEN_BUDGET);
      while n < MAX_SESSIONS && sessions != []
        invariant 0 <= n <= MAX_SESSIONS && 0 <= budget <= TOKEN_BUDGET
        invariant var rest := RevokeBatch(sessions, tokens, cutoff, MAX_SESSIONS - n, budget);
                  all.sessions == rest.sessions && all.tokens == rest.tokens
      {
        var session := sessions[0];
        if session.created > cutoff {
          break;
        }
        var owned := TokensOf(tokens, session.id);
        if |owned| > budget {
          tokens := tokens[session.id := owned[budget..]];
          return HasWork(sessions, cutoff);
        }
        budget := budget - |owned|;
        tokens := tokens - {session.id};
        sessions := sessions[1..];
        n := n + 1;
      }
      return HasWork(sessions, cutoff);
    }
  }
}
