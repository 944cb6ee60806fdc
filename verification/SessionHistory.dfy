/** Who is let in: a session's fate over every history of its account, read from the requests. */
module SessionHistory {
  import opened Options
  import opened Sessions

  // ----- what the requests say -----

  /** The last request that disables or enables the account decides whether it is active. */
  ghost function ActiveAfter(p: Portal, steps: seq<Step>): bool {
    if steps == [] then p.active
    else
      match steps[|steps| - 1]
      case Disable(_) => false
      case Enable => true
      case _ => ActiveAfter(p, steps[..|steps| - 1])
  }

  lemma {:induction false} ActiveIsLast(p: Portal, steps: seq<Step>)
    ensures Run(p, steps).active == ActiveAfter(p, steps)
  {
    if steps != [] {
      ActiveIsLast(p, steps[..|steps| - 1]);
    }
  }

  /** The step ends this session: it signs it out or expires it, or revokes all that are there. */
  ghost predicate Ends(p: Portal, step: Step, id: nat) {
    Revokes(p, step) || ((step.SignOut? || step.Expire?) && step.id == id)
  }

  /** Step `m` signs in session `id`, later than the cutoff and than every cutoff of a cleanup. */
  ghost predicate SignsIn(p: Portal, steps: seq<Step>, m: nat, id: nat) {
    && m < |steps| && steps[m].SignIn? && id == Run(p, steps[..m]).next
    && IsAfter(Run(p, steps[..m]), steps[m].created)
  }

  ghost predicate IsAfter(p: Portal, created: real) {
    && (p.revokedAt.Some? ==> p.revokedAt.value < created)
    && forall cutoff :: cutoff in p.jobs ==> cutoff < created
  }

  /** The refresh tokens that were issued to the session by the steps from `from` to `to`. */
  ghost function Issued(steps: seq<Step>, from: nat, to: nat, id: nat): seq<nat>
    requires from <= to <= |steps|
  {
    if from == to then []
    else
      var last := steps[to - 1];
      Issued(steps, from, to - 1, id) + (if last.Refresh? && last.id == id then [last.token] else [])
  }

  // ----- a session that lives -----

  /** The session is there, later than all cutoffs, with these refresh tokens. */
  ghost predicate Lives(p: Portal, s: Session, owned: seq<nat>) {
    && Inv(p) && s in p.sessions && s.id !in p.revoked && IsAfter(p, s.created)
    && s.id in p.tokens && p.tokens[s.id] == owned
  }

  lemma BatchSpares(p: Portal, cutoff: real, s: Session)
    requires InOrder(p.sessions) && s in p.sessions && cutoff < s.created
    ensures var after := RunBatch(p, cutoff);
            && s in after.sessions && TokensOf(after.tokens, s.id) == TokensOf(p.tokens, s.id)
            && (forall c :: c in after.jobs ==> c in p.jobs || c == cutoff)
            && after.active == p.active && after.revokedAt == p.revokedAt && after.revoked == p.revoked
  {
    var k := RevokeBatchMeans(p.sessions, p.tokens, cutoff, MAX_SESSIONS, TOKEN_BUDGET);
    SuffixMembers(p.sessions, k, s);
    var i :| 0 <= i < |p.sessions| && p.sessions[i] == s;
  }

  /** What a step adds to the session's refresh tokens. */
  ghost function Adds(step: Step, id: nat): seq<nat> {
    if step.Refresh? && step.id == id then [step.token] else []
  }

  lemma CleanupSpares(p: Portal, cutoff: real, s: Session, owned: seq<nat>)
    requires Lives(p, s, owned) && owned != []
    ensures Lives(Do(p, CleanupRevoked(cutoff)), s, owned)
  {
    StepKeepsInv(p, CleanupRevoked(cutoff));
    if cutoff in p.jobs {
      BatchSpares(p.(jobs := p.jobs - multiset{cutoff}), cutoff, s);
    }
  }

  lemma SignInSpares(p: Portal, created: real, expires: real, token: nat, s: Session, owned: seq<nat>)
    requires Lives(p, s, owned)
    ensures Lives(Do(p, SignIn(created, expires, token)), s, owned)
  {
    StepKeepsInv(p, SignIn(created, expires, token));
    InsertedSession(p.sessions, Session(p.next, created, expires));
  }

  lemma DropSpares(p: Portal, step: Step, s: Session, owned: seq<nat>)
    requires Lives(p, s, owned) && (step.SignOut? || step.Expire?) && step.id != s.id
    ensures Lives(Do(p, step), s, owned)
  {
    StepKeepsInv(p, step);
    WithoutSession(p.sessions, step.id);
  }

  lemma TokenStepSpares(p: Portal, step: Step, s: Session, owned: seq<nat>)
    requires Lives(p, s, owned) && (step.Refresh? || step.Enable? || step.RemoveExpired?)
    ensures Lives(Do(p, step), s, owned + Adds(step, s.id))
  {
    StepKeepsInv(p, step);
    assert Present(p.sessions, s.id);
    assert owned + [] == owned;
  }

  lemma LifeGoesOn(p: Portal, step: Step, s: Session, owned: seq<nat>)
    requires Lives(p, s, owned) && owned != [] && !Ends(p, step, s.id)
    ensures Lives(Do(p, step), s, owned + Adds(step, s.id))
  {
    assert owned + [] == owned;
    match step
    case SignIn(created, expires, token) => SignInSpares(p, created, expires, token, s, owned);
    case SignOut(_) => DropSpares(p, step, s, owned);
    case Expire(_) => DropSpares(p, step, s, owned);
    case CleanupRevoked(cutoff) => CleanupSpares(p, cutoff, s, owned);
    case Refresh(_, _) => TokenStepSpares(p, step, s, owned);
    case RemoveExpired(_) => TokenStepSpares(p, step, s, owned);
    case Enable => TokenStepSpares(p, step, s, owned);
    case Disable(_) =>
    case _ =>
  }

  // ----- a session that has ended -----

  /** Gone, or revoked: it is never let in again. */
  ghost predicate Ended(p: Portal, id: nat) {
    Inv(p) && id < p.next && (!Present(p.sessions, id) || id in p.revoked)
  }

  lemma EndIsNoticed(p: Portal, step: Step, s: Session, owned: seq<nat>)
    requires Lives(p, s, owned) && Ends(p, step, s.id)
    ensures Ended(Do(p, step), s.id)
  {
    StepKeepsInv(p, step);
    assert Present(p.sessions, s.id);
    if Revokes(p, step) {
      RevocationMarks(p, step, s.id);
    } else {
      WithoutSession(p.sessions, step.id);
    }
  }

  lemma EndedStays(p: Portal, step: Step, id: nat)
    requires Ended(p, id)
    ensures Ended(Do(p, step), id)
  {
    StepKeepsInv(p, step);
    StepKeepsRevoked(p, step);
    if !Present(p.sessions, id) {
      StepBringsBackNone(p, step, id);
    }
  }

  lemma EndedIsDenied(p: Portal, id: nat, now: real)
    requires Ended(p, id)
    ensures !Authorized(p, ForSession(id), now)
  {
    if id in p.revoked {
      RevokedIsDenied(p, id, now);
    }
  }

  // ----- every history -----

  /** No step behind step `m` ends the session. */
  ghost predicate NoEnd(p: Portal, steps: seq<Step>, m: nat, id: nat) {
    |steps| <= m + 1 ||
    (NoEnd(p, steps[..|steps| - 1], m, id) && !Ends(Run(p, steps[..|steps| - 1]), steps[|steps| - 1], id))
  }

  ghost predicate NeverRevoked(p: Portal, steps: seq<Step>) {
    steps == [] ||
    (NeverRevoked(p, steps[..|steps| - 1]) && !Revokes(Run(p, steps[..|steps| - 1]), steps[|steps| - 1]))
  }

  lemma BeginsToLive(p: Portal, created: real, expires: real, token: nat)
    requires Inv(p) && IsAfter(p, created)
    ensures Lives(Do(p, SignIn(created, expires, token)), Session(p.next, created, expires), [token])
  {
    StepKeepsInv(p, SignIn(created, expires, token));
    InsertedSession(p.sessions, Session(p.next, created, expires));
  }

  /** Until a step ends it the session lives, with exactly the refresh tokens that were issued to it;
      from then on it has ended. */
  ghost predicate Fate(p: Portal, lives: bool, s: Session, owned: seq<nat>) {
    owned != [] && if lives then Lives(p, s, owned) else Ended(p, s.id)
  }

  lemma FateStep(p: Portal, step: Step, lives: bool, s: Session, owned: seq<nat>)
    requires Fate(p, lives, s, owned)
    ensures Fate(Do(p, step), lives && !Ends(p, step, s.id), s, owned + Adds(step, s.id))
  {
    if !lives {
      EndedStays(p, step, s.id);
    } else if Ends(p, step, s.id) {
      EndIsNoticed(p, step, s, owned);
    } else {
      LifeGoesOn(p, step, s, owned);
    }
  }

  /** The tokens of the session that step `m` signs in. */
  ghost function Granted(steps: seq<Step>, m: nat, id: nat): seq<nat>
    requires m < |steps| && steps[m].SignIn?
  {
    [steps[m].token] + Issued(steps, m + 1, |steps|, id)
  }

  lemma {:induction false} IssuedInPrefix(steps: seq<Step>, from: nat, to: nat, id: nat, n: nat)
    requires from <= to <= n <= |steps|
    ensures Issued(steps[..n], from, to, id) == Issued(steps, from, to, id)
  {
    if from < to {
      IssuedInPrefix(steps, from, to - 1, id, n);
    }
  }

  lemma GrantedGrows(steps: seq<Step>, m: nat, id: nat)
    requires m + 1 < |steps| && steps[m].SignIn?
    ensures Granted(steps, m, id) == Granted(steps[..|steps| - 1], m, id) + Adds(steps[|steps| - 1], id)
  {
    IssuedInPrefix(steps, m + 1, |steps| - 1, id, |steps| - 1);
  }

  lemma FateBegins(p: Portal, steps: seq<Step>, m: nat, s: Session)
    requires Inv(p) && SignsIn(p, steps, m, s.id) && s == Session(s.id, steps[m].created, steps[m].expires)
    requires m + 1 == |steps|
    ensures Fate(Run(p, steps), NoEnd(p, steps, m, s.id), s, Granted(steps, m, s.id))
  {
    RunKeepsInv(p, steps[..m]);
    BeginsToLive(Run(p, steps[..m]), steps[m].created, steps[m].expires, steps[m].token);
    assert Granted(steps, m, s.id) == [steps[m].token];
  }

  lemma {:induction false} SessionFate(p: Portal, steps: seq<Step>, m: nat, s: Session)
    requires Inv(p) && SignsIn(p, steps, m, s.id) && s == Session(s.id, steps[m].created, steps[m].expires)
    ensures Fate(Run(p, steps), NoEnd(p, steps, m, s.id), s, Granted(steps, m, s.id))
    decreases |steps|
  {
    if m + 1 == |steps| {
      FateBegins(p, steps, m, s);
    } else {
      var front := steps[..|steps| - 1];
      assert front[..m] == steps[..m];
      SessionFate(p, front, m, s);
      FateStep(Run(p, front), steps[|steps| - 1], NoEnd(p, front, m, s.id), s, Granted(front, m, s.id));
      GrantedGrows(steps, m, s.id);
    }
  }

  /** A session that was signed in after all cutoffs is let in exactly while the last request about the
      account says active, the session has not expired, and since the sign-in nothing has signed it out,
      expired it, or disabled the active account, reset or changed its password. */
  lemma SessionAuthorizesIff(p: Portal, steps: seq<Step>, m: nat, id: nat, now: real)
    requires Inv(p) && SignsIn(p, steps, m, id)
    ensures Authorized(Run(p, steps), ForSession(id), now) <==>
            ActiveAfter(p, steps) && now < steps[m].expires && NoEnd(p, steps, m, id)
  {
    var s := Session(id, steps[m].created, steps[m].expires);
    SessionFate(p, steps, m, s);
    ActiveIsLast(p, steps);
    if NoEnd(p, steps, m, id) {
      OnlySession(Run(p, steps), s, now);
    } else {
      EndedIsDenied(Run(p, steps), id, now);
    }
  }

  lemma OnlySession(p: Portal, s: Session, now: real)
    requires InOrder(p.sessions) && s in p.sessions && IsAfter(p, s.created)
    ensures Authorized(p, ForSession(s.id), now) <==> p.active && now < s.expires
  {
    forall x | x in p.sessions && x.id == s.id ensures x == s {
    }
  }

  /** While it lives the session has exactly the refresh tokens that were issued to it. */
  lemma LiveTokens(p: Portal, steps: seq<Step>, m: nat, id: nat)
    requires Inv(p) && SignsIn(p, steps, m, id) && NoEnd(p, steps, m, id)
    ensures TokensOf(Run(p, steps).tokens, id) == Granted(steps, m, id)
  {
    SessionFate(p, steps, m, Session(id, steps[m].created, steps[m].expires));
  }

  // ----- a session behind the cutoff -----

  /** A session that is signed in at or before the cutoff is never let in. */
  ghost predicate Shadowed(p: Portal, id: nat) {
    && Inv(p) && id < p.next
    && forall x :: x in p.sessions && x.id == id ==> p.revokedAt.Some? && x.created <= p.revokedAt.value
  }

  lemma ShadowStays(p: Portal, step: Step, id: nat)
    requires Shadowed(p, id)
    ensures Shadowed(Do(p, step), id)
  {
    StepKeepsInv(p, step);
    if !Present(p.sessions, id) {
      StepBringsBackNone(p, step, id);
    } else if Revokes(p, step) {
      RevocationMarks(p, step, id);
    } else {
      QuietStepKeepsShadow(p, step, id);
    }
  }

  lemma QuietStepKeepsShadow(p: Portal, step: Step, id: nat)
    requires Shadowed(p, id) && Present(p.sessions, id) && !Revokes(p, step)
    ensures Shadowed(Do(p, step), id)
  {
    StepKeepsInv(p, step);
    match step
    case SignIn(created, expires, token) => InsertedSession(p.sessions, Session(p.next, created, expires));
    case SignOut(gone) => WithoutSession(p.sessions, gone);
    case Expire(gone) => WithoutSession(p.sessions, gone);
    case CleanupRevoked(cutoff) => BatchIsSafe(p.sessions, p.tokens, cutoff);
    case _ =>
  }

  lemma {:induction false} ShadowedIsDenied(p: Portal, steps: seq<Step>, id: nat, now: real)
    requires Shadowed(p, id)
    ensures Shadowed(Run(p, steps), id) && !Authorized(Run(p, steps), ForSession(id), now)
  {
    if steps != [] {
      ShadowedIsDenied(p, steps[..|steps| - 1], id, now);
      ShadowStays(Run(p, steps[..|steps| - 1]), steps[|steps| - 1], id);
    }
  }

  lemma SignInBehindCutoff(p: Portal, created: real, expires: real, token: nat, steps: seq<Step>, now: real)
    requires Inv(p) && p.revokedAt.Some? && created <= p.revokedAt.value
    ensures !Authorized(Run(Do(p, SignIn(created, expires, token)), steps), ForSession(p.next), now)
  {
    StepKeepsInv(p, SignIn(created, expires, token));
    InsertedSession(p.sessions, Session(p.next, created, expires));
    ShadowedIsDenied(Do(p, SignIn(created, expires, token)), steps, p.next, now);
  }

  lemma CutoffAppears(p: Portal, step: Step)
    ensures Do(p, step).revokedAt == None <==> p.revokedAt == None && !Revokes(p, step)
  {
  }

  /** A token that names the user alone is let in exactly while the account is active and has never been
      disabled, reset or given a new password. */
  lemma {:induction false} BareUserAuthorizesIff(p: Portal, steps: seq<Step>, now: real)
    requires p.revokedAt == None
    ensures Run(p, steps).revokedAt == None <==> NeverRevoked(p, steps)
    ensures Authorized(Run(p, steps), BareUser, now) <==> ActiveAfter(p, steps) && NeverRevoked(p, steps)
  {
    ActiveIsLast(p, steps);
    if steps != [] {
      BareUserAuthorizesIff(p, steps[..|steps| - 1], now);
      CutoffAppears(Run(p, steps[..|steps| - 1]), steps[|steps| - 1]);
    }
  }

  // ----- the tokens of an expired session -----

  function Times(step: Step, n: nat): seq<Step> {
    seq(n, i requires 0 <= i < n => step)
  }

  /** Nothing but the tokens of `id` and its removal job has changed. */
  ghost predicate OnlyTokensOf(p: Portal, q: Portal, id: nat) {
    q == p.(tokens := q.tokens, expired := q.expired) && q.tokens - {id} == p.tokens - {id}
  }

  lemma {:induction false} TokensShrink(p: Portal, id: nat, n: nat)
    requires id in p.expired && !Present(p.sessions, id) && n * EXPIRY_BATCH <= |TokensOf(p.tokens, id)|
    ensures var q := Run(p, Times(RemoveExpired(id), n));
            OnlyTokensOf(p, q, id) && q.expired == p.expired
            && TokensOf(q.tokens, id) == TokensOf(p.tokens, id)[n * EXPIRY_BATCH..]
  {
    if n > 0 {
      TokensShrink(p, id, n - 1);
      RunTimes(p, RemoveExpired(id), n - 1);
      FullBatch(Run(p, Times(RemoveExpired(id), n - 1)), id);
    }
  }

  lemma FullBatch(p: Portal, id: nat)
    requires id in p.expired && !Present(p.sessions, id) && |TokensOf(p.tokens, id)| >= EXPIRY_BATCH
    ensures var q := Do(p, RemoveExpired(id));
            OnlyTokensOf(p, q, id) && q.expired == p.expired
            && TokensOf(q.tokens, id) == TokensOf(p.tokens, id)[EXPIRY_BATCH..]
  {
    assert Do(p, RemoveExpired(id)).tokens - {id} == p.tokens - {id};
  }

  lemma LastBatch(p: Portal, id: nat)
    requires id in p.expired && !Present(p.sessions, id) && |TokensOf(p.tokens, id)| < EXPIRY_BATCH
    ensures var q := Do(p, RemoveExpired(id));
            OnlyTokensOf(p, q, id) && TokensOf(q.tokens, id) == [] && q.expired == p.expired - {id}
  {
    assert Do(p, RemoveExpired(id)).tokens - {id} == p.tokens - {id};
  }

  /** A session that expired loses all its refresh tokens, a batch at a time, and no other session loses
      any; the job is done after one batch more than are full. */
  lemma ExpiredTokensGo(p: Portal, id: nat, n: nat)
    requires id in p.expired && !Present(p.sessions, id)
    requires n == |TokensOf(p.tokens, id)| / EXPIRY_BATCH
    ensures var q := Run(p, Times(RemoveExpired(id), n + 1));
            OnlyTokensOf(p, q, id) && TokensOf(q.tokens, id) == [] && q.expired == p.expired - {id}
            && id in Run(p, Times(RemoveExpired(id), n)).expired
  {
    TokensShrink(p, id, n);
    RunTimes(p, RemoveExpired(id), n);
    LastBatch(Run(p, Times(RemoveExpired(id), n)), id);
  }

  lemma RunTimes(p: Portal, step: Step, n: nat)
    ensures Run(p, Times(step, n + 1)) == Do(Run(p, Times(step, n)), step)
  {
    assert Times(step, n + 1)[..n] == Times(step, n);
  }

  /** A session that waits for the removal of its tokens is gone. */
  ghost predicate ExpiredIsGone(p: Portal) {
    forall id :: id in p.expired ==> id < p.next && !Present(p.sessions, id)
  }

  lemma BatchAddsNoSession(p: Portal, cutoff: real)
    requires InOrder(p.sessions)
    ensures forall x :: x in RunBatch(p, cutoff).sessions ==> x in p.sessions
  {
    var k := RevokeBatchMeans(p.sessions, p.tokens, cutoff, MAX_SESSIONS, TOKEN_BUDGET);
  }

  lemma StepKeepsExpiredGone(p: Portal, step: Step)
    requires Inv(p) && ExpiredIsGone(p)
    ensures ExpiredIsGone(Do(p, step))
  {
    match step
    case SignIn(created, expires, token) => InsertedSession(p.sessions, Session(p.next, created, expires));
    case SignOut(id) => WithoutSession(p.sessions, id);
    case Expire(id) => WithoutSession(p.sessions, id);
    case Disable(now) => BatchAddsNoSession(p, Max(now, Latest(p.sessions)));
    case ResetPassword(now) =>
      BatchAddsNoSession(p, Max(Max(now, Latest(p.sessions)), p.revokedAt.GetOr(0.0)));
    case ChangePassword(now) =>
      BatchAddsNoSession(p, Max(Max(now, Latest(p.sessions)), p.revokedAt.GetOr(0.0)));
    case CleanupRevoked(cutoff) => BatchAddsNoSession(p, cutoff);
    case _ =>
  }

  /** So in every history of a new account the job finds the session gone, and removes all its tokens. */
  lemma {:induction false} RunKeepsExpiredGone(p: Portal, steps: seq<Step>)
    requires Inv(p) && ExpiredIsGone(p)
    ensures ExpiredIsGone(Run(p, steps))
  {
    if steps != [] {
      RunKeepsExpiredGone(p, steps[..|steps| - 1]);
      RunKeepsInv(p, steps[..|steps| - 1]);
      StepKeepsExpiredGone(Run(p, steps[..|steps| - 1]), steps[|steps| - 1]);
    }
  }
}
