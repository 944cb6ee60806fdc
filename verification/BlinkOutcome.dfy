/** What one pass of the scan loop comes to: which result it meets, what it starts or records, and for how
    long it then shows the outcome. */
module BlinkOutcome {
  import opened Options
  import opened BlinkScan

  // ----- what a pass adds to the trace -----

  ghost predicate Grows(before: seq<Event>, after: seq<Event>) {
    |before| <= |after| && after[..|before|] == before
  }

  predicate IsPass(k: Kiosk, t: real, env: Env) {
    t > k.clock && env.delay >= 0.0
  }

  /** The result, if any, that is there when the loop looks: the last one of this camera generation that the
      detector published, since the checker changed if it did, or during the pass. */
  ghost function Waiting(k: Kiosk, t: real, late: seq<Detection>, env: Env): Option<Scan> {
    if late == [] then if env.checker == k.liveness then k.current else None
    else
      var front, d := late[..|late| - 1], late[|late| - 1];
      if d.generation != k.generation || ((d.ts, d.generation) !in k.frames && d.ts != t) then Waiting(k, t, front, env)
      else if d.seen == None then None
      else Some(Scan(d.ts, d.generation, d.seen.value))
  }

  /** A waiting result is met if it is of this camera generation, not from before the camera was lost, and
      at most five seconds old. */
  ghost predicate Meets(k: Kiosk, t: real, s: Scan) {
    s.generation == k.generation && s.ts >= k.invalidatedAt && s.ts <= t <= s.ts + 5.0
  }

  ghost function Met(k: Kiosk, t: real, late: seq<Detection>, env: Env): Option<Scan> {
    var s := Waiting(k, t, late, env);
    if s.Some? && Meets(k, t, s.value) then s else None
  }

  // ----- the state that a pass works on -----

  /** The kiosk as the loop looks for a result: the frame is handed over and the detector has run. */
  ghost function Looking(k: Kiosk, t: real, late: seq<Detection>, env: Env): Kiosk {
    PublishAll(HandOver(RefreshChecker(k.(clock := t), env.checker), t), late)
  }

  lemma {:induction false} WaitingIsCurrent(k: Kiosk, t: real, late: seq<Detection>, env: Env)
    ensures Looking(k, t, late, env).current == Waiting(k, t, late, env)
  {
    if late != [] {
      WaitingIsCurrent(k, t, late[..|late| - 1], env);
    }
  }

  lemma MetIsTaken(k: Kiosk, t: real, late: seq<Detection>, env: Env)
    ensures Take(Looking(k, t, late, env)) == Met(k, t, late, env)
  {
    WaitingIsCurrent(k, t, late, env);
  }

  /** A step within a pass leaves the clock, the checker and the policy alone, and no result behind. */
  ghost predicate UsesUp(k: Kiosk, after: Kiosk) {
    && after.current == None && after.liveness == k.liveness && after.clock == k.clock
    && after.generation == k.generation && after.frames == k.frames && after.invalidatedAt == k.invalidatedAt
  }

  lemma ConsumeUsesUp(k: Kiosk)
    ensures UsesUp(k, Consume(k))
  {
  }

  lemma BlinkUsesUp(k: Kiosk, used: Kiosk, p: Pending, env: Env)
    requires UsesUp(k, used)
    ensures UsesUp(k, Abandon(used)) && UsesUp(k, BlinkNow(used, p, env))
  {
  }

  lemma RecordUsesUp(k: Kiosk, used: Kiosk, scan: Scan, p: Pending, env: Env)
    requires UsesUp(k, used)
    ensures UsesUp(k, RecordClock(used.(pending := None), scan, p.worker, p.server, true, env))
  {
  }

  lemma VerifyUsesUp(k: Kiosk, env: Env)
    requires k.pending.Some?
    ensures UsesUp(k, VerifyPending(k, env))
  {
    var p := k.pending.value;
    var after, q := Consume(k), Confirm(p, Take(k));
    ConsumeUsesUp(k);
    BlinkUsesUp(k, after, q, env);
    if q.confirmed.Some? {
      RecordUsesUp(k, BlinkNow(after, q, env), q.confirmed.value, p, env);
    }
  }

  lemma ScanUsesUp(k: Kiosk, env: Env)
    ensures UsesUp(k, ScanFace(k, env))
  {
  }

  lemma ProcessUsesUp(k: Kiosk, env: Env)
    ensures UsesUp(k, ProcessFrame(k, env))
  {
    if k.pending.Some? {
      VerifyUsesUp(k, env);
    }
    ScanUsesUp(k, env);
  }

  /** Every pass leaves no result behind, so a result is met by the pass behind its publication or never. */
  lemma PassLeavesNoResult(k: Kiosk, t: real, late: seq<Detection>, env: Env)
    requires IsPass(k, t, env)
    ensures var after := Do(k, Pass(t, late, env));
            after.current == None && after.liveness == env.checker && after.clock == t
  {
    if env.camera {
      ProcessUsesUp(Looking(k, t, late, env), env);
    }
  }

  // ----- without a verification -----

  /** Nothing keeps the loop from looking at a result. */
  ghost predicate Looks(k: Kiosk, t: real, env: Env) {
    env.camera && env.ready && (k.required ==> env.checker.Some?) && t >= k.displayUntil
  }

  /** What the kiosk shows next, without a verification, and until when. */
  ghost function Shown(k: Kiosk, t: real, s: Scan, env: Env): real {
    match s.seen
    case NoFace => 0.0
    case Unnamed => if env.fault || env.streak then t + 5.0 else k.displayUntil
    case Named(worker, _) =>
      if env.fault then t + 5.0
      else if worker == None then k.displayUntil
      else if env.recent then t + 5.0
      else if env.checker.Some? then k.displayUntil
      else t + 2.0
  }

  ghost predicate IsMatch(s: Scan, env: Env) {
    s.seen.Named? && s.seen.worker.Some? && !env.fault && !env.recent
  }

  ghost predicate NothingMet(k: Kiosk, after: Kiosk, env: Env) {
    && after.pending == None && after.trace == k.trace
    && after.displayUntil == if env.camera then k.displayUntil else 0.0
  }

  /** The worker is asked to blink. */
  ghost predicate Started(k: Kiosk, after: Kiosk, t: real, s: Scan) {
    && after.trace == k.trace + [Consumed(s, t), Matched(s, t)]
    && after.pending.Some? && after.pending.value.deadline == t + 8.0
    && s.seen == Named(Some(after.pending.value.worker), after.pending.value.server)
  }

  ghost predicate Unverified(k: Kiosk, after: Kiosk, t: real, s: Scan, env: Env) {
    && after.pending == None
    && if IsMatch(s, env) && !k.required && t + env.delay <= s.ts + 5.0 && env.written
       then after.trace == k.trace + [Consumed(s, t), Recorded(s, s.seen.worker.value, s.seen.server, t + env.delay)]
       else after.trace == k.trace + [Consumed(s, t)]
  }

  lemma IdleScan(k: Kiosk, t: real, late: seq<Detection>, env: Env)
    requires IsPass(k, t, env) && k.pending == None && !(Looks(k, t, env) && Met(k, t, late, env).Some?)
    ensures NothingMet(k, Do(k, Pass(t, late, env)), env)
  {
    MetIsTaken(k, t, late, env);
  }

  lemma LookingIs(k: Kiosk, t: real, late: seq<Detection>, env: Env)
    requires IsPass(k, t, env) && k.pending == None && Looks(k, t, env)
    ensures var looking := Looking(k, t, late, env);
            && Do(k, Pass(t, late, env)) == ScanFace(looking, env)
            && looking.trace == k.trace && looking.pending == None
            && looking.clock == t && looking.displayUntil == k.displayUntil && looking.required == k.required
            && looking.liveness == env.checker && looking.generation == k.generation
            && looking.invalidatedAt == k.invalidatedAt
  {
  }

  lemma FaceShows(k: Kiosk, t: real, s: Scan, looking: Kiosk, env: Env)
    requires Take(looking) == Some(s) && looking.clock == t && looking.liveness == env.checker
    requires looking.displayUntil == k.displayUntil
    ensures ScanFace(looking, env).displayUntil == Shown(k, t, s, env)
  {
  }

  lemma FaceStarts(k: Kiosk, s: Scan, env: Env)
    requires Take(k) == Some(s) && k.liveness == env.checker && k.pending == None && env.delay >= 0.0
    ensures if IsMatch(s, env) && env.checker.Some? then Started(k, ScanFace(k, env), k.clock, s)
            else Unverified(k, ScanFace(k, env), k.clock, s, env)
  {
  }

  /** A pass without a verification going on meets at most one result and uses it up.  A named worker who has
      not clocked just now is asked to blink if there is a checker, and is recorded at once if there is
      none and none is required. */
  lemma ScanMeans(k: Kiosk, t: real, late: seq<Detection>, env: Env)
    requires IsPass(k, t, env) && k.pending == None
    ensures var after, met := Do(k, Pass(t, late, env)), Met(k, t, late, env);
            if !Looks(k, t, env) || met == None then NothingMet(k, after, env)
            else
              && after.displayUntil == Shown(k, t, met.value, env)
              && if IsMatch(met.value, env) && env.checker.Some? then Started(k, after, t, met.value)
                 else Unverified(k, after, t, met.value, env)
  {
    if Looks(k, t, env) && Met(k, t, late, env).Some? {
      LookingIs(k, t, late, env);
      MetIsTaken(k, t, late, env);
      FaceShows(k, t, Met(k, t, late, env).value, Looking(k, t, late, env), env);
      FaceStarts(Looking(k, t, late, env), Met(k, t, late, env).value, env);
    } else {
      IdleScan(k, t, late, env);
    }
  }

  // ----- with a verification -----

  /** The verification ends without a record: the camera or the model is away, the checker is away or
      another one, the time is up, or somebody else is seen. */
  ghost predicate Breaks(k: Kiosk, p: Pending, t: real, late: seq<Detection>, env: Env) {
    || !env.camera || !env.ready || env.checker != k.liveness || (k.required && env.checker == None)
    || (t >= k.displayUntil && (t > p.deadline || MeetsOther(k, p, t, late, env)))
  }

  ghost predicate MeetsOther(k: Kiosk, p: Pending, t: real, late: seq<Detection>, env: Env) {
    var met := Met(k, t, late, env);
    met.Some? && met.value.seen != Named(Some(p.worker), p.server)
  }

  ghost predicate Completes(k: Kiosk, p: Pending, t: real, late: seq<Detection>, env: Env) {
    var met := Met(k, t, late, env);
    met.Some? && p.blinkAt.Some? && met.value.ts > p.blinkAt.value
  }

  ghost predicate Broken(k: Kiosk, after: Kiosk, p: Pending, t: real, env: Env) {
    && after.pending == None && Grows(k.trace, after.trace) && |after.trace| <= |k.trace| + 2
    && |k.trace| < |after.trace| && after.trace[|after.trace| - 1] == Interrupted
    && after.displayUntil ==
         if !env.camera then 0.0
         else if Looks(k, t, env) && t <= p.deadline && env.ambiguous then t + 5.0 else k.displayUntil
  }

  ghost predicate Completed(k: Kiosk, after: Kiosk, p: Pending, t: real, s: Scan, env: Env) {
    && after.pending == None && after.displayUntil == t + 2.0
    && after.trace == k.trace + [Consumed(s, t)]
         + (if (k.required ==> env.guard) && t + env.delay <= s.ts + 5.0 && env.written
            then [Recorded(s, p.worker, p.server, t + env.delay)] else [])
  }

  ghost predicate GoesOn(k: Kiosk, after: Kiosk, p: Pending, t: real, env: Env) {
    && after.displayUntil == k.displayUntil && |after.trace| > 0
    && after.pending == Some(
         if p.blinkAt == None && env.blink && t >= k.displayUntil
         then p.(blinkAt := Some(t), blinked := |after.trace| - 1,
                 deadline := if p.deadline < t + 8.0 then t + 8.0 else p.deadline)
         else p)
  }

  lemma LookingOn(k: Kiosk, t: real, late: seq<Detection>, env: Env)
    requires IsPass(k, t, env) && env.checker == k.liveness && env.camera
    ensures var looking := Looking(k, t, late, env);
            && Do(k, Pass(t, late, env)) == ProcessFrame(looking, env)
            && looking == k.(clock := t, frames := looking.frames, current := looking.current)
  {
  }

  lemma VerifyBreaks(k: Kiosk, p: Pending, env: Env)
    requires k.pending == Some(p) && p.generation == k.generation && p.confirmed == None
    requires k.clock > p.deadline || (Take(k).Some? && Take(k).value.seen != Named(Some(p.worker), p.server))
    ensures var after := VerifyPending(k, env);
            && after.pending == None
            && after.trace ==
                 k.trace + (if Take(k).Some? then [Consumed(Take(k).value, k.clock)] else []) + [Interrupted]
            && after.displayUntil == if k.clock <= p.deadline && env.ambiguous then k.clock + 5.0 else k.displayUntil
  {
  }

  lemma VerifyCompletes(k: Kiosk, p: Pending, s: Scan, env: Env)
    requires k.pending == Some(p) && p.generation == k.generation && p.confirmed == None && env.delay >= 0.0
    requires k.clock <= p.deadline && Take(k) == Some(s) && s.seen == Named(Some(p.worker), p.server)
    requires p.blinkAt.Some? && s.ts > p.blinkAt.value
    ensures Completed(k, VerifyPending(k, env), p, k.clock, s, env)
  {
  }

  lemma VerifyGoesOn(k: Kiosk, p: Pending, env: Env)
    requires k.pending == Some(p) && p.generation == k.generation && p.confirmed == None && |k.trace| > 0
    requires k.clock <= p.deadline && (Take(k).Some? ==> Take(k).value.seen == Named(Some(p.worker), p.server))
    requires k.clock >= k.displayUntil
    requires p.blinkAt.Some? && Take(k).Some? ==> Take(k).value.ts <= p.blinkAt.value
    ensures GoesOn(k, VerifyPending(k, env), p, k.clock, env)
  {
  }

  /** While a verification goes on, a break ends it, a sight of the worker from after the blink completes
      it, and a blink gives it eight more seconds; otherwise it just goes on. */
  lemma VerifyMeans(k: Kiosk, p: Pending, t: real, late: seq<Detection>, env: Env)
    requires IsPass(k, t, env) && k.pending == Some(p) && p.generation == k.generation && p.confirmed == None
    requires env.checker == k.liveness && |k.trace| > 0
    ensures var after := Do(k, Pass(t, late, env));
            if Breaks(k, p, t, late, env) then Broken(k, after, p, t, env)
            else if t >= k.displayUntil && Completes(k, p, t, late, env)
            then Completed(k, after, p, t, Met(k, t, late, env).value, env)
            else GoesOn(k, after, p, t, env)
  {
    if env.camera {
      MetIsTaken(k, t, late, env);
      LookingOn(k, t, late, env);
      var looking := Looking(k, t, late, env);
      if Looks(k, t, env) {
        if t > p.deadline || MeetsOther(k, p, t, late, env) {
          VerifyBreaks(looking, p, env);
        } else if Completes(k, p, t, late, env) {
          VerifyCompletes(looking, p, Met(k, t, late, env).value, env);
        } else {
          VerifyGoesOn(looking, p, env);
        }
      }
    }
  }

  /** Another checker starts over: what was going on is interrupted, what was published is dropped, and the
      pass goes on as without a verification. */
  lemma NewCheckerStartsOver(k: Kiosk, t: real, late: seq<Detection>, env: Env)
    requires IsPass(k, t, env) && env.checker != k.liveness
    ensures var anew := k.(pending := None, current := None, liveness := env.checker,
                           trace := k.trace + (if k.pending.Some? then [Interrupted] else []));
            anew.pending == None && Do(k, Pass(t, late, env)) == Do(anew, Pass(t, late, env))
  {
    assert k.trace + [] == k.trace;
  }

  // ----- the display hold -----

  ghost predicate OnlyInterrupted(before: seq<Event>, after: seq<Event>) {
    Grows(before, after) && forall n :: |before| <= n < |after| ==> after[n].Interrupted?
  }

  predicate IsHeld(step: Step, until: real) {
    step.Publish? || (step.env.camera && step.t < until)
  }

  lemma InterruptedInTurn(a: seq<Event>, b: seq<Event>, c: seq<Event>)
    requires OnlyInterrupted(a, b) && OnlyInterrupted(b, c)
    ensures OnlyInterrupted(a, c)
  {
    forall n | |a| <= n < |c| ensures c[n].Interrupted? {
      assert n < |b| ==> c[n] == b[n];
    }
  }

  lemma HeldFrame(k: Kiosk, env: Env)
    requires k.clock < k.displayUntil
    ensures ProcessFrame(k, env).displayUntil == k.displayUntil && OnlyInterrupted(k.trace, ProcessFrame(k, env).trace)
  {
  }

  lemma HeldStep(k: Kiosk, step: Step)
    requires IsHeld(step, k.displayUntil)
    ensures Do(k, step).displayUntil == k.displayUntil && OnlyInterrupted(k.trace, Do(k, step).trace)
  {
    if step.Pass? && IsPass(k, step.t, step.env) {
      var looking := Looking(k, step.t, step.late, step.env);
      assert OnlyInterrupted(k.trace, looking.trace);
      HeldFrame(looking, step.env);
      InterruptedInTurn(k.trace, looking.trace, ProcessFrame(looking, step.env).trace);
    }
  }

  /** As long as an outcome is shown and the camera works, nothing is met, matched, blinked or recorded. */
  lemma {:induction false} HoldIsKept(k: Kiosk, steps: seq<Step>)
    requires forall n :: 0 <= n < |steps| ==> IsHeld(steps[n], k.displayUntil)
    ensures Run(k, steps).displayUntil == k.displayUntil && OnlyInterrupted(k.trace, Run(k, steps).trace)
  {
    if steps != [] {
      HoldIsKept(k, steps[..|steps| - 1]);
      HeldStep(Run(k, steps[..|steps| - 1]), steps[|steps| - 1]);
    }
  }

  ghost predicate NoneRecorded(before: seq<Event>, after: seq<Event>) {
    Grows(before, after) && forall n :: |before| <= n < |after| ==> !after[n].Recorded?
  }

  lemma NoneInTurn(a: seq<Event>, b: seq<Event>, c: seq<Event>)
    requires NoneRecorded(a, b) && NoneRecorded(b, c)
    ensures NoneRecorded(a, c)
  {
    forall n | |a| <= n < |c| ensures !c[n].Recorded? {
      assert n < |b| ==> c[n] == b[n];
    }
  }

  lemma ConsumeRecordsNone(k: Kiosk, p: Pending, env: Env)
    ensures NoneRecorded(k.trace, Consume(k).trace) && Consume(k).clock == k.clock
    ensures NoneRecorded(k.trace, Abandon(k).trace) && NoneRecorded(k.trace, BlinkNow(k, p, env).trace)
    ensures BlinkNow(k, p, env).clock == k.clock
  {
  }

  lemma RecordShows(k: Kiosk, scan: Scan, p: Pending, env: Env)
    ensures RecordClock(k, scan, p.worker, p.server, true, env).displayUntil == k.clock + 2.0
  {
  }

  lemma VerifyShows(k: Kiosk, env: Env)
    requires k.pending.Some?
    ensures VerifyPending(k, env).displayUntil == k.clock + 2.0 || NoneRecorded(k.trace, VerifyPending(k, env).trace)
  {
    var p := k.pending.value;
    var after, q := Consume(k), Confirm(p, Take(k));
    ConsumeRecordsNone(k, p, env);
    ConsumeRecordsNone(after, q, env);
    NoneInTurn(k.trace, after.trace, Abandon(after).trace);
    NoneInTurn(k.trace, after.trace, BlinkNow(after, q, env).trace);
    if q.confirmed.Some? {
      RecordShows(BlinkNow(after, q, env).(pending := None), q.confirmed.value, p, env);
    }
  }

  lemma ScanShows(k: Kiosk, env: Env)
    ensures ScanFace(k, env).displayUntil == k.clock + 2.0 || NoneRecorded(k.trace, ScanFace(k, env).trace)
  {
  }

  lemma ProcessShows(k: Kiosk, env: Env)
    ensures ProcessFrame(k, env).displayUntil == k.clock + 2.0 || NoneRecorded(k.trace, ProcessFrame(k, env).trace)
  {
    if k.pending.Some? {
      VerifyShows(k, env);
    }
    ScanShows(k, env);
  }

  lemma RecordIsShown(k: Kiosk, t: real, late: seq<Detection>, env: Env)
    requires IsPass(k, t, env) && !NoneRecorded(k.trace, Do(k, Pass(t, late, env)).trace)
    ensures Do(k, Pass(t, late, env)).displayUntil == t + 2.0
  {
    var looking := Looking(k, t, late, env);
    assert NoneRecorded(k.trace, looking.trace);
    if env.camera {
      ProcessShows(looking, env);
      if NoneRecorded(looking.trace, ProcessFrame(looking, env).trace) {
        NoneInTurn(k.trace, looking.trace, ProcessFrame(looking, env).trace);
      }
    }
  }

  /** After an attendance is recorded nothing more is for two seconds, unless the camera is lost. */
  lemma RecordIsHeld(k: Kiosk, t: real, late: seq<Detection>, env: Env, steps: seq<Step>)
    requires IsPass(k, t, env) && !NoneRecorded(k.trace, Do(k, Pass(t, late, env)).trace)
    requires forall n :: 0 <= n < |steps| ==> IsHeld(steps[n], t + 2.0)
    ensures OnlyInterrupted(Do(k, Pass(t, late, env)).trace, Run(Do(k, Pass(t, late, env)), steps).trace)
  {
    RecordIsShown(k, t, late, env);
    HoldIsKept(Do(k, Pass(t, late, env)), steps);
  }

  // ----- a lost camera -----

  ghost predicate IsLater(e: Event, t: real) {
    e.Consumed? || e.Matched? || e.Recorded? ==> e.scan.ts > t
  }

  /** The camera was lost at `t`, when the trace had `n` events; nothing of before is met since. */
  ghost predicate Restarted(k: Kiosk, generation: nat, t: real, n: nat) {
    && k.generation >= generation && k.clock >= t
    && (forall f :: f in k.frames && f.1 >= generation ==> f.0 > t)
    && (k.current.Some? ==> k.current.value.generation < generation || k.current.value.ts > t)
    && (k.pending.Some? ==> k.pending.value.confirmed == None)
    && (forall i :: n <= i < |k.trace| ==> IsLater(k.trace[i], t))
  }

  lemma PublishKeepsRestart(k: Kiosk, d: Detection, generation: nat, t: real, n: nat)
    requires Restarted(k, generation, t, n)
    ensures Restarted(PublishDetection(k, d), generation, t, n)
  {
    assert (d.ts, d.generation) in k.frames && d.generation >= generation ==> d.ts > t;
  }

  lemma {:induction false} DetectorKeepsRestart(k: Kiosk, late: seq<Detection>, generation: nat, t: real, n: nat)
    requires Restarted(k, generation, t, n)
    ensures Restarted(PublishAll(k, late), generation, t, n)
  {
    if late != [] {
      DetectorKeepsRestart(k, late[..|late| - 1], generation, t, n);
      PublishKeepsRestart(PublishAll(k, late[..|late| - 1]), late[|late| - 1], generation, t, n);
    }
  }

  lemma ConsumeKeepsRestart(k: Kiosk, generation: nat, t: real, n: nat)
    requires Restarted(k, generation, t, n)
    ensures Restarted(Consume(k), generation, t, n)
    ensures Take(k).Some? ==> Take(k).value.ts > t
  {
  }

  lemma VerifyKeepsRestart(k: Kiosk, env: Env, generation: nat, t: real, n: nat)
    requires Restarted(k, generation, t, n) && k.pending.Some?
    ensures Restarted(VerifyPending(k, env), generation, t, n)
  {
    var p := k.pending.value;
    var after, q := Consume(k), Confirm(p, Take(k));
    ConsumeKeepsRestart(k, generation, t, n);
    assert Restarted(Abandon(after), generation, t, n);
    if q.confirmed == None {
      assert Restarted(BlinkNow(after, q, env), generation, t, n);
    } else {
      RecordKeepsRestart(BlinkNow(after, q, env).(pending := None), q.confirmed.value, p, env, generation, t, n);
    }
  }

  lemma RecordKeepsRestart(k: Kiosk, scan: Scan, p: Pending, env: Env, generation: nat, t: real, n: nat)
    requires Restarted(k, generation, t, n) && scan.ts > t
    ensures Restarted(RecordClock(k, scan, p.worker, p.server, true, env), generation, t, n)
  {
  }

  lemma ScanKeepsRestart(k: Kiosk, env: Env, generation: nat, t: real, n: nat)
    requires Restarted(k, generation, t, n)
    ensures Restarted(ScanFace(k, env), generation, t, n)
  {
    ScanUsesUp(k, env);
  }

  lemma ProcessKeepsRestart(k: Kiosk, env: Env, generation: nat, t: real, n: nat)
    requires Restarted(k, generation, t, n)
    ensures Restarted(ProcessFrame(k, env), generation, t, n)
  {
    if k.pending.Some? {
      VerifyKeepsRestart(k, env, generation, t, n);
    }
    ScanKeepsRestart(k, env, generation, t, n);
  }

  lemma StepKeepsRestart(k: Kiosk, step: Step, generation: nat, t: real, n: nat)
    requires Restarted(k, generation, t, n)
    ensures Restarted(Do(k, step), generation, t, n)
  {
    match step
    case Publish(d) => PublishKeepsRestart(k, d, generation, t, n);
    case Pass(now, late, env) =>
      if IsPass(k, now, env) {
        var begun := RefreshChecker(k.(clock := now), env.checker);
        assert Restarted(begun, generation, t, n);
        if env.camera {
          assert Restarted(HandOver(begun, now), generation, t, n);
          DetectorKeepsRestart(HandOver(begun, now), late, generation, t, n);
          ProcessKeepsRestart(Looking(k, now, late, env), env, generation, t, n);
        }
      }
  }

  lemma {:induction false} RunKeepsRestart(k: Kiosk, steps: seq<Step>, generation: nat, t: real, n: nat)
    requires Restarted(k, generation, t, n)
    ensures Restarted(Run(k, steps), generation, t, n)
  {
    if steps != [] {
      RunKeepsRestart(k, steps[..|steps| - 1], generation, t, n);
      StepKeepsRestart(Run(k, steps[..|steps| - 1]), steps[|steps| - 1], generation, t, n);
    }
  }

  /** Once the camera is lost, nothing that was captured before is ever met, matched or recorded again,
      however late the detector is. */
  lemma LossDropsAll(k: Kiosk, t: real, late: seq<Detection>, env: Env, steps: seq<Step>, i: nat)
    requires IsPass(k, t, env) && !env.camera
    requires k.pending.Some? ==> k.pending.value.confirmed == None
    requires forall f :: f in k.frames ==> f.1 <= k.generation
    requires var lost := Do(k, Pass(t, late, env)); |lost.trace| <= i < |Run(lost, steps).trace|
    ensures IsLater(Run(Do(k, Pass(t, late, env)), steps).trace[i], t)
  {
    var lost := Do(k, Pass(t, late, env));
    assert Restarted(lost, lost.generation, t, |lost.trace|);
    RunKeepsRestart(lost, steps, lost.generation, t, |lost.trace|);
  }
}
