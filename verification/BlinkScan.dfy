/** The scan loop with blink verification, and the barrier between it and the detector thread. */
module BlinkScan {
  import opened Options

  const LIVENESS_WAIT := 8.0
  const MAX_FRAME_AGE := 5.0
  const DISPLAY_TIME := 5.0
  const DISPLAY_TIME_SUCCESS := 2.0

  /** What the recognizer saw in one frame: nobody, a face without a name, or a named worker. */
  datatype Seen = NoFace | Unnamed | Named(worker: Option<nat>, server: Option<nat>)

  datatype Scan = Scan(ts: real, generation: nat, seen: Seen)

  /** A result of the detector thread, for the frame of that time and camera generation. */
  datatype Detection = Detection(ts: real, generation: nat, seen: Option<Seen>)

  /** A matched worker who still has to blink.  `matched` and `blinked` are history: where in the
      trace the match and the blink are. */
  datatype Pending = Pending(
    worker: nat, server: Option<nat>, generation: nat, deadline: real,
    blinkAt: Option<real>, confirmed: Option<Scan>, matched: nat, blinked: nat)

  /** Everything that bears on a verification, in order.  `Interrupted` stands for a lost camera, a
      lost or replaced checker and every abandoned verification. */
  datatype Event =
    | Matched(scan: Scan, at: real)
    | Consumed(scan: Scan, at: real)
    | Blinked(at: real)
    | Recorded(scan: Scan, worker: nat, server: Option<nat>, at: real)
    | Interrupted

  /** `frames` is history: every frame handed to the detector, by time and camera generation. */
  datatype Kiosk = Kiosk(
    required: bool, clock: real, generation: nat, invalidatedAt: real,
    frames: set<(real, nat)>, current: Option<Scan>, pending: Option<Pending>,
    displayUntil: real, liveness: Option<nat>, trace: seq<Event>)

  /** What a pass through the loop meets: the checker in place, the camera, the model, whether the
      blink completes, whether the result is ambiguous, a kiosk fault, the last of a streak of
      unknown faces or a repeat of a recent clock event, how long the write takes to start, whether
      the checker is still there and whether the write succeeds. */
  datatype Env = Env(
    checker: Option<nat>, camera: bool, ready: bool, blink: bool,
    ambiguous: bool, fault: bool, streak: bool, recent: bool,
    delay: real, guard: bool, written: bool)

  predicate IsFresh(scan: Scan, now: real, invalidatedAt: real) {
    scan.ts >= invalidatedAt && 0.0 <= now - scan.ts <= MAX_FRAME_AGE
  }

  function Note(k: Kiosk, e: Event): Kiosk {
    k.(trace := k.trace + [e])
  }

  /** Give up a verification, if there is one. */
  function Abandon(k: Kiosk): Kiosk {
    if k.pending == None then k else Note(k.(pending := None), Interrupted)
  }

  // ----- the detector's side of the barrier -----

  /** A result counts only if it comes from a frame of the present camera generation. */
  function PublishDetection(k: Kiosk, d: Detection): Kiosk {
    if d.generation != k.generation || (d.ts, d.generation) !in k.frames then k
    else k.(current := if d.seen == None then None else Some(Scan(d.ts, d.generation, d.seen.value)))
  }

  function PublishAll(k: Kiosk, detections: seq<Detection>): (r: Kiosk)
    ensures r == k.(current := r.current)
  {
    if detections == [] then k
    else PublishDetection(PublishAll(k, detections[..|detections| - 1]), detections[|detections| - 1])
  }

  // ----- one pass through the loop -----

  /** A recovered or replaced checker starts a new verification. */
  function RefreshChecker(k: Kiosk, checker: Option<nat>): Kiosk {
    if checker == k.liveness then k else Abandon(k.(liveness := checker, current := None))
  }

  /** Retiring the generation drops everything captured before. */
  function LoseCamera(k: Kiosk, t: real): Kiosk {
    Abandon(k.(invalidatedAt := t, generation := k.generation + 1, current := None, displayUntil := 0.0))
  }

  /** The result, once; nothing if it is of an earlier generation or stale. */
  function Take(k: Kiosk): Option<Scan> {
    if k.current.Some? && k.current.value.generation == k.generation
       && IsFresh(k.current.value, k.clock, k.invalidatedAt) then k.current else None
  }

  function Consume(k: Kiosk): Kiosk {
    var taken := k.(current := None);
    if Take(k).Some? then Note(taken, Consumed(Take(k).value, k.clock)) else taken
  }

  /** The attendance write rechecks camera, frame age and, when required, the verification. */
  predicate MayRecord(k: Kiosk, scan: Scan, confirmed: bool, env: Env) {
    && scan.generation == k.generation && IsFresh(scan, k.clock + env.delay, k.invalidatedAt)
    && (k.required ==> env.guard && confirmed) && env.written
  }

  function RecordClock(k: Kiosk, scan: Scan, worker: nat, server: Option<nat>, confirmed: bool, env: Env): Kiosk {
    if MayRecord(k, scan, confirmed, env) then
      Note(k, Recorded(scan, worker, server, k.clock + env.delay)).(displayUntil := k.clock + DISPLAY_TIME_SUCCESS)
    else k.(displayUntil := k.clock + 2.0)
  }

  predicate Names(scan: Scan, worker: nat, server: Option<nat>) {
    scan.seen == Named(Some(worker), server)
  }

  /** A fresh result of the same worker, from a frame after the blink, completes the verification. */
  function Confirm(p: Pending, scan: Option<Scan>): Pending {
    if scan.Some? && p.blinkAt.Some? && scan.value.ts > p.blinkAt.value then p.(confirmed := scan) else p
  }

  /** The blink itself, which extends the deadline. */
  function BlinkNow(k: Kiosk, p: Pending, env: Env): Kiosk {
    if p.blinkAt == None && env.blink then
      Note(k, Blinked(k.clock)).(pending := Some(p.(
        blinkAt := Some(k.clock), blinked := |k.trace|,
        deadline := if p.deadline < k.clock + LIVENESS_WAIT then k.clock + LIVENESS_WAIT else p.deadline)))
    else k.(pending := Some(p))
  }

  function VerifyPending(k: Kiosk, env: Env): Kiosk
    requires k.pending.Some?
  {
    var p := k.pending.value;
    if p.generation != k.generation || k.clock > p.deadline then Abandon(Consume(k))
    else
      var scan := Take(k);
      var after := Consume(k);
      if scan.Some? && !Names(scan.value, p.worker, p.server) then
        Abandon(after).(displayUntil := if env.ambiguous then k.clock + DISPLAY_TIME else k.displayUntil)
      else
        var q := Confirm(p, scan);
        var blinked := BlinkNow(after, q, env);
        if q.confirmed.Some? then
          RecordClock(blinked.(pending := None), q.confirmed.value, p.worker, p.server, true, env)
        else blinked
  }

  /** Without a verification going on: show what was seen, and start one for a named worker. */
  function ScanFace(k: Kiosk, env: Env): Kiosk {
    var scan := Take(k);
    var after := Consume(k);
    if scan == None then after
    else
      match scan.value.seen
      case NoFace => after.(displayUntil := 0.0)
      case Unnamed => if env.fault || env.streak then after.(displayUntil := k.clock + DISPLAY_TIME) else after
      case Named(worker, server) =>
        if env.fault then after.(displayUntil := k.clock + DISPLAY_TIME)
        else if worker == None then after
        else if env.recent then after.(displayUntil := k.clock + DISPLAY_TIME)
        else if k.liveness.Some? then
          Note(after, Matched(scan.value, k.clock)).(pending := Some(
            Pending(worker.value, server, k.generation, k.clock + LIVENESS_WAIT, None, None, |after.trace|, 0)))
        else RecordClock(after, scan.value, worker.value, server, false, env)
  }

  function ProcessFrame(k: Kiosk, env: Env): Kiosk {
    if !env.ready || (k.required && k.liveness == None) then Abandon(k.(current := None))
    else if k.clock < k.displayUntil then k.(current := None)
    else if k.pending.Some? then VerifyPending(k, env)
    else ScanFace(k, env)
  }

  /** The clock is monotonic.  The detections of `late` arrive within the pass, after its frame is
      handed over, perhaps of that very frame, and before the loop looks for a result. */
  function Tick(k: Kiosk, t: real, late: seq<Detection>, env: Env): Kiosk {
    if t <= k.clock || env.delay < 0.0 then k
    else
      var begun := RefreshChecker(k.(clock := t), env.checker);
      if !env.camera then LoseCamera(begun, t)
      else ProcessFrame(PublishAll(HandOver(begun, t), late), env)
  }

  function HandOver(k: Kiosk, t: real): Kiosk {
    k.(frames := k.frames + {(t, k.generation)})
  }

  datatype Step = Publish(detection: Detection) | Pass(t: real, late: seq<Detection>, env: Env)

  function Do(k: Kiosk, step: Step): Kiosk {
    match step
    case Publish(detection) => PublishDetection(k, detection)
    case Pass(t, late, env) => Tick(k, t, late, env)
  }

  function Run(k: Kiosk, steps: seq<Step>): Kiosk {
    if steps == [] then k else Do(Run(k, steps[..|steps| - 1]), steps[|steps| - 1])
  }

  // ----- the verification of a recorded attendance -----

  /** Between the match and here nothing was interrupted, and every result that was consumed named
      the same worker from the same camera generation. */
  ghost predicate SameWorkerSince(
    trace: seq<Event>, from: nat, to: nat, worker: nat, server: Option<nat>, generation: nat) {
    to <= |trace| && forall n :: from < n < to ==>
      trace[n].Blinked? ||
      (trace[n].Consumed? && Names(trace[n].scan, worker, server) && trace[n].scan.generation == generation)
  }

  ghost predicate MatchedAt(trace: seq<Event>, i: nat, worker: nat, server: Option<nat>, generation: nat) {
    && i < |trace| && trace[i].Matched?
    && Names(trace[i].scan, worker, server) && trace[i].scan.generation == generation
  }

  /** The blink came after the match and within the deadline. */
  ghost predicate BlinkedAt(trace: seq<Event>, i: nat, j: nat)
    requires i < |trace| && trace[i].Matched?
  {
    i < j < |trace| && trace[j].Blinked? && trace[i].at < trace[j].at <= trace[i].at + LIVENESS_WAIT
  }

  /** The attendance at `n`: matched at `i`, blinked at `j`, and then, just before the write, seen
      again in a frame from strictly after the blink, at most five seconds old at the write. */
  ghost predicate VerifiedBy(trace: seq<Event>, n: nat, i: nat, j: nat)
    requires n < |trace| && trace[n].Recorded?
  {
    var r := trace[n];
    && MatchedAt(trace, i, r.worker, r.server, r.scan.generation)
    && BlinkedAt(trace, i, j) && j < n - 1
    && trace[n - 1].Consumed? && trace[n - 1].scan == r.scan && Names(r.scan, r.worker, r.server)
    && r.scan.ts > trace[j].at && trace[n - 1].at <= trace[j].at + LIVENESS_WAIT
    && 0.0 <= r.at - r.scan.ts <= MAX_FRAME_AGE
    && SameWorkerSince(trace, i, n, r.worker, r.server, r.scan.generation)
  }

  ghost predicate Verified(trace: seq<Event>, n: nat)
    requires n < |trace| && trace[n].Recorded?
  {
    exists i: nat, j: nat :: VerifiedBy(trace, n, i, j)
  }

  ghost predicate AllVerified(trace: seq<Event>) {
    forall n :: 0 <= n < |trace| && trace[n].Recorded? ==> Verified(trace, n)
  }

  // ----- the invariant -----

  /** What a pending verification remembers is in the trace. */
  ghost predicate PendingOk(k: Kiosk, p: Pending) {
    && MatchedAt(k.trace, p.matched, p.worker, p.server, p.generation) && p.generation == k.generation
    && SameWorkerSince(k.trace, p.matched, |k.trace|, p.worker, p.server, p.generation)
    && k.trace[p.matched].at <= k.clock && p.confirmed == None
    && (p.blinkAt == None ==> p.deadline == k.trace[p.matched].at + LIVENESS_WAIT)
    && (p.blinkAt.Some? ==>
          BlinkedAt(k.trace, p.matched, p.blinked) && k.trace[p.blinked].at == p.blinkAt.value <= k.clock
          && p.deadline <= p.blinkAt.value + LIVENESS_WAIT)
  }

  ghost predicate Inv(k: Kiosk) {
    && (k.pending.Some? ==> PendingOk(k, k.pending.value))
    && (k.required ==> AllVerified(k.trace))
  }

  lemma VerifiedStays(trace: seq<Event>, e: Event, n: nat)
    requires n < |trace| && trace[n].Recorded? && Verified(trace, n)
    ensures Verified(trace + [e], n)
  {
    var i: nat, j: nat :| VerifiedBy(trace, n, i, j);
    assert VerifiedBy(trace + [e], n, i, j);
  }

  lemma NoteKeepsVerified(trace: seq<Event>, e: Event)
    requires AllVerified(trace) && !e.Recorded?
    ensures AllVerified(trace + [e])
  {
    forall n | 0 <= n < |trace + [e]| && (trace + [e])[n].Recorded? ensures Verified(trace + [e], n) {
      VerifiedStays(trace, e, n);
    }
  }

  lemma RecordKeepsVerified(trace: seq<Event>, e: Event)
    requires AllVerified(trace) && e.Recorded? && Verified(trace + [e], |trace|)
    ensures AllVerified(trace + [e])
  {
    forall n | 0 <= n < |trace + [e]| && (trace + [e])[n].Recorded? ensures Verified(trace + [e], n) {
      if n < |trace| {
        VerifiedStays(trace, e, n);
      }
    }
  }

  /** The blink, or a result of the same worker and camera generation. */
  ghost predicate Continues(p: Pending, e: Event) {
    e.Blinked? || (e.Consumed? && Names(e.scan, p.worker, p.server) && e.scan.generation == p.generation)
  }

  lemma ContinuedIsOk(k: Kiosk, p: Pending, e: Event, clock: real)
    requires PendingOk(k, p) && Continues(p, e) && k.clock <= clock
    ensures PendingOk(Note(k, e).(clock := clock), p)
  {
  }

  lemma AbandonKeepsInv(k: Kiosk)
    requires k.required ==> AllVerified(k.trace)
    ensures Inv(Abandon(k)) && Abandon(k).pending == None
  {
    if k.pending.Some? && k.required {
      NoteKeepsVerified(k.trace, Interrupted);
    }
  }

  lemma ConsumeKeepsVerified(k: Kiosk)
    requires k.required ==> AllVerified(k.trace)
    ensures k.required ==> AllVerified(Consume(k).trace)
  {
    if k.required && Take(k).Some? {
      NoteKeepsVerified(k.trace, Consumed(Take(k).value, k.clock));
    }
  }

  /** After the results of this pass are consumed, a verification that goes on is still in order. */
  lemma ConsumedIsOk(k: Kiosk, p: Pending)
    requires PendingOk(k, p)
    requires Take(k).Some? ==> Names(Take(k).value, p.worker, p.server)
    ensures PendingOk(Consume(k), p)
  {
    if Take(k).Some? {
      ContinuedIsOk(k, p, Consumed(Take(k).value, k.clock), k.clock);
    }
  }

  lemma BlinkKeepsInv(k: Kiosk, p: Pending, env: Env)
    requires PendingOk(k, p) && (k.required ==> AllVerified(k.trace))
    requires k.clock <= p.deadline && k.trace[p.matched].at < k.clock
    ensures Inv(BlinkNow(k, p, env))
  {
    if p.blinkAt == None && env.blink {
      ContinuedIsOk(k, p, Blinked(k.clock), k.clock);
      if k.required {
        NoteKeepsVerified(k.trace, Blinked(k.clock));
      }
    }
  }

  /** The write that completes a verification is a verified one. */
  lemma RecordIsVerified(k: Kiosk, p: Pending, scan: Scan, at: real)
    requires PendingOk(k, p) && p.blinkAt.Some? && scan.ts > p.blinkAt.value && k.clock <= p.deadline
    requires k.trace[|k.trace| - 1] == Consumed(scan, k.clock) && p.blinked < |k.trace| - 1
    requires Names(scan, p.worker, p.server) && scan.generation == p.generation
    requires 0.0 <= at - scan.ts <= MAX_FRAME_AGE
    ensures Verified(k.trace + [Recorded(scan, p.worker, p.server, at)], |k.trace|)
  {
    assert VerifiedBy(k.trace + [Recorded(scan, p.worker, p.server, at)], |k.trace|, p.matched, p.blinked);
  }

  lemma CompleteKeepsInv(k: Kiosk, p: Pending, scan: Scan, env: Env)
    requires PendingOk(k, p) && (k.required ==> AllVerified(k.trace)) && k.pending == None
    requires p.blinkAt.Some? && scan.ts > p.blinkAt.value && k.clock <= p.deadline
    requires k.trace[|k.trace| - 1] == Consumed(scan, k.clock) && p.blinked < |k.trace| - 1
    requires Names(scan, p.worker, p.server) && scan.generation == p.generation
    ensures Inv(RecordClock(k, scan, p.worker, p.server, true, env))
  {
    if MayRecord(k, scan, true, env) && k.required {
      RecordIsVerified(k, p, scan, k.clock + env.delay);
      RecordKeepsVerified(k.trace, Recorded(scan, p.worker, p.server, k.clock + env.delay));
    }
  }

  lemma VerifyKeepsInv(k: Kiosk, env: Env)
    requires Inv(k) && k.pending.Some? && k.trace[k.pending.value.matched].at < k.clock
    ensures Inv(VerifyPending(k, env))
  {
    var p := k.pending.value;
    var scan := Take(k);
    ConsumeKeepsVerified(k);
    AbandonKeepsInv(Consume(k));
    if k.clock <= p.deadline && (scan.Some? ==> Names(scan.value, p.worker, p.server)) {
      ConsumedIsOk(k, p);
      if Confirm(p, scan).confirmed.Some? {
        CompleteKeepsInv(Consume(k).(pending := None), p, scan.value, env);
      } else {
        BlinkKeepsInv(Consume(k), p, env);
      }
    }
  }

  lemma ScanKeepsInv(k: Kiosk, env: Env)
    requires Inv(k) && k.pending == None
    ensures Inv(ScanFace(k, env))
  {
    ConsumeKeepsVerified(k);
    var after := Consume(k);
    if Take(k).Some? && k.required {
      NoteKeepsVerified(after.trace, Matched(Take(k).value, k.clock));
    }
  }

  lemma PassKeepsInv(k: Kiosk, t: real, late: seq<Detection>, env: Env)
    requires Inv(k)
    ensures Inv(Tick(k, t, late, env))
  {
    if t > k.clock && env.delay >= 0.0 {
      var later := k.(clock := t);
      var begun := RefreshChecker(later, env.checker);
      AbandonKeepsInv(later.(liveness := env.checker, current := None));
      assert Inv(begun);
      assert begun.pending.Some? ==> begun.pending == k.pending && begun.trace == k.trace;
      if !env.camera {
        AbandonKeepsInv(begun.(
          invalidatedAt := t, generation := begun.generation + 1, current := None, displayUntil := 0.0));
      } else {
        var framed := PublishAll(HandOver(begun, t), late);
        assert Inv(framed);
        AbandonKeepsInv(framed.(current := None));
        if framed.pending.Some? {
          VerifyKeepsInv(framed, env);
        } else {
          ScanKeepsInv(framed, env);
        }
      }
    }
  }

  lemma PolicyStays(k: Kiosk, step: Step)
    ensures Do(k, step).required == k.required
  {
  }

  lemma StepKeepsInv(k: Kiosk, step: Step)
    requires Inv(k)
    ensures Inv(Do(k, step))
  {
    match step
    case Publish(_) =>
    case Pass(t, late, env) => PassKeepsInv(k, t, late, env);
  }

  lemma {:induction false} RunKeepsInv(k: Kiosk, steps: seq<Step>)
    requires Inv(k)
    ensures Inv(Run(k, steps)) && Run(k, steps).required == k.required
  {
    if steps != [] {
      RunKeepsInv(k, steps[..|steps| - 1]);
      StepKeepsInv(Run(k, steps[..|steps| - 1]), steps[|steps| - 1]);
      PolicyStays(Run(k, steps[..|steps| - 1]), steps[|steps| - 1]);
    }
  }

  /** Whenever blink verification is required, and however the detector's results and the camera's
      failures fall between the passes and within them, every recorded attendance was verified. */
  lemma EveryAttendanceIsVerified(k: Kiosk, steps: seq<Step>, n: nat)
    requires k.required && k.pending == None && k.trace == []
    requires n < |Run(k, steps).trace| && Run(k, steps).trace[n].Recorded?
    ensures Verified(Run(k, steps).trace, n)
  {
    RunKeepsInv(k, steps);
  }

  /** A pass in which nothing goes wrong. */
  predicate Smooth(env: Env, checker: nat) {
    && env.checker == Some(checker) && env.camera && env.ready && env.guard && env.written
    && !env.ambiguous && !env.fault && !env.streak && !env.recent && env.delay >= 0.0
  }

  /** Passes at these times that meet no result. */
  function Idle(k: Kiosk, times: seq<real>, env: Env): Kiosk {
    if times == [] then k
    else Do(Idle(k, times[..|times| - 1], env), Pass(times[|times| - 1], [], env))
  }

  predicate Ascends(from: real, times: seq<real>, to: real) {
    && from < to
    && (forall i :: 0 <= i < |times| ==> from < times[i] < to)
    && (forall i, j :: 0 <= i < j < |times| ==> times[i] < times[j])
  }

  /** When a frame shows the worker, when its result is met, when the worker blinks, when a later
      frame shows the worker, and when its result is met, with idle passes in between. */
  datatype Rhythm = Rhythm(
    shown: real, first: seq<real>, matched: real, second: seq<real>, blinked: real,
    third: seq<real>, again: real, fourth: seq<real>, met: real)

  predicate InTime(r: Rhythm, env: Env) {
    && Ascends(r.shown, r.first, r.matched) && Ascends(r.matched, r.second, r.blinked)
    && Ascends(r.blinked, r.third, r.again) && Ascends(r.again, r.fourth, r.met)
    && r.matched <= r.shown + MAX_FRAME_AGE && r.met + env.delay <= r.again + MAX_FRAME_AGE
    && r.blinked <= r.matched + LIVENESS_WAIT && r.met <= r.blinked + LIVENESS_WAIT
  }

  function MatchedScan(k: Kiosk, r: Rhythm, seen: Seen, env: Env): Kiosk {
    var shown := Idle(Do(k, Pass(r.shown, [], env)), r.first, env);
    Do(Do(shown, Publish(Detection(r.shown, k.generation, Some(seen)))), Pass(r.matched, [], env))
  }

  function Blinking(k: Kiosk, r: Rhythm, env: Env): Kiosk {
    var blinked := Do(Idle(k, r.second, env), Pass(r.blinked, [], env.(blink := true)));
    Idle(Do(Idle(blinked, r.third, env), Pass(r.again, [], env)), r.fourth, env)
  }

  function BlinkedScan(k: Kiosk, r: Rhythm, seen: Seen, env: Env): Kiosk {
    Do(Blinking(k, r, env), Pass(r.met, [Detection(r.again, k.generation, Some(seen))], env))
  }

  /** The kiosk is at ease until `to`: no result is there, and a verification that goes on waits for
      the blink or the frame after it. */
  predicate Waits(k: Kiosk, checker: nat, to: real) {
    && k.current == None && k.liveness == Some(checker)
    && (k.pending.Some? ==>
          var p := k.pending.value; p.confirmed == None && p.generation == k.generation && to <= p.deadline)
  }

  lemma IdlePass(k: Kiosk, t: real, checker: nat, env: Env)
    requires Waits(k, checker, t) && k.displayUntil <= t && k.clock < t && Smooth(env, checker) && !env.blink
    ensures var after := Do(k, Pass(t, [], env));
            after == k.(clock := t, frames := k.frames + {(t, k.generation)})
  {
  }

  lemma {:induction false} IdleKeeps(k: Kiosk, times: seq<real>, to: real, checker: nat, env: Env)
    requires Waits(k, checker, to) && k.displayUntil <= k.clock && Ascends(k.clock, times, to)
    requires Smooth(env, checker) && !env.blink
    ensures var after := Idle(k, times, env);
            && after == k.(clock := after.clock, frames := after.frames) && k.frames <= after.frames
            && k.clock <= after.clock < to && (times != [] ==> after.clock == times[|times| - 1])
  {
    if times != [] {
      var last := |times| - 1;
      IdleKeeps(k, times[..last], to, checker, env);
      IdlePass(Idle(k, times[..last], env), times[last], checker, env);
    }
  }

  /** The result of a frame that was handed over is met. */
  lemma ResultIsMet(
    k: Kiosk, shown: real, seen: Seen, t: real, checker: nat, worker: nat, server: Option<nat>, env: Env)
    requires Waits(k, checker, t) && k.displayUntil <= t && k.pending == None && k.clock < t
    requires Smooth(env, checker) && !env.blink
    requires (shown, k.generation) in k.frames && shown <= t <= shown + MAX_FRAME_AGE && k.invalidatedAt <= shown
    requires seen == Named(Some(worker), server)
    ensures var after := Do(Do(k, Publish(Detection(shown, k.generation, Some(seen)))), Pass(t, [], env));
            var scan := Scan(shown, k.generation, seen);
            && after == k.(clock := t, frames := after.frames, trace := k.trace + [Consumed(scan, t), Matched(scan, t)],
                 pending := Some(Pending(
                   worker, server, k.generation, t + LIVENESS_WAIT, None, None, |k.trace| + 1, 0)))
  {
  }

  lemma MatchIsPending(k: Kiosk, worker: nat, server: Option<nat>, checker: nat, env: Env, r: Rhythm)
    requires k.pending == None && k.current == None && k.liveness == Some(checker)
    requires k.clock < r.shown && k.displayUntil <= r.shown && k.invalidatedAt <= r.shown
    requires Smooth(env, checker) && !env.blink && InTime(r, env)
    ensures var matched := MatchedScan(k, r, Named(Some(worker), server), env);
            var scan := Scan(r.shown, k.generation, Named(Some(worker), server));
            && matched == k.(clock := r.matched, frames := matched.frames,
                 trace := k.trace + [Consumed(scan, r.matched), Matched(scan, r.matched)],
                 pending := Some(Pending(
                   worker, server, k.generation, r.matched + LIVENESS_WAIT, None, None, |k.trace| + 1, 0)))
  {
    IdlePass(k, r.shown, checker, env);
    var begun := Do(k, Pass(r.shown, [], env));
    IdleKeeps(begun, r.first, r.matched, checker, env);
    var seen := Named(Some(worker), server);
    ResultIsMet(Idle(begun, r.first, env), r.shown, seen, r.matched, checker, worker, server, env);
  }

  /** The state right after the blink, seen from any earlier state of the same verification. */
  ghost predicate IsBlinked(k: Kiosk, after: Kiosk, p: Pending, t: real) {
    after == k.(clock := t, frames := after.frames, trace := k.trace + [Blinked(t)],
      pending := Some(p.(blinkAt := Some(t), blinked := |k.trace|, deadline := t + LIVENESS_WAIT)))
  }

  lemma BlinkPass(k: Kiosk, p: Pending, t: real, checker: nat, env: Env)
    requires Waits(k, checker, t) && k.displayUntil <= t && k.pending == Some(p) && p.blinkAt == None && k.clock < t
    requires Smooth(env, checker) && p.deadline <= t + LIVENESS_WAIT
    ensures IsBlinked(k, Do(k, Pass(t, [], env.(blink := true))), p, t)
  {
  }

  lemma BlinkedLater(k: Kiosk, before: Kiosk, after: Kiosk, p: Pending, t: real, checker: nat, to: real)
    requires before == k.(clock := before.clock, frames := before.frames) && IsBlinked(before, after, p, t)
    requires k.current == None && k.liveness == Some(checker) && p.confirmed == None && p.generation == k.generation
    requires to <= t + LIVENESS_WAIT
    ensures IsBlinked(k, after, p, t) && Waits(after, checker, to)
  {
  }

  lemma BlinkIsNoted(k: Kiosk, p: Pending, checker: nat, env: Env, r: Rhythm)
    requires k.pending == Some(p) && k.current == None && k.liveness == Some(checker)
    requires p.blinkAt == None && p.confirmed == None && p.generation == k.generation
    requires p.deadline == r.matched + LIVENESS_WAIT && k.clock == r.matched && k.displayUntil <= r.matched
    requires Smooth(env, checker) && !env.blink && InTime(r, env)
    ensures var after := Do(Idle(k, r.second, env), Pass(r.blinked, [], env.(blink := true)));
            IsBlinked(k, after, p, r.blinked) && Waits(after, checker, r.met)
  {
    IdleKeeps(k, r.second, r.blinked, checker, env);
    var before := Idle(k, r.second, env);
    BlinkPass(before, p, r.blinked, checker, env);
    BlinkedLater(k, before, Do(before, Pass(r.blinked, [], env.(blink := true))), p, r.blinked, checker, r.met);
  }

  lemma BlinkIsPending(k: Kiosk, p: Pending, checker: nat, env: Env, r: Rhythm)
    requires k.pending == Some(p) && k.current == None && k.liveness == Some(checker)
    requires p.blinkAt == None && p.confirmed == None && p.generation == k.generation
    requires p.deadline == r.matched + LIVENESS_WAIT && k.clock == r.matched && k.displayUntil <= r.matched
    requires Smooth(env, checker) && !env.blink && InTime(r, env)
    ensures var blinking := Blinking(k, r, env);
            && (r.again, k.generation) in blinking.frames && r.again <= blinking.clock < r.met
            && IsBlinked(k, blinking.(clock := r.blinked), p, r.blinked)
  {
    BlinkIsNoted(k, p, checker, env, r);
    AwaitsConfirmation(Do(Idle(k, r.second, env), Pass(r.blinked, [], env.(blink := true))), checker, env, r);
  }

  lemma AwaitsConfirmation(k: Kiosk, checker: nat, env: Env, r: Rhythm)
    requires Waits(k, checker, r.met) && k.displayUntil <= k.clock == r.blinked
    requires Smooth(env, checker) && !env.blink && InTime(r, env)
    ensures var after := Idle(Do(Idle(k, r.third, env), Pass(r.again, [], env)), r.fourth, env);
            && (r.again, k.generation) in after.frames && r.again <= after.clock < r.met
            && after == k.(clock := after.clock, frames := after.frames)
  {
    IdleKeeps(k, r.third, r.again, checker, env);
    var waited := Idle(k, r.third, env);
    IdlePass(waited, r.again, checker, env);
    IdleKeeps(Do(waited, Pass(r.again, [], env)), r.fourth, r.met, checker, env);
  }

  lemma ConfirmationIsRecorded(k: Kiosk, p: Pending, checker: nat, env: Env, again: real, met: real)
    requires Waits(k, checker, met) && k.displayUntil <= met && k.pending == Some(p) && k.clock < met
    requires Smooth(env, checker)
    requires p.blinkAt.Some? && p.blinkAt.value < again && (again, k.generation) in k.frames
    requires again <= met && met + env.delay <= again + MAX_FRAME_AGE && k.invalidatedAt <= again
    ensures var seen := Named(Some(p.worker), p.server);
            var last := Scan(again, k.generation, seen);
            Do(k, Pass(met, [Detection(again, k.generation, Some(seen))], env)).trace ==
              k.trace + [Consumed(last, met), Recorded(last, p.worker, p.server, met + env.delay)]
  {
  }

  /** The kiosk does record a worker who is matched, blinks and is seen again, in any rhythm of passes
      that keeps within the frame age and the two deadlines: this is the whole verified scan. */
  lemma HonestScanIsRecorded(k: Kiosk, worker: nat, server: Option<nat>, checker: nat, env: Env, r: Rhythm)
    requires k.pending == None && k.current == None && k.liveness == Some(checker)
    requires k.clock < r.shown && k.displayUntil <= r.shown && k.invalidatedAt <= r.shown
    requires Smooth(env, checker) && !env.blink && InTime(r, env)
    ensures var seen := Named(Some(worker), server);
            var first, last := Scan(r.shown, k.generation, seen), Scan(r.again, k.generation, seen);
            BlinkedScan(MatchedScan(k, r, seen, env), r, seen, env).trace ==
              k.trace + [Consumed(first, r.matched), Matched(first, r.matched)]
              + [Blinked(r.blinked), Consumed(last, r.met), Recorded(last, worker, server, r.met + env.delay)]
  {
    MatchIsPending(k, worker, server, checker, env, r);
    var matched := MatchedScan(k, r, Named(Some(worker), server), env);
    BlinkIsPending(matched, matched.pending.value, checker, env, r);
    var blinking := Blinking(matched, r, env);
    ConfirmationIsRecorded(blinking, blinking.pending.value, checker, env, r.again, r.met);
    var seen := Named(Some(worker), server);
    var first, last := Scan(r.shown, k.generation, seen), Scan(r.again, k.generation, seen);
    TracesJoin(k.trace, matched.trace, blinking.trace, BlinkedScan(matched, r, seen, env).trace,
               [Consumed(first, r.matched), Matched(first, r.matched)], Blinked(r.blinked),
               Consumed(last, r.met), Recorded(last, worker, server, r.met + env.delay));
  }

  lemma TracesJoin(
    t0: seq<Event>, t1: seq<Event>, t2: seq<Event>, t3: seq<Event>, a: seq<Event>, b: Event, c: Event, d: Event)
    requires t1 == t0 + a && t2 == t1 + [b] && t3 == t2 + [c, d]
    ensures t3 == t0 + a + [b, c, d]
  {
  }

  /** The loop's variables, updated in place. */
  class ScanLoop {
    const required: bool
    var clock: real
    var generation: nat
    var invalidatedAt: real
    var frames: set<(real, nat)>
    var current: Option<Scan>
    var pending: Option<Pending>
    var displayUntil: real
    var liveness: Option<nat>
    var trace: seq<Event>

    function State(): Kiosk
      reads this
    {
      Kiosk(required, clock, generation, invalidatedAt, frames, current, pending, displayUntil, liveness, trace)
    }

    constructor (required: bool)
      ensures State() == Kiosk(required, 0.0, 0, 0.0, {}, None, None, 0.0, None, [])
    {
      this.required := required;
      clock, generation, invalidatedAt, frames := 0.0, 0, 0.0, {};
      current, pending, displayUntil, liveness, trace := None, None, 0.0, None, [];
    }

    method Publish(d: Detection) returns (accepted: bool)
      requires (d.ts, d.generation) in frames
      modifies this`current
      ensures State() == PublishDetection(old(State()), d)
      ensures accepted == (d.generation == generation)
    {
      if d.generation != generation {
        return false;
      }
      current := if d.seen == None then None else Some(Scan(d.ts, d.generation, d.seen.value));
      return true;
    }

    /** The detector's turn, while the loop is between handing a frame over and looking for a result. */
    method DetectorRuns(detections: seq<Detection>)
      requires forall i :: 0 <= i < |detections| ==> (detections[i].ts, detections[i].generation) in frames
      modifies this`current
      ensures State() == PublishAll(old(State()), detections)
    {
      for i := 0 to |detections|
        invariant State() == PublishAll(old(State()), detections[..i])
      {
        assert detections[..i + 1][..i] == detections[..i];
        var _ := Publish(detections[i]);
      }
      assert detections[..|detections|] == detections;
    }

    method ConsumeDetection() returns (scan: Option<Scan>)
      modifies this`current, this`trace
      ensures scan == Take(old(State())) && State() == Consume(old(State()))
    {
      scan := current;
      current := None;
      if scan.Some? && (scan.value.generation != generation || !IsFresh(scan.value, clock, invalidatedAt)) {
        scan := None;
      }
      if scan.Some? {
        trace := trace + [Consumed(scan.value, clock)];
      }
    }

    method DropPending()
      modifies this`pending, this`trace
      ensures State() == Abandon(old(State()))
    {
      if pending.Some? {
        pending := None;
        trace := trace + [Interrupted];
      }
    }

    method Record(scan: Scan, worker: nat, server: Option<nat>, confirmed: bool, env: Env)
      modifies this`displayUntil, this`trace
      ensures State() == RecordClock(old(State()), scan, worker, server, confirmed, env)
    {
      displayUntil := clock + 2.0;
      if scan.generation != generation || !IsFresh(scan, clock + env.delay, invalidatedAt) {
        return;
      }
      if (required && (!env.guard || !confirmed)) || !env.written {
        return;
      }
      trace := trace + [Recorded(scan, worker, server, clock + env.delay)];
      displayUntil := clock + DISPLAY_TIME_SUCCESS;
    }

    method Verify(env: Env)
      requires pending.Some?
      modifies this
      ensures State() == VerifyPending(old(State()), env)
    {
      var p := pending.value;
      if p.generation != generation || clock > p.deadline {
        var _ := ConsumeDetection();
        DropPending();
        return;
      }
      var seen := ConsumeDetection();
      if seen.Some? && !Names(seen.value, p.worker, p.server) {
        DropPending();
        if env.ambiguous {
          displayUntil := clock + DISPLAY_TIME;
        }
        return;
      }
      if seen.Some? && p.blinkAt.Some? && seen.value.ts > p.blinkAt.value {
        p := p.(confirmed := seen);
      }
      if p.blinkAt == None && env.blink {
        p := p.(blinkAt := Some(clock), blinked := |trace|,
                deadline := if p.deadline < clock + LIVENESS_WAIT then clock + LIVENESS_WAIT else p.deadline);
        trace := trace + [Blinked(clock)];
      }
      pending := Some(p);
      if p.confirmed.Some? {
        pending := None;
        Record(p.confirmed.value, p.worker, p.server, true, env);
      }
    }

    method ScanOne(env: Env)
      modifies this
      ensures State() == ScanFace(old(State()), env)
    {
      var result := ConsumeDetection();
      if result == None {
        return;
      }
      var scan := result.value;
      if scan.seen == NoFace {
        displayUntil := 0.0;
        return;
      }
      if env.fault || (scan.seen == Unnamed && env.streak) {
        displayUntil := clock + DISPLAY_TIME;
        return;
      }
      if scan.seen == Unnamed || scan.seen.worker == None {
        return;
      }
      if env.recent {
        displayUntil := clock + DISPLAY_TIME;
        return;
      }
      var worker, server := scan.seen.worker.value, scan.seen.server;
      if liveness.Some? {
        pending := Some(Pending(worker, server, generation, clock + LIVENESS_WAIT, None, None, |trace|, 0));
        trace := trace + [Matched(scan, clock)];
        return;
      }
      Record(scan, worker, server, false, env);
    }

    method Pass(t: real, late: seq<Detection>, env: Env)
      requires t > clock && env.delay >= 0.0
      requires env.camera ==> forall i :: 0 <= i < |late| ==>
        (late[i].ts, late[i].generation) in frames || (late[i].ts, late[i].generation) == (t, generation)
      modifies this
      ensures State() == Tick(old(State()), t, late, env)
    {
      clock := t;
      if env.checker != liveness {
        liveness, current := env.checker, None;
        DropPending();
      }
      if !env.camera {
        invalidatedAt, generation, current, displayUntil := t, generation + 1, None, 0.0;
        DropPending();
        return;
      }
      frames := frames + {(t, generation)};
      DetectorRuns(late);
      Process(env);
    }

    method Process(env: Env)
      modifies this
      ensures State() == ProcessFrame(old(State()), env)
    {
      if !env.ready || (required && liveness == None) {
        current := None;
        DropPending();
      } else if clock < displayUntil {
        current := None;
      } else if pending.Some? {
        Verify(env);
      } else {
        ScanOne(env);
      }
    }
  }
}
