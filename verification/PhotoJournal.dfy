/** Worker photos: a write-ahead journal over a directory and a database, with a crash or a power
    loss possible between any two atomic steps. */
module PhotoJournal {
  import opened Options

  type Path = nat

  datatype Kind = Published | Retired

  /** What the lock holder is doing.  `next` is the row's photo set once it is committed. */
  datatype Task =
    | Idle
    | Publishing(row: nat, next: set<Path>, retired: set<Path>, stage: Stage)
    | Removing(row: nat)
    | Recovering(todo: set<Path>, refs: set<Path>, failed: bool)
    | Unlinked(path: Path, todo: set<Path>, refs: set<Path>, failed: bool)

  /** Journaled, then old photos marked, then the files still to write, then all flushed. */
  datatype Stage = Noted | Writing(missing: set<Path>) | Flushed

  /** `disk` is what the running system sees, `durable` what a power loss is sure to leave. */
  datatype Store = Store(
    disk: set<Path>, durable: set<Path>,
    rows: map<nat, set<Path>>, journal: map<Path, Kind>, task: Task)

  function Referenced(rows: map<nat, set<Path>>): set<Path> {
    set r, p | r in rows && p in rows[r] :: p
  }

  function ReferencedByOthers(rows: map<nat, set<Path>>, row: nat): set<Path> {
    Referenced(rows - {row})
  }

  function PhotosOf(rows: map<nat, set<Path>>, row: nat): set<Path> {
    if row in rows then rows[row] else {}
  }

  function Journaled(paths: set<Path>, kind: Kind): map<Path, Kind> {
    map p | p in paths :: kind
  }

  /** The photos a replacement retires.  A synced worker also owns the file named after its
      identity, and never retires a photo that another row uses. */
  function ToRetire(rows: map<nat, set<Path>>, row: nat, legacy: Option<Path>, next: set<Path>): set<Path> {
    match legacy
    case None => PhotosOf(rows, row)
    case Some(file) => PhotosOf(rows, row) + {file} - next - ReferencedByOthers(rows, row)
  }

  datatype Step =
    | Publish(row: nat, next: set<Path>, legacy: Option<Path>)
    | MarkRetired
    | WriteFile(path: Path)
    | Flush
    | Commit
    | Abort
    | Remove(row: nat, file: Path)
    | CommitRemove
    | RemoveLocal(row: nat)
    | Recover
    | RecoverEntry(path: Path, ioFails: bool)
    | SyncUnlink(ioFails: bool)
    | Finish
    | Exit
    | PowerLoss(survivors: set<Path>)

  function StartRecovery(s: Store): Store {
    s.(task := Recovering(s.journal.Keys, Referenced(s.rows), false))
  }

  /** One journal entry, in the order of the checks that recovery makes. */
  function RecoverOne(s: Store, path: Path, ioFails: bool): Store
    requires s.task.Recovering? && path in s.task.todo && path in s.journal
  {
    var Recovering(todo, refs, failed) := s.task;
    var rest := todo - {path};
    if s.journal[path] == Published && path in refs then
      s.(journal := s.journal - {path}, task := Recovering(rest, refs, failed))
    else if s.journal[path] == Retired && path in refs then s.(task := Recovering(rest, refs, failed))
    else if ioFails then s.(task := Recovering(rest, refs, true))
    else if path !in s.disk then
      s.(durable := s.disk, journal := s.journal - {path}, task := Recovering(rest, refs, failed))
    else s.(disk := s.disk - {path}, task := Unlinked(path, rest, refs, failed))
  }

  /** Steps that do not apply leave the store unchanged.  New photos get names never used before. */
  function Do(s: Store, step: Step): Store {
    match step
    case Publish(row, next, legacy) =>
      if s.task != Idle || !(next !! s.disk + s.durable + s.journal.Keys + Referenced(s.rows)) then s
      else
        s.(journal := s.journal + Journaled(next, Published),
           task := Publishing(row, next, ToRetire(s.rows, row, legacy, next), Noted))
    case MarkRetired =>
      if !s.task.Publishing? || s.task.stage != Noted then s
      else s.(journal := s.journal + Journaled(s.task.retired, Retired), task := s.task.(stage := Writing(s.task.next)))
    case WriteFile(path) =>
      if !s.task.Publishing? || !s.task.stage.Writing? || path !in s.task.stage.missing then s
      else s.(disk := s.disk + {path}, task := s.task.(stage := Writing(s.task.stage.missing - {path})))
    case Flush =>
      if !s.task.Publishing? || s.task.stage != Writing({}) then s
      else s.(durable := s.disk, task := s.task.(stage := Flushed))
    case Commit =>
      if !s.task.Publishing? || s.task.stage != Flushed then s
      else StartRecovery(s.(rows := s.rows[s.task.row := s.task.next]))
    case Abort => if s.task.Publishing? then StartRecovery(s) else s
    case Remove(row, file) =>
      if s.task != Idle then s
      else s.(journal := s.journal +
                Journaled(PhotosOf(s.rows, row) + {file} - ReferencedByOthers(s.rows, row), Retired),
              task := Removing(row))
    case CommitRemove => if s.task.Removing? then StartRecovery(s.(rows := s.rows - {s.task.row})) else s
    case RemoveLocal(row) =>
      if s.task != Idle then s
      else StartRecovery(s.(journal := s.journal + Journaled(PhotosOf(s.rows, row), Retired), rows := s.rows - {row}))
    case Recover => if s.task == Idle then StartRecovery(s) else s
    case RecoverEntry(path, ioFails) =>
      if s.task.Recovering? && path in s.task.todo && path in s.journal then RecoverOne(s, path, ioFails) else s
    case SyncUnlink(ioFails) =>
      if !s.task.Unlinked? then s
      else if ioFails then s.(task := Recovering(s.task.todo, s.task.refs, true))
      else s.(durable := s.disk, journal := s.journal - {s.task.path},
              task := Recovering(s.task.todo, s.task.refs, s.task.failed))
    case Finish => if s.task.Recovering? && s.task.todo == {} then s.(task := Idle) else s
    case Exit => s.(task := Idle)
    case PowerLoss(survivors) =>
      if s.disk * s.durable <= survivors <= s.disk + s.durable
      then s.(disk := survivors, durable := survivors, task := Idle) else s
  }

  function Run(s: Store, steps: seq<Step>): Store {
    if steps == [] then s else Do(Run(s, steps[..|steps| - 1]), steps[|steps| - 1])
  }

  // ----- the invariant -----

  /** Every file is referenced or journaled, also the files a power loss may bring back. */
  ghost predicate Attributed(s: Store) {
    forall p :: p in s.disk + s.durable ==> p in Referenced(s.rows) || p in s.journal
  }

  /** Every referenced file exists, and survives a power loss. */
  ghost predicate Backed(s: Store) {
    Referenced(s.rows) <= s.disk && Referenced(s.rows) <= s.durable
  }

  ghost predicate TaskOk(s: Store) {
    match s.task
    case Idle => true
    case Publishing(row, next, retired, stage) =>
      && next <= s.journal.Keys && next !! Referenced(s.rows)
      && PhotosOf(s.rows, row) <= retired + ReferencedByOthers(s.rows, row)
      && (stage.Writing? ==> retired <= s.journal.Keys && stage.missing <= next && next - stage.missing <= s.disk)
      && (stage.Flushed? ==> retired <= s.journal.Keys && next <= s.disk && next <= s.durable)
    case Removing(row) => PhotosOf(s.rows, row) <= s.journal.Keys + ReferencedByOthers(s.rows, row)
    case Recovering(todo, refs, failed) =>
      && refs == Referenced(s.rows) && todo <= s.journal.Keys
      && (!failed ==> s.journal.Keys <= todo + refs)
    case Unlinked(path, todo, refs, failed) =>
      && refs == Referenced(s.rows) && todo <= s.journal.Keys
      && path in s.journal && path !in s.disk && path !in refs && path !in todo
      && (!failed ==> s.journal.Keys <= todo + refs + {path})
  }

  ghost predicate Inv(s: Store) {
    Attributed(s) && Backed(s) && TaskOk(s)
  }

  ghost predicate IsEmptyStore(s: Store) {
    s.disk == s.durable == {} && s.rows == map[] && s.journal == map[] && s.task == Idle
  }

  lemma EmptyStoreIsOk(s: Store)
    requires IsEmptyStore(s)
    ensures Inv(s)
  {
  }

  lemma ReferencedBy(rows: map<nat, set<Path>>, p: Path)
    ensures p in Referenced(rows) <==> exists r :: r in rows && p in rows[r]
  {
  }

  lemma ReferencedAfterUpdate(rows: map<nat, set<Path>>, row: nat, next: set<Path>)
    ensures Referenced(rows[row := next]) == ReferencedByOthers(rows, row) + next
    ensures Referenced(rows) == ReferencedByOthers(rows, row) + PhotosOf(rows, row)
  {
    forall p ensures p in Referenced(rows[row := next]) <==> p in ReferencedByOthers(rows, row) || p in next {
      UpdatedReference(rows, row, next, p);
    }
    forall p ensures p in Referenced(rows) <==> p in ReferencedByOthers(rows, row) || p in PhotosOf(rows, row) {
      if row in rows {
        UpdatedReference(rows, row, rows[row], p);
        assert rows[row := rows[row]] == rows;
      } else {
        assert rows - {row} == rows;
      }
    }
  }

  lemma UpdatedReference(rows: map<nat, set<Path>>, row: nat, next: set<Path>, p: Path)
    ensures p in Referenced(rows[row := next]) <==> p in ReferencedByOthers(rows, row) || p in next
  {
    var after, others := rows[row := next], rows - {row};
    ReferencedBy(after, p);
    ReferencedBy(others, p);
    if r :| r in others && p in others[r] {
      assert r in after && p in after[r];
    }
    if p in next {
      assert row in after && p in after[row];
    }
    if r :| r in after && p in after[r] {
      assert r != row ==> r in others && p in others[r];
    }
  }

  lemma PublishKeepsInv(s: Store, row: nat, next: set<Path>, legacy: Option<Path>)
    requires Inv(s)
    ensures Inv(Do(s, Publish(row, next, legacy)))
  {
    ReferencedAfterUpdate(s.rows, row, next);
  }

  lemma CommitKeepsInv(s: Store)
    requires Inv(s)
    ensures Inv(Do(s, Commit)) && Inv(Do(s, CommitRemove))
  {
    if s.task.Publishing? {
      ReferencedAfterUpdate(s.rows, s.task.row, s.task.next);
    }
    if s.task.Removing? {
      ReferencedAfterUpdate(s.rows, s.task.row, {});
    }
  }

  lemma RemoveKeepsInv(s: Store, row: nat, file: Path)
    requires Inv(s)
    ensures Inv(Do(s, Remove(row, file))) && Inv(Do(s, RemoveLocal(row)))
  {
    ReferencedAfterUpdate(s.rows, row, {});
  }

  lemma StepKeepsInv(s: Store, step: Step)
    requires Inv(s)
    ensures Inv(Do(s, step))
  {
    match step
    case Publish(row, next, legacy) => PublishKeepsInv(s, row, next, legacy);
    case Commit => CommitKeepsInv(s);
    case CommitRemove => CommitKeepsInv(s);
    case Remove(row, file) => RemoveKeepsInv(s, row, file);
    case RemoveLocal(row) => RemoveKeepsInv(s, row, 0);
    case _ => OtherStepKeepsInv(s, step);
  }

  lemma OtherStepKeepsInv(s: Store, step: Step)
    requires Inv(s)
    requires !step.Publish? && !step.Commit? && !step.CommitRemove? && !step.Remove? && !step.RemoveLocal?
    ensures Inv(Do(s, step))
  {
  }

  // ----- what every run guarantees -----

  /** With a crash or a power loss between any two steps, no file is ever lost track of and no
      referenced file ever goes missing. */
  lemma {:induction false} PhotosAreCrashSafe(s: Store, steps: seq<Step>)
    requires Inv(s)
    ensures Inv(Run(s, steps))
    ensures forall p :: p in Run(s, steps).disk ==>
        p in Referenced(Run(s, steps).rows) || p in Run(s, steps).journal
    ensures Referenced(Run(s, steps).rows) <= Run(s, steps).disk
  {
    if steps != [] {
      PhotosAreCrashSafe(s, steps[..|steps| - 1]);
      StepKeepsInv(Run(s, steps[..|steps| - 1]), steps[|steps| - 1]);
    }
  }

  /** From an empty store on, with crashes and power losses anywhere, every file is referenced or
      journaled, every referenced file is there, and after a clean recovery there are no others. */
  lemma NoPhotoIsLostFromTheStart(s: Store, steps: seq<Step>)
    requires IsEmptyStore(s)
    ensures var t := Run(s, steps);
            && Referenced(t.rows) <= t.disk <= Referenced(t.rows) + t.journal.Keys
            && (t.task.Recovering? && t.task.todo == {} && !t.task.failed ==> t.disk + t.durable == Referenced(t.rows))
  {
    EmptyStoreIsOk(s);
    PhotosAreCrashSafe(s, steps);
    if Run(s, steps).task.Recovering? && Run(s, steps).task.todo == {} && !Run(s, steps).task.failed {
      CleanRecoveryLeavesNoStrays(s, steps);
    }
  }

  /** Of the journal's steps only recovery unlinks, and only journaled files that no row uses. */
  lemma OnlyUnreferencedFilesGo(s: Store, steps: seq<Step>, step: Step, p: Path)
    requires Inv(s) && !step.PowerLoss?
    requires p in Run(s, steps).disk && p !in Do(Run(s, steps), step).disk
    ensures step.RecoverEntry? && p == step.path && p !in Referenced(Run(s, steps).rows) && p in Run(s, steps).journal
  {
    PhotosAreCrashSafe(s, steps);
  }

  /** A recovery that ends without an error leaves no unreferenced file, on disk or to come back. */
  lemma CleanRecoveryLeavesNoStrays(s: Store, steps: seq<Step>)
    requires Inv(s)
    requires Run(s, steps).task.Recovering? && Run(s, steps).task.todo == {} && !Run(s, steps).task.failed
    ensures Run(s, steps).disk + Run(s, steps).durable == Referenced(Run(s, steps).rows)
  {
    PhotosAreCrashSafe(s, steps);
  }

  function WriteAll(files: seq<Path>): seq<Step> {
    seq(|files|, i requires 0 <= i < |files| => WriteFile(files[i]))
  }

  function Publication(row: nat, next: set<Path>, legacy: Option<Path>, files: seq<Path>): seq<Step> {
    [Publish(row, next, legacy), MarkRetired] + WriteAll(files) + [Flush, Commit]
  }

  lemma {:induction false} RunAppends(s: Store, a: seq<Step>, b: seq<Step>)
    ensures Run(s, a + b) == Run(Run(s, a), b)
    decreases |b|
  {
    if b == [] {
      assert a + b == a;
    } else {
      RunAppends(s, a, b[..|b| - 1]);
      assert (a + b)[..|a + b| - 1] == a + b[..|b| - 1];
    }
  }

  function Paths(files: seq<Path>): set<Path> {
    set p | p in files
  }

  lemma PathsGrow(files: seq<Path>)
    requires files != []
    ensures Paths(files) == Paths(files[..|files| - 1]) + {files[|files| - 1]}
  {
    assert files == files[..|files| - 1] + [files[|files| - 1]];
  }

  /** Every file is written, however often and in whatever order it is listed. */
  lemma {:induction false} FilesAreWritten(s: Store, files: seq<Path>)
    requires s.task.Publishing? && s.task.stage.Writing? && Paths(files) <= s.task.stage.missing
    ensures Run(s, WriteAll(files)) == s.(disk := s.disk + Paths(files),
                                          task := s.task.(stage := Writing(s.task.stage.missing - Paths(files))))
    decreases |files|
  {
    if files == [] {
      assert s.disk + Paths(files) == s.disk && s.task.stage.missing - Paths(files) == s.task.stage.missing;
    } else {
      var front, last := files[..|files| - 1], files[|files| - 1];
      PathsGrow(files);
      FilesAreWritten(s, front);
      assert WriteAll(files)[..|files| - 1] == WriteAll(front);
      OneFileWritten(s, Paths(front), last);
    }
  }

  lemma OneFileWritten(s: Store, written: set<Path>, last: Path)
    requires s.task.Publishing? && s.task.stage.Writing? && written + {last} <= s.task.stage.missing
    ensures var missing := s.task.stage.missing;
            Do(s.(disk := s.disk + written, task := s.task.(stage := Writing(missing - written))), WriteFile(last))
            == s.(disk := s.disk + (written + {last}), task := s.task.(stage := Writing(missing - (written + {last}))))
  {
    var missing := s.task.stage.missing;
    assert s.disk + written + {last} == s.disk + (written + {last});
    assert missing - written - {last} == missing - (written + {last});
    if last in written {
      assert written + {last} == written;
    }
  }

  lemma TwoSteps(s: Store, a: Step, b: Step)
    ensures Run(s, [a, b]) == Do(Do(s, a), b)
  {
    assert [a, b][..1] == [a] && [a][..0] == [];
    assert Run(s, [a]) == Do(s, a);
  }

  /** An undisturbed publication puts every new photo on disk, safe from a power loss, and makes
      them the row's photos; no other row changes. */
  lemma PublicationTakesEffect(s: Store, row: nat, next: set<Path>, legacy: Option<Path>, files: seq<Path>)
    requires Inv(s) && s.task == Idle && next !! s.disk + s.durable + s.journal.Keys + Referenced(s.rows)
    requires next == Paths(files)
    ensures var after := Run(s, Publication(row, next, legacy, files));
            after.rows == s.rows[row := next] && after.disk == s.disk + next && after.durable == s.disk + next
  {
    var start := [Publish(row, next, legacy), MarkRetired];
    var writing := Do(Do(s, start[0]), start[1]);
    TwoSteps(s, start[0], start[1]);
    FilesAreWritten(writing, files);
    RunAppends(s, start, WriteAll(files));
    RunAppends(s, start + WriteAll(files), [Flush, Commit]);
    TwoSteps(Run(writing, WriteAll(files)), Flush, Commit);
    CommitTakesEffect(writing, next);
  }

  lemma CommitTakesEffect(writing: Store, next: set<Path>)
    requires writing.task.Publishing? && writing.task.stage == Writing(next) && writing.task.next == next
    ensures var written := writing.(disk := writing.disk + next, task := writing.task.(stage := Writing(next - next)));
            var after := Do(Do(written, Flush), Commit);
            && after.rows == writing.rows[writing.task.row := next]
            && after.disk == writing.disk + next && after.durable == writing.disk + next
  {
    assert next - next == {};
  }

  // ----- a whole recovery, and what it completes -----

  /** Visit these journal entries, in any order, without an error. */
  function Visits(paths: seq<Path>): seq<Step> {
    if paths == [] then []
    else Visits(paths[..|paths| - 1]) + [RecoverEntry(paths[|paths| - 1], false), SyncUnlink(false)]
  }

  function Recovery(paths: seq<Path>): seq<Step> {
    Visits(paths) + [Finish]
  }

  /** The recovery goes on without an error, and these entries are still to visit. */
  ghost predicate Recovers(s: Store, rows: map<nat, set<Path>>, todo: set<Path>) {
    Inv(s) && s.rows == rows && s.task == Recovering(todo, Referenced(rows), false)
  }

  lemma VisitDoesOne(s: Store, rows: map<nat, set<Path>>, todo: set<Path>, path: Path)
    requires Recovers(s, rows, todo)
    ensures Recovers(Do(Do(s, RecoverEntry(path, false)), SyncUnlink(false)), rows, todo - {path})
  {
    StepKeepsInv(s, RecoverEntry(path, false));
    StepKeepsInv(Do(s, RecoverEntry(path, false)), SyncUnlink(false));
    if path !in todo {
      assert todo - {path} == todo;
    }
  }

  lemma {:induction false} VisitsDoAll(s: Store, rows: map<nat, set<Path>>, todo: set<Path>, paths: seq<Path>)
    requires Recovers(s, rows, todo)
    ensures Recovers(Run(s, Visits(paths)), rows, todo - Paths(paths))
  {
    if paths == [] {
      assert todo - Paths(paths) == todo;
    } else {
      var front, last := paths[..|paths| - 1], paths[|paths| - 1];
      var visit := [RecoverEntry(last, false), SyncUnlink(false)];
      VisitsDoAll(s, rows, todo, front);
      PathsGrow(paths);
      VisitDoesOne(Run(s, Visits(front)), rows, todo - Paths(front), last);
      RunAppends(s, Visits(front), visit);
      TwoSteps(Run(s, Visits(front)), visit[0], visit[1]);
      assert todo - Paths(front) - {last} == todo - Paths(paths);
    }
  }

  /** The disk, now and after a power loss, holds exactly the photos of these rows. */
  ghost predicate Settled(s: Store, rows: map<nat, set<Path>>) {
    s.rows == rows && s.task == Idle && s.disk == s.durable == Referenced(rows)
  }

  /** A recovery that meets no error keeps the rows and leaves exactly their photos. */
  lemma RecoverySettles(s: Store, rows: map<nat, set<Path>>, paths: seq<Path>)
    requires Inv(s) && s.rows == rows && s.task == Recovering(s.journal.Keys, Referenced(rows), false)
    requires s.journal.Keys <= Paths(paths)
    ensures Settled(Run(s, Recovery(paths)), rows)
  {
    VisitsDoAll(s, rows, s.journal.Keys, paths);
    var visited := Run(s, Visits(paths));
    assert s.journal.Keys - Paths(paths) == {};
    RunAppends(s, Visits(paths), [Finish]);
    OneStep(visited, Finish);
  }

  lemma OneStep(s: Store, a: Step)
    ensures Run(s, [a]) == Do(s, a)
  {
    assert [a][..0] == [];
  }

  /** What a removal may have to visit: the journal so far and what the removal retires. */
  function ToVisit(s: Store, row: nat, file: set<Path>): set<Path> {
    s.journal.Keys + PhotosOf(s.rows, row) + file
  }

  /** A recovery has just started for these rows, and the journal holds no other entries. */
  ghost predicate StartsRecovery(s: Store, rows: map<nat, set<Path>>, paths: set<Path>) {
    Inv(s) && s.rows == rows && s.task == Recovering(s.journal.Keys, Referenced(rows), false) && s.journal.Keys <= paths
  }

  lemma RemovalCommits(s: Store, row: nat, file: Path)
    requires Inv(s) && s.task == Idle
    ensures StartsRecovery(Do(Do(s, Remove(row, file)), CommitRemove), s.rows - {row}, ToVisit(s, row, {file}))
    ensures StartsRecovery(Do(s, RemoveLocal(row)), s.rows - {row}, ToVisit(s, row, {}))
  {
    RemoveKeepsInv(s, row, file);
    CommitKeepsInv(Do(s, Remove(row, file)));
  }

  /** An undisturbed removal of a synced worker ends without the row, and without any photo of it, its
      identity file included, that no other row uses; all other rows keep theirs. */
  lemma RemovalTakesEffect(s: Store, row: nat, file: Path, paths: seq<Path>)
    requires Inv(s) && s.task == Idle && ToVisit(s, row, {file}) <= Paths(paths)
    ensures Settled(Run(s, [Remove(row, file), CommitRemove] + Recovery(paths)), s.rows - {row})
  {
    RemovalCommits(s, row, file);
    TwoSteps(s, Remove(row, file), CommitRemove);
    RunAppends(s, [Remove(row, file), CommitRemove], Recovery(paths));
    RecoverySettles(Do(Do(s, Remove(row, file)), CommitRemove), s.rows - {row}, paths);
  }

  /** The same for a local worker. */
  lemma LocalRemovalTakesEffect(s: Store, row: nat, paths: seq<Path>)
    requires Inv(s) && s.task == Idle && ToVisit(s, row, {}) <= Paths(paths)
    ensures Settled(Run(s, [RemoveLocal(row)] + Recovery(paths)), s.rows - {row})
  {
    RemovalCommits(s, row, 0);
    OneStep(s, RemoveLocal(row));
    RunAppends(s, [RemoveLocal(row)], Recovery(paths));
    RecoverySettles(Do(s, RemoveLocal(row)), s.rows - {row}, paths);
  }

  lemma {:induction false} PublicationEnds(s: Store, row: nat, next: set<Path>, legacy: Option<Path>, files: seq<Path>)
    requires Inv(s) && s.task == Idle && next !! s.disk + s.durable + s.journal.Keys + Referenced(s.rows)
    requires next == Paths(files)
    ensures var after := Run(s, Publication(row, next, legacy, files));
            && Inv(after) && after.rows == s.rows[row := next]
            && after.task == Recovering(after.journal.Keys, Referenced(after.rows), false)
            && after.journal.Keys <= ToVisit(s, row, next) + (if legacy.Some? then {legacy.value} else {})
  {
    var start := [Publish(row, next, legacy), MarkRetired];
    var writing := Do(Do(s, start[0]), start[1]);
    PhotosAreCrashSafe(s, Publication(row, next, legacy, files));
    TwoSteps(s, start[0], start[1]);
    FilesAreWritten(writing, files);
    RunAppends(s, start, WriteAll(files));
    RunAppends(s, start + WriteAll(files), [Flush, Commit]);
    TwoSteps(Run(writing, WriteAll(files)), Flush, Commit);
    assert next - next == {};
  }

  /** A publication and the recovery behind it leave exactly the photos of the updated rows: the ones
      that the row had before are gone, unless another row uses them. */
  lemma ReplacementTakesEffect(
    s: Store, row: nat, next: set<Path>, legacy: Option<Path>, files: seq<Path>, paths: seq<Path>)
    requires Inv(s) && s.task == Idle && next !! s.disk + s.durable + s.journal.Keys + Referenced(s.rows)
    requires next == Paths(files)
    requires ToVisit(s, row, next) + (if legacy.Some? then {legacy.value} else {}) <= Paths(paths)
    ensures Settled(Run(s, Publication(row, next, legacy, files) + Recovery(paths)), s.rows[row := next])
  {
    PublicationEnds(s, row, next, legacy, files);
    RunAppends(s, Publication(row, next, legacy, files), Recovery(paths));
    RecoverySettles(Run(s, Publication(row, next, legacy, files)), s.rows[row := next], paths);
  }

  /** Wherever the process died, a restart with an undisturbed recovery keeps the rows and leaves
      exactly their photos. */
  lemma RestartSettles(s: Store, paths: seq<Path>)
    requires Inv(s) && s.journal.Keys <= Paths(paths)
    ensures Settled(Run(s, [Exit, Recover] + Recovery(paths)), s.rows)
  {
    StepKeepsInv(s, Exit);
    StepKeepsInv(Do(s, Exit), Recover);
    TwoSteps(s, Exit, Recover);
    RunAppends(s, [Exit, Recover], Recovery(paths));
    RecoverySettles(Do(Do(s, Exit), Recover), s.rows, paths);
  }

  /** A publication that fails halfway is undone: its new photos go, and the rows are as they were. */
  lemma AbortSettles(s: Store, paths: seq<Path>)
    requires Inv(s) && s.task.Publishing? && s.journal.Keys <= Paths(paths)
    ensures Settled(Run(s, [Abort] + Recovery(paths)), s.rows)
  {
    StepKeepsInv(s, Abort);
    OneStep(s, Abort);
    RunAppends(s, [Abort], Recovery(paths));
    RecoverySettles(Do(s, Abort), s.rows, paths);
  }

  /** The directory and the database, recovered in place. */
  class PhotoStore {
    var disk: set<Path>
    var durable: set<Path>
    var rows: map<nat, set<Path>>
    var journal: map<Path, Kind>

    function State(): Store
      reads this
    {
      Store(disk, durable, rows, journal, Idle)
    }

    constructor (s: Store)
      ensures State() == s.(task := Idle)
    {
      disk, durable, rows, journal := s.disk, s.durable, s.rows, s.journal;
    }

    /** Visit every journal entry; the entries in `unlinkFails` or `syncFails` hit an I/O error.
        Errors are remembered and the other entries are still visited. */
    method RecoverPhotoCleanup(unlinkFails: set<Path>, syncFails: set<Path>) returns (failed: bool)
      requires Inv(State())
      modifies this`disk, this`durable, this`journal
      ensures Inv(State())
      ensures Referenced(rows) <= disk <= old(disk)
      ensures forall p :: p in old(disk) && p !in disk ==> p in old(journal) && p !in Referenced(rows)
      ensures !failed ==> disk + durable == Referenced(rows)
      ensures !failed ==> forall p :: p in journal <==>
          p in old(journal) && old(journal)[p] == Retired && p in Referenced(rows)
      ensures unlinkFails == syncFails == {} ==> !failed
    {
      var references := Referenced(rows);
      var todo := journal.Keys;
      failed := false;
      while todo != {}
        invariant Inv(Store(disk, durable, rows, journal, Recovering(todo, references, failed)))
        invariant references <= disk <= old(disk)
        invariant forall p :: p in old(disk) && p !in disk ==> p in old(journal) && p !in references
        invariant forall p :: p in journal ==> p in old(journal) && journal[p] == old(journal)[p]
        invariant forall p :: p in journal && p !in todo && p in references ==> journal[p] == Retired
        invariant forall p :: p in old(journal) && p in references && old(journal)[p] == Retired ==> p in journal
        invariant unlinkFails == syncFails == {} ==> !failed
        decreases todo
      {
        var path :| path in todo;
        todo := todo - {path};
        var kind := journal[path];
        if kind == Published && path in references {
          journal := journal - {path};
        } else if kind == Retired && path in references {
        } else if path !in disk {
          if path in syncFails {
            failed := true;
          } else {
            durable := disk;
            journal := journal - {path};
          }
        } else if path in unlinkFails {
          failed := true;
        } else {
          disk := disk - {path};
          if path in syncFails {
            failed := true;
          } else {
            durable := disk;
            journal := journal - {path};
          }
        }
      }
    }
  }
}
