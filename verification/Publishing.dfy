/**
 Append runs publishing into tables of files (bauta/lake/target.py), under the
 locks that keep a job from running twice (bauta/jobs/memory.py): any number of
 invocations and runs side by side, each store operation a step of its own, and
 a process dying between any two of them.
 */
module Publishing {
  import opened Wrappers

  type Job = string
  type Table = string

  /** Where a part is published: its table's directory, under a name carrying its run's id. */
  datatype Part = Part(table: Table, run: nat, number: nat)

  /** A run's _PUBLISHING file: none, one cut short by a death, or whole. */
  datatype Intent = NoIntent | Torn | Whole(job: Job, table: Table, files: set<Part>)

  datatype Phase =
    | Listing
    | TakingBack(remaining: set<nat>, current: Option<nat>, left: set<Part>)
    | Writing
    | Moving(next: nat)
    | Published
    | Aborting(next: nat, moved: nat, kept: bool, strayed: bool)
    | Finished | Failed(strayed: bool) | Dead

  /** Whether a part is in the table that the run itself does not know of, a copy whose original it could not delete;
      of a failed run, one that no intent lists either. */
  predicate Strayed(phase: Phase) {
    (phase.Aborting? || phase.Failed?) && phase.strayed
  }

  /** One attempt at a job: where it appends, the parts it has written to its staging, whether it
      has prepared, the runs whose intents it failed to read, and how far it is. */
  datatype Run = Run(job: Job, table: Table, invocation: nat, written: nat, prepared: bool, unread: set<nat>,
                     phase: Phase)

  /** A `bauta run`: of every job, or only of some, and the job locks it has so far. */
  datatype Invocation = Invocation(jobs: Option<set<Job>>, held: set<Job>)

  /** The invocations holding the run lock, the runs so far in the order they began, their
      staging directories, and the files in the tables. */
  datatype State = State(invocations: map<nat, Invocation>, runs: seq<Run>, staging: map<nat, Intent>, files: set<Part>)

  predicate Live(run: Run) {
    !run.phase.Finished? && !run.phase.Failed? && !run.phase.Dead?
  }

  function Files(run: Run, r: nat): set<Part> {
    set k: nat | k < run.written :: Part(run.table, r, k)
  }

  datatype Event =
    | TakesRunLock(i: nat, jobs: Option<set<Job>>)
    | TakesJobLock(i: nat, job: Job)
    | Ends(i: nat)
    | Begins(i: nat, job: Job, table: Table)
    | Lists(r: nat)
    | Looks(r: nat, q: nat)
    | CannotRead(r: nat, q: nat)
    | Checks(r: nat, file: Part)
    | Clears(r: nat)
    | Prepares(r: nat)
    | WritesPart(r: nat)
    | Intends(r: nat)
    | TearsIntent(r: nat)
    | Moves(r: nat)
    | HalfMoves(r: nat)
    | Publishes(r: nat)
    | Cleans(r: nat, removed: bool)
    | AppendsNothing(r: nat)
    | Raises(r: nat)
    | TakesOwnBack(r: nat, deleted: bool)
    | GivesUp(r: nat, removed: bool)
    | Dies(r: nat)

  // ---------- Steps of the locks ----------

  /** Whether an invocation holds what a run of `job` needs held: every lock it is to take. */
  predicate MayRun(invocation: Invocation, job: Job) {
    invocation.jobs.None? || (invocation.held == invocation.jobs.value && job in invocation.held)
  }

  predicate LockCanHappen(s: State, e: Event) {
    match e
    // The run lock: exclusive for every job, shared for some.
    case TakesRunLock(i, jobs) =>
      && i !in s.invocations
      && (if jobs.None? then s.invocations == map[] else forall j :: j in s.invocations ==> s.invocations[j].jobs.Some?)
    // A job's own lock is exclusive.
    case TakesJobLock(i, job) =>
      && i in s.invocations && s.invocations[i].jobs.Some? && job in s.invocations[i].jobs.value
      && forall j :: j in s.invocations ==> job !in s.invocations[j].held
    case Ends(i) => i in s.invocations
    // An invocation has one process at a time for a job.
    case Begins(i, job, table) =>
      && i in s.invocations && MayRun(s.invocations[i], job)
      && forall q :: 0 <= q < |s.runs| && Live(s.runs[q]) && s.runs[q].invocation == i ==> s.runs[q].job != job
    case _ => false
  }

  function EndOf(run: Run, i: nat): Run {
    if Live(run) && run.invocation == i then run.(phase := Dead) else run
  }

  function LockAfter(s: State, e: Event): State {
    match e
    case TakesRunLock(i, jobs) => s.(invocations := s.invocations[i := Invocation(jobs, {})])
    case TakesJobLock(i, job) =>
      if i !in s.invocations then s
      else s.(invocations := s.invocations[i := s.invocations[i].(held := s.invocations[i].held + {job})])
    // Finished or killed, its locks go with it, and so do its jobs' processes.
    case Ends(i) =>
      s.(invocations := s.invocations - {i},
         runs := seq(|s.runs|, r requires 0 <= r < |s.runs| => EndOf(s.runs[r], i)))
    case Begins(i, job, table) => s.(runs := s.runs + [Run(job, table, i, 0, false, {}, Listing)])
    case _ => s
  }

  // ---------- Steps of a run ----------

  /** Whether a staging directory's intent is one this run takes back: its own job's, for its own table. */
  predicate IsOurs(run: Run, intent: Intent) {
    intent.Whole? && intent.job == run.job && intent.table == run.table
  }

  predicate RunCanHappen(s: State, r: nat, e: Event)
    requires r < |s.runs|
  {
    var run := s.runs[r];
    match e
    case Lists(_) => run.phase.Listing?
    case Looks(_, q) => run.phase.TakingBack? && run.phase.current.None? && q in run.phase.remaining
    case CannotRead(_, q) => run.phase.TakingBack? && run.phase.current.None? && q in run.phase.remaining
    case Checks(_, file) => run.phase.TakingBack? && run.phase.current.Some? && file in run.phase.left
    case Clears(_) => run.phase.TakingBack? && run.phase.current.Some? && run.phase.left == {}
    case Prepares(_) => run.phase.TakingBack? && run.phase.current.None? && run.phase.remaining == {}
    case WritesPart(_) => run.phase.Writing?
    case Intends(_) => run.phase.Writing? && run.written > 0
    case TearsIntent(_) => run.phase.Writing? && run.written > 0
    case Moves(_) => run.phase.Moving? && run.phase.next < run.written
    case HalfMoves(_) => run.phase.Moving? && run.phase.next < run.written
    case Publishes(_) => run.phase.Moving? && run.phase.next == run.written
    case Cleans(_, _) => run.phase.Published?
    case AppendsNothing(_) => run.phase.Writing? && run.written == 0
    case Raises(_) => run.phase.Listing? || run.phase.TakingBack? || run.phase.Writing? || run.phase.Moving?
    case TakesOwnBack(_, _) => run.phase.Aborting? && run.phase.next < run.phase.moved
    case GivesUp(_, _) => run.phase.Aborting? && run.phase.next == run.phase.moved
    case Dies(_) => Live(run)
    case _ => false
  }

  function With(s: State, r: nat, phase: Phase): State
    requires r < |s.runs|
  {
    s.(runs := s.runs[r := s.runs[r].(phase := phase)])
  }

  function RunAfter(s: State, r: nat, e: Event): State
    requires r < |s.runs| && RunCanHappen(s, r, e)
  {
    var run := s.runs[r];
    match e
    case Lists(_) => With(s, r, TakingBack(s.staging.Keys - {r}, None, {}))
    case Looks(_, q) =>
      if q in s.staging && IsOurs(run, s.staging[q]) then
        With(s, r, run.phase.(current := Some(q),
                              left := set file | file in s.staging[q].files && file.table == run.table))
      else With(s, r, run.phase.(remaining := run.phase.remaining - {q}))
    // An OSError passes the intent over.
    case CannotRead(_, q) =>
      s.(runs := s.runs[r := run.(unread := run.unread + {q},
                                  phase := run.phase.(remaining := run.phase.remaining - {q}))])
    case Checks(_, file) => With(s, r, run.phase.(left := run.phase.left - {file})).(files := s.files - {file})
    case Clears(_) =>
      var q := run.phase.current.value;
      With(s, r, TakingBack(run.phase.remaining - {q}, None, {})).(staging := s.staging - {q})
    case Prepares(_) => s.(runs := s.runs[r := run.(phase := Writing, prepared := true)],
                           staging := s.staging[r := NoIntent])
    case WritesPart(_) => s.(runs := s.runs[r := run.(written := run.written + 1)])
    case Intends(_) => With(s, r, Moving(0)).(staging := s.staging[r := Whole(run.job, run.table, Files(run, r))])
    case TearsIntent(_) => With(s, r, Dead).(staging := s.staging[r := Torn])
    case Moves(_) => With(s, r, Moving(run.phase.next + 1)).(files := s.files + {Part(run.table, r, run.phase.next)})
    // Where a store copies to move, the copy stays if deleting the original fails; the run aborts.
    case HalfMoves(_) =>
      With(s, r, Aborting(0, run.phase.next, false, true)).(files := s.files + {Part(run.table, r, run.phase.next)})
    case Publishes(_) => With(s, r, Published).(staging := s.staging[r := NoIntent])
    case Cleans(_, removed) => With(s, r, Finished).(staging := if removed then s.staging - {r} else s.staging)
    case AppendsNothing(_) => With(s, r, Finished).(staging := s.staging - {r})
    case Raises(_) => With(s, r, Aborting(0, if run.phase.Moving? then run.phase.next else 0, false, false))
    case TakesOwnBack(_, deleted) =>
      With(s, r, run.phase.(next := run.phase.next + 1, kept := run.phase.kept || !deleted))
      .(files := if deleted then s.files - {Part(run.table, r, run.phase.next)} else s.files)
    case GivesUp(_, removed) =>
      var gone := !run.phase.kept && removed;
      With(s, r, Failed(run.phase.strayed && gone)).(staging := if gone then s.staging - {r} else s.staging)
    case Dies(_) => With(s, r, Dead)
    case _ => s
  }

  predicate IsLockEvent(e: Event) {
    e.TakesRunLock? || e.TakesJobLock? || e.Ends? || e.Begins?
  }

  function RunOf(e: Event): nat {
    match e
    case Lists(r) => r
    case Looks(r, _) => r
    case CannotRead(r, _) => r
    case Checks(r, _) => r
    case Clears(r) => r
    case Prepares(r) => r
    case WritesPart(r) => r
    case Intends(r) => r
    case TearsIntent(r) => r
    case Moves(r) => r
    case HalfMoves(r) => r
    case Publishes(r) => r
    case Cleans(r, _) => r
    case AppendsNothing(r) => r
    case Raises(r) => r
    case TakesOwnBack(r, _) => r
    case GivesUp(r, _) => r
    case Dies(r) => r
    case _ => 0
  }

  predicate CanHappen(s: State, e: Event) {
    if IsLockEvent(e) then LockCanHappen(s, e) else RunOf(e) < |s.runs| && RunCanHappen(s, RunOf(e), e)
  }

  function After(s: State, e: Event): State
    requires CanHappen(s, e)
  {
    if IsLockEvent(e) then LockAfter(s, e) else RunAfter(s, RunOf(e), e)
  }

  lemma OneRunChanges(s: State, r: nat, e: Event)
    requires r < |s.runs| && RunCanHappen(s, r, e)
    ensures var t := RunAfter(s, r, e); |t.runs| == |s.runs| && t.runs == s.runs[r := t.runs[r]]
  {
    hide Files, IsOurs;
  }

  // ---------- What every step keeps ----------

  predicate Intended(s: State, r: nat) {
    r in s.staging && s.staging[r].Whole?
  }

  ghost predicate AllPublished(s: State, r: nat)
    requires r < |s.runs|
  {
    Files(s.runs[r], r) <= s.files
  }

  ghost predicate NonePublished(s: State, r: nat)
    requires r < |s.runs|
  {
    Files(s.runs[r], r) !! s.files
  }

  /** What is in the table of a run, by how far it is. */
  ghost predicate RunKeeps(s: State, r: nat)
    requires r < |s.runs|
  {
    var run := s.runs[r];
    && (Intended(s, r) ==> s.staging[r] == Whole(run.job, run.table, Files(run, r)))
    && match run.phase
       case Listing => NonePublished(s, r) && !Intended(s, r)
       case TakingBack(_, _, _) => NonePublished(s, r) && !Intended(s, r)
       case Writing => NonePublished(s, r) && !Intended(s, r)
       case Moving(next) =>
         && next <= run.written && Intended(s, r)
         && forall k: nat :: k < run.written ==> (Part(run.table, r, k) in s.files <==> k < next)
       case Published => AllPublished(s, r) && !Intended(s, r)
       case Finished => AllPublished(s, r) && !Intended(s, r)
       case Aborting(next, moved, kept, strayed) =>
         && next <= moved <= run.written && (moved > 0 || strayed ==> Intended(s, r))
         && forall k: nat :: k < run.written && Part(run.table, r, k) in s.files ==>
              if k < moved then k < next ==> kept else strayed
       case Failed(strayed) => Intended(s, r) || NonePublished(s, r) || strayed
       case Dead => Intended(s, r) || AllPublished(s, r) || NonePublished(s, r)
  }

  predicate SameWork(a: Run, b: Run) {
    a.job == b.job && a.table == b.table
  }

  /** What a run has left to sweep of an earlier one of its job and table, whose intent it can read. */
  ghost predicate Swept(s: State, r: nat, q: nat)
    requires q < r < |s.runs|
  {
    var run := s.runs[r];
    SameWork(s.runs[q], run) && Intended(s, q) && q !in run.unread ==>
      && !run.prepared
      && (run.phase.TakingBack? ==> q in run.phase.remaining)
  }

  /** The intent being taken back, and the files of it that are gone. */
  ghost predicate CurrentKeeps(s: State, r: nat)
    requires r < |s.runs|
  {
    var run := s.runs[r];
    && (run.phase.Listing? || run.phase.TakingBack? ==> !run.prepared)
    && (run.phase.TakingBack? && run.phase.current.Some? ==>
          var q := run.phase.current.value;
          && q < r && SameWork(s.runs[q], run) && Intended(s, q)
          && run.phase.left <= Files(s.runs[q], q)
          && forall file :: file in Files(s.runs[q], q) && file in s.files ==> file in run.phase.left)
  }

  ghost predicate Apart(a: Invocation, b: Invocation) {
    a.jobs.Some? && b.jobs.Some? && a.held !! b.held
  }

  predicate Holds(invocation: Invocation, job: Job) {
    invocation.jobs.None? || job in invocation.held
  }

  ghost predicate LocksKeep(s: State) {
    && (forall i, j :: i in s.invocations && j in s.invocations && i != j ==> Apart(s.invocations[i], s.invocations[j]))
    && (forall r :: 0 <= r < |s.runs| && Live(s.runs[r]) ==>
          s.runs[r].invocation in s.invocations && Holds(s.invocations[s.runs[r].invocation], s.runs[r].job))
  }

  /** A job runs again only once its run before is over. */
  ghost predicate EarlierAreOver(s: State) {
    forall q, r :: 0 <= q < r < |s.runs| && s.runs[q].job == s.runs[r].job ==> !Live(s.runs[q])
  }

  ghost predicate FilesKeep(s: State) {
    && (forall file :: file in s.files ==> file.run < |s.runs| && file in Files(s.runs[file.run], file.run))
    && (forall r :: r in s.staging ==> r < |s.runs|)
  }

  ghost predicate RunsKeep(s: State) {
    && (forall r :: 0 <= r < |s.runs| ==> RunKeeps(s, r) && CurrentKeeps(s, r))
    && (forall q, r :: 0 <= q < r < |s.runs| ==> Swept(s, r, q))
  }

  ghost predicate Invariant(s: State) {
    LocksKeep(s) && EarlierAreOver(s) && FilesKeep(s) && RunsKeep(s)
  }

  // ---------- One run's own steps ----------

  /** A step of run `r` that touches only its own staging and its own parts. */
  ghost predicate OnlyOwn(s: State, t: State, r: nat)
    requires r < |s.runs|
  {
    && t.invocations == s.invocations && |t.runs| == |s.runs|
    && (forall q :: 0 <= q < |s.runs| && q != r ==> t.runs[q] == s.runs[q])
    && t.runs[r].job == s.runs[r].job && t.runs[r].table == s.runs[r].table
    && t.runs[r].invocation == s.runs[r].invocation
    && (forall q :: q != r ==>
          (q in t.staging <==> q in s.staging) && (q in s.staging ==> t.staging[q] == s.staging[q]))
    && (forall file: Part :: file.run != r ==> (file in t.files <==> file in s.files))
  }

  lemma OthersKeep(s: State, t: State, r: nat, q: nat)
    requires r < |s.runs| && q < |s.runs| && q != r && OnlyOwn(s, t, r) && RunKeeps(s, q)
    ensures RunKeeps(t, q)
  {
    assert t.runs[q] == s.runs[q];
    assert Intended(t, q) <==> Intended(s, q);
    assert AllPublished(t, q) <==> AllPublished(s, q) by {
      forall k: nat | k < s.runs[q].written
        ensures Part(s.runs[q].table, q, k) in t.files <==> Part(s.runs[q].table, q, k) in s.files
      {
      }
    }
    assert NonePublished(t, q) <==> NonePublished(s, q) by {
      forall file | file in Files(s.runs[q], q) ensures file in t.files <==> file in s.files {
      }
    }
  }

  lemma OthersCurrent(s: State, t: State, r: nat, q: nat)
    requires r < |s.runs| && q < |s.runs| && q != r && OnlyOwn(s, t, r) && CurrentKeeps(s, q)
    requires Live(s.runs[r]) && EarlierAreOver(s)
    ensures CurrentKeeps(t, q)
  {
    hide Files;
    var run := s.runs[q];
    assert t.runs[q] == run;
    if run.phase.TakingBack? && run.phase.current.Some? {
      var c := run.phase.current.value;
      assert c != r;
      assert t.runs[c] == s.runs[c];
      forall file | file in Files(t.runs[c], c) && file in t.files ensures file in run.phase.left {
        FilesAreOwn(s.runs[c], c, file);
      }
    }
  }

  lemma FilesAreOwn(run: Run, r: nat, file: Part)
    requires file in Files(run, r)
    ensures file.run == r && file.table == run.table
  {
  }

  /** With the run itself in order, a step of its own keeps everything. */
  lemma OwnStepKeeps(s: State, t: State, r: nat)
    requires Invariant(s) && r < |s.runs| && Live(s.runs[r]) && OnlyOwn(s, t, r) && |t.runs| == |s.runs|
    requires RunKeeps(t, r) && CurrentKeeps(t, r)
    requires forall q :: 0 <= q < r ==> Swept(t, r, q)
    requires forall file :: file in t.files && file.run == r ==> file in Files(t.runs[r], r)
    ensures Invariant(t)
  {
    hide RunKeeps, CurrentKeeps, Files, Swept;
    assert LocksKeep(t) by {
      forall q | 0 <= q < |t.runs| && Live(t.runs[q])
        ensures t.runs[q].invocation in t.invocations && Holds(t.invocations[t.runs[q].invocation], t.runs[q].job) {
        assert Live(s.runs[q]);
      }
    }
    forall q, p | 0 <= q < p < |t.runs| && t.runs[q].job == t.runs[p].job ensures !Live(t.runs[q]) {
      assert s.runs[q].job == s.runs[p].job;
      assert !Live(s.runs[q]);
      assert q != r;
    }
    forall q | 0 <= q < |t.runs| ensures RunKeeps(t, q) && CurrentKeeps(t, q) {
      if q != r {
        OthersKeep(s, t, r, q);
        OthersCurrent(s, t, r, q);
      }
    }
    forall q, p | 0 <= q < p < |t.runs| ensures Swept(t, p, q) {
      if p != r {
        SweptStays(s, t, r, p, q);
      }
    }
    forall file | file in t.files ensures file.run < |t.runs| && file in Files(t.runs[file.run], file.run) {
      if file.run != r {
        assert file in s.files;
      }
    }
  }

  lemma SweptStays(s: State, t: State, r: nat, p: nat, q: nat)
    requires q < p < |s.runs| && p != r && r < |s.runs| && OnlyOwn(s, t, r) && Swept(s, p, q)
    requires Live(s.runs[r]) && EarlierAreOver(s)
    ensures |t.runs| == |s.runs| && Swept(t, p, q)
  {
    assert t.runs[p] == s.runs[p];
    if q != r {
      assert t.runs[q] == s.runs[q] && (Intended(t, q) <==> Intended(s, q));
    } else {
      assert s.runs[q].job != s.runs[p].job;
    }
  }

  lemma ListsKeeps(s: State, e: Event)
    requires Invariant(s) && e.Lists? && CanHappen(s, e)
    ensures Invariant(After(s, e))
  {
    hide LocksKeep, EarlierAreOver;
    var r, t := RunOf(e), After(s, e);
    assert RunKeeps(s, r) && CurrentKeeps(s, r);
    assert RunKeeps(t, r) && CurrentKeeps(t, r);
    forall q | 0 <= q < r ensures Swept(t, r, q) {
      assert Swept(s, r, q);
    }
    OwnStepKeeps(s, t, r);
  }

  lemma LiveIsLast(s: State, r: nat, q: nat)
    requires EarlierAreOver(s) && r < |s.runs| && q < |s.runs| && q != r && Live(s.runs[r]) &&
             s.runs[q].job == s.runs[r].job
    ensures q < r && !Live(s.runs[q])
  {
  }

  lemma LooksKeeps(s: State, e: Event)
    requires Invariant(s) && e.Looks? && CanHappen(s, e)
    ensures Invariant(After(s, e))
  {
    hide LocksKeep;
    var r, q, t := RunOf(e), e.q, After(s, e);
    var run := s.runs[r];
    assert RunKeeps(s, r) && CurrentKeeps(s, r);
    if q in s.staging && IsOurs(run, s.staging[q]) {
      assert RunKeeps(s, q);
      assert q != r;
      LiveIsLast(s, r, q);
      assert t.runs[r].phase.left == Files(s.runs[q], q);
    }
    assert RunKeeps(t, r) && CurrentKeeps(t, r);
    forall p | 0 <= p < r ensures Swept(t, r, p) {
      assert Swept(s, r, p) && RunKeeps(s, p);
    }
    OwnStepKeeps(s, t, r);
  }

  lemma CannotReadKeeps(s: State, e: Event)
    requires Invariant(s) && e.CannotRead? && CanHappen(s, e)
    ensures Invariant(After(s, e))
  {
    hide LocksKeep, EarlierAreOver;
    var r, t := RunOf(e), After(s, e);
    assert RunKeeps(s, r) && CurrentKeeps(s, r);
    assert RunKeeps(t, r) && CurrentKeeps(t, r);
    forall q | 0 <= q < r ensures Swept(t, r, q) {
      assert Swept(s, r, q);
    }
    OwnStepKeeps(s, t, r);
  }

  lemma PreparesKeeps(s: State, e: Event)
    requires Invariant(s) && e.Prepares? && CanHappen(s, e)
    ensures Invariant(After(s, e))
  {
    hide LocksKeep, EarlierAreOver;
    var r, t := RunOf(e), After(s, e);
    assert RunKeeps(s, r) && CurrentKeeps(s, r);
    assert RunKeeps(t, r) && CurrentKeeps(t, r);
    forall q | 0 <= q < r ensures Swept(t, r, q) {
      assert Swept(s, r, q);
    }
    OwnStepKeeps(s, t, r);
  }

  predicate IsPublishing(e: Event) {
    e.WritesPart? || e.Intends? || e.TearsIntent? || e.Moves? || e.HalfMoves? || e.Publishes?
  }

  /** Writing, moving, publishing and ending leave what was swept as it is. */
  predicate IsPlain(e: Event) {
    || IsPublishing(e) || e.Cleans? || e.AppendsNothing? || e.Raises? || e.TakesOwnBack? || e.GivesUp? || e.Dies?
  }

  lemma PublishingIsInOrder(s: State, e: Event)
    requires IsPublishing(e)
    requires RunOf(e) < |s.runs| && RunCanHappen(s, RunOf(e), e) && RunKeeps(s, RunOf(e))
    requires forall file :: file in s.files && file.run == RunOf(e) ==> file in Files(s.runs[RunOf(e)], RunOf(e))
    ensures RunKeeps(RunAfter(s, RunOf(e), e), RunOf(e))
  {
  }

  lemma EndingIsInOrder(s: State, e: Event)
    requires e.Cleans? || e.AppendsNothing? || e.Raises? || e.TakesOwnBack? || e.GivesUp? || e.Dies?
    requires RunOf(e) < |s.runs| && RunCanHappen(s, RunOf(e), e) && RunKeeps(s, RunOf(e))
    ensures RunKeeps(RunAfter(s, RunOf(e), e), RunOf(e))
  {
  }

  lemma PlainIsInOrder(s: State, e: Event)
    requires Invariant(s) && IsPlain(e) && CanHappen(s, e)
    ensures RunOf(e) < |After(s, e).runs| && RunKeeps(After(s, e), RunOf(e))
  {
    hide LocksKeep, EarlierAreOver, Swept, RunKeeps, RunCanHappen, RunAfter, Files, CurrentKeeps;
    var r := RunOf(e);
    PlainTouchesOwn(s, e);
    assert RunKeeps(s, r);
    if IsPublishing(e) {
      PublishingIsInOrder(s, e);
    } else {
      EndingIsInOrder(s, e);
    }
  }

  /** Such a step touches only the run's own staging and parts, and takes up no intent. */
  lemma PlainTouchesOwn(s: State, e: Event)
    requires IsPlain(e) && CanHappen(s, e)
    ensures OnlyOwn(s, After(s, e), RunOf(e)) && |After(s, e).runs| == |s.runs|
    ensures IsPastSweeping(s.runs[RunOf(e)], After(s, e).runs[RunOf(e)])
  {
    hide OnlyOwn, RunAfter, RunCanHappen, IsPastSweeping;
    if IsPublishing(e) {
      PublishingTouchesOwn(s, RunOf(e), e);
    } else if e.Cleans? || e.AppendsNothing? || e.Raises? {
      EndingTouchesOwn(s, RunOf(e), e);
    } else {
      AbortingTouchesOwn(s, RunOf(e), e);
    }
  }

  /** The run takes up no intent, and what it prepared and read of them stays. */
  predicate IsPastSweeping(before: Run, after: Run) {
    && !after.phase.Listing? && !after.phase.TakingBack?
    && after.prepared == before.prepared && after.unread == before.unread
  }

  lemma PublishingTouchesOwn(s: State, r: nat, e: Event)
    requires IsPublishing(e)
    requires r < |s.runs| && RunCanHappen(s, r, e)
    ensures var t := RunAfter(s, r, e);
            |t.runs| == |s.runs| && OnlyOwn(s, t, r) && IsPastSweeping(s.runs[r], t.runs[r])
  {
    hide Files;
  }

  lemma EndingTouchesOwn(s: State, r: nat, e: Event)
    requires e.Cleans? || e.AppendsNothing? || e.Raises?
    requires r < |s.runs| && RunCanHappen(s, r, e)
    ensures var t := RunAfter(s, r, e);
            |t.runs| == |s.runs| && OnlyOwn(s, t, r) && IsPastSweeping(s.runs[r], t.runs[r])
  {
    hide Files;
  }

  lemma AbortingTouchesOwn(s: State, r: nat, e: Event)
    requires e.TakesOwnBack? || e.GivesUp? || e.Dies?
    requires r < |s.runs| && RunCanHappen(s, r, e)
    ensures var t := RunAfter(s, r, e);
            |t.runs| == |s.runs| && OnlyOwn(s, t, r) && IsPastSweeping(s.runs[r], t.runs[r])
  {
    hide Files;
  }

  /** And the parts it leaves in the table are the run's. */
  lemma PlainKeepsFiles(s: State, e: Event)
    requires IsPlain(e) && CanHappen(s, e) && FilesKeep(s)
    ensures forall file :: file in After(s, e).files && file.run == RunOf(e) ==>
              file in Files(After(s, e).runs[RunOf(e)], RunOf(e))
  {
  }

  lemma PlainKeeps(s: State, e: Event)
    requires Invariant(s) && IsPlain(e) && CanHappen(s, e)
    ensures Invariant(After(s, e))
  {
    hide LocksKeep, EarlierAreOver, RunKeeps, FilesKeep, Files, CanHappen, After, OnlyOwn;
    var r, t := RunOf(e), After(s, e);
    PlainIsLive(s, e);
    PlainIsInOrder(s, e);
    PlainTouchesOwn(s, e);
    PlainKeepsFiles(s, e);
    forall q | 0 <= q < r ensures Swept(t, r, q) {
      assert Swept(s, r, q);
      OwnLeavesIntents(s, t, r, q);
    }
    OwnStepKeeps(s, t, r);
  }

  lemma PlainIsLive(s: State, e: Event)
    requires IsPlain(e) && CanHappen(s, e)
    ensures RunOf(e) < |s.runs| && Live(s.runs[RunOf(e)])
  {
  }

  lemma OwnLeavesIntents(s: State, t: State, r: nat, q: nat)
    requires r < |s.runs| && q < r && OnlyOwn(s, t, r)
    ensures |t.runs| == |s.runs| && (Intended(t, q) <==> Intended(s, q))
    ensures SameWork(t.runs[q], t.runs[r]) <==> SameWork(s.runs[q], s.runs[r])
  {
  }

  // ---------- Taking back ----------

  /** What taking back knows of the run it takes back: one that is over, of the same job
      and table, whose intent lists the file. */
  lemma TakenBackIsOver(s: State, r: nat)
    requires Invariant(s) && r < |s.runs| && s.runs[r].phase.TakingBack? && s.runs[r].phase.current.Some?
    ensures var q := s.runs[r].phase.current.value;
            && q < r && SameWork(s.runs[q], s.runs[r]) && Intended(s, q)
            && (s.runs[q].phase.Dead? || s.runs[q].phase.Failed?)
            && s.runs[r].phase.left <= Files(s.runs[q], q)
  {
    hide LocksKeep;
    assert CurrentKeeps(s, r);
    var q := s.runs[r].phase.current.value;
    assert RunKeeps(s, q);
  }

  /** A step taking back run `q`: it touches `q`'s staging and parts, and how far run `r` is. */
  ghost predicate OnlyTakenBack(s: State, t: State, r: nat, q: nat)
    requires q < r < |s.runs|
  {
    && t.invocations == s.invocations && |t.runs| == |s.runs|
    && (forall p :: 0 <= p < |s.runs| && p != r ==> t.runs[p] == s.runs[p])
    && t.runs[r].(phase := s.runs[r].phase) == s.runs[r] && t.runs[r].phase.TakingBack?
    && (forall p :: p != q ==>
          (p in t.staging <==> p in s.staging) && (p in s.staging ==> t.staging[p] == s.staging[p]))
    && (q in t.staging ==> q in s.staging && t.staging[q] == s.staging[q])
    && (forall file: Part :: file.run != q ==> (file in t.files <==> file in s.files))
    && t.files <= s.files
  }

  lemma BystanderKeeps(s: State, t: State, r: nat, q: nat, p: nat)
    requires q < r < |s.runs| && p < |s.runs| && p != r && p != q && OnlyTakenBack(s, t, r, q) && RunKeeps(s, p)
    ensures RunKeeps(t, p)
  {
    assert t.runs[p] == s.runs[p];
    assert Intended(t, p) <==> Intended(s, p);
    assert AllPublished(t, p) <==> AllPublished(s, p) by {
      forall k: nat | k < s.runs[p].written
        ensures Part(s.runs[p].table, p, k) in t.files <==> Part(s.runs[p].table, p, k) in s.files
      {
      }
    }
    assert NonePublished(t, p) <==> NonePublished(s, p) by {
      forall file | file in Files(s.runs[p], p) ensures file in t.files <==> file in s.files {
      }
    }
  }

  lemma BystanderCurrent(s: State, t: State, r: nat, q: nat, p: nat)
    requires Invariant(s) && q < r < |s.runs| && p < |s.runs| && p != r && OnlyTakenBack(s, t, r, q)
    requires Live(s.runs[r]) && s.runs[q].job == s.runs[r].job
    ensures CurrentKeeps(t, p)
  {
    hide LocksKeep, Files, RunKeeps;
    assert CurrentKeeps(s, p);
    var run := s.runs[p];
    assert t.runs[p] == run;
    if run.phase.TakingBack? && run.phase.current.Some? {
      var c := run.phase.current.value;
      if run.job == s.runs[r].job {
        LiveIsLast(s, p, r);
        LiveIsLast(s, r, p);
      } else {
        assert c != q && c != r;
        forall file | file in Files(t.runs[c], c) && file in t.files ensures file in run.phase.left {
          FilesAreOwn(s.runs[c], c, file);
        }
      }
    }
  }

  lemma TakingBackKeeps(s: State, t: State, r: nat, q: nat)
    requires Invariant(s) && q < r < |s.runs| && Live(s.runs[r]) && SameWork(s.runs[q], s.runs[r]) &&
             OnlyTakenBack(s, t, r, q)
    requires |t.runs| == |s.runs| && RunKeeps(t, r) && RunKeeps(t, q) && CurrentKeeps(t, r)
    requires forall p :: 0 <= p < r ==> Swept(t, r, p)
    ensures Invariant(t)
  {
    hide RunKeeps, CurrentKeeps, Files, Swept;
    assert LocksKeep(t) by {
      forall p | 0 <= p < |t.runs| && Live(t.runs[p])
        ensures t.runs[p].invocation in t.invocations && Holds(t.invocations[t.runs[p].invocation], t.runs[p].job) {
        assert Live(s.runs[p]);
      }
    }
    forall a, b | 0 <= a < b < |t.runs| && t.runs[a].job == t.runs[b].job ensures !Live(t.runs[a]) {
      assert s.runs[a].job == s.runs[b].job;
      assert !Live(s.runs[a]);
      assert a != r;
    }
    forall p | 0 <= p < |t.runs| ensures RunKeeps(t, p) && CurrentKeeps(t, p) {
      if p != r {
        BystanderCurrent(s, t, r, q, p);
        if p != q {
          BystanderKeeps(s, t, r, q, p);
        }
      }
    }
    forall a, b | 0 <= a < b < |t.runs| ensures Swept(t, b, a) {
      if b != r {
        BystanderSwept(s, t, r, q, b, a);
      }
    }
    forall file | file in t.files ensures file.run < |t.runs| && file in Files(t.runs[file.run], file.run) {
      assert file in s.files;
      SameFiles(s.runs[file.run], t.runs[file.run], file.run);
    }
  }

  lemma SameFiles(a: Run, b: Run, r: nat)
    requires a.table == b.table && a.written == b.written
    ensures Files(a, r) == Files(b, r)
  {
  }

  lemma BystanderSwept(s: State, t: State, r: nat, q: nat, b: nat, a: nat)
    requires q < r < |s.runs| && a < b < |s.runs| && b != r && OnlyTakenBack(s, t, r, q) && Swept(s, b, a)
    ensures |t.runs| == |s.runs| && Swept(t, b, a)
  {
    assert t.runs[b] == s.runs[b];
    assert SameWork(t.runs[a], t.runs[b]) <==> SameWork(s.runs[a], s.runs[b]);
    assert Intended(t, a) ==> Intended(s, a);
  }

  lemma ChecksKeeps(s: State, e: Event)
    requires Invariant(s) && e.Checks? && CanHappen(s, e)
    ensures Invariant(After(s, e))
  {
    hide LocksKeep, EarlierAreOver;
    var r, t := RunOf(e), After(s, e);
    TakenBackIsOver(s, r);
    var q := s.runs[r].phase.current.value;
    assert RunKeeps(s, r) && CurrentKeeps(s, r) && RunKeeps(s, q);
    assert e.file in Files(s.runs[q], q);
    assert RunKeeps(t, q);
    assert NonePublished(t, r);
    assert RunKeeps(t, r) && CurrentKeeps(t, r);
    forall p | 0 <= p < r ensures Swept(t, r, p) {
      assert Swept(s, r, p);
    }
    TakingBackKeeps(s, t, r, q);
  }

  lemma ClearsKeeps(s: State, e: Event)
    requires Invariant(s) && e.Clears? && CanHappen(s, e)
    ensures Invariant(After(s, e))
  {
    hide LocksKeep, EarlierAreOver;
    var r, t := RunOf(e), After(s, e);
    TakenBackIsOver(s, r);
    var q := s.runs[r].phase.current.value;
    assert RunKeeps(s, r) && CurrentKeeps(s, r) && RunKeeps(s, q);
    assert NonePublished(t, q);
    assert RunKeeps(t, q);
    assert RunKeeps(t, r) && CurrentKeeps(t, r);
    forall p | 0 <= p < r ensures Swept(t, r, p) {
      assert Swept(s, r, p);
    }
    TakingBackKeeps(s, t, r, q);
  }

  // ---------- Steps of the locks ----------

  lemma TakesLockKeeps(s: State, e: Event)
    requires Invariant(s) && (e.TakesRunLock? || e.TakesJobLock?) && CanHappen(s, e)
    ensures Invariant(After(s, e))
  {
    hide RunKeeps, CurrentKeeps, Swept, Files;
    var t := After(s, e);
    forall r | 0 <= r < |t.runs| ensures RunKeeps(t, r) && CurrentKeeps(t, r) {
      assert RunKeeps(s, r) && CurrentKeeps(s, r);
      SameRunKeeps(s, t, r);
    }
    forall q, r | 0 <= q < r < |t.runs| ensures Swept(t, r, q) {
      assert Swept(s, r, q);
      SameSwept(s, t, r, q);
    }
  }

  lemma SameRunKeeps(s: State, t: State, r: nat)
    requires r < |s.runs| && t == s.(invocations := t.invocations) && RunKeeps(s, r) && CurrentKeeps(s, r)
    ensures RunKeeps(t, r) && CurrentKeeps(t, r)
  {
  }

  lemma SameSwept(s: State, t: State, r: nat, q: nat)
    requires q < r < |s.runs| && t == s.(invocations := t.invocations) && Swept(s, r, q)
    ensures Swept(t, r, q)
  {
  }

  lemma BeginsKeeps(s: State, e: Event)
    requires Invariant(s) && e.Begins? && CanHappen(s, e)
    ensures Invariant(After(s, e))
  {
    hide RunKeeps, CurrentKeeps, Swept, Files;
    var t := After(s, e);
    var n := |s.runs|;
    assert forall r :: 0 <= r < n ==> t.runs[r] == s.runs[r];
    forall r | 0 <= r < n && s.runs[r].job == e.job ensures !Live(s.runs[r]) {
      if Live(s.runs[r]) {
        OneHolder(s, s.runs[r].invocation, e.i, e.job);
      }
    }
    forall r | 0 <= r < |t.runs| ensures RunKeeps(t, r) && CurrentKeeps(t, r) {
      if r < n {
        assert RunKeeps(s, r) && CurrentKeeps(s, r);
        GrownRunKeeps(s, t, r);
      } else {
        NewRunKeeps(s, t, r);
      }
    }
    forall q, r | 0 <= q < r < |t.runs| ensures Swept(t, r, q) {
      if r < n {
        assert Swept(s, r, q);
        GrownSwept(s, t, r, q);
      } else {
        NewSwept(s, t, q);
      }
    }
  }

  lemma OneHolder(s: State, i: nat, j: nat, job: Job)
    requires LocksKeep(s) && i in s.invocations && j in s.invocations
    requires Holds(s.invocations[i], job) && Holds(s.invocations[j], job)
    ensures i == j
  {
  }

  lemma GrownRunKeeps(s: State, t: State, r: nat)
    requires r < |s.runs| && t == s.(runs := t.runs) && |s.runs| <= |t.runs| && t.runs[..|s.runs|] == s.runs
    requires RunKeeps(s, r) && CurrentKeeps(s, r)
    ensures RunKeeps(t, r) && CurrentKeeps(t, r)
  {
    assert t.runs[r] == s.runs[r];
  }

  lemma GrownSwept(s: State, t: State, r: nat, q: nat)
    requires q < r < |s.runs| && t == s.(runs := t.runs) && |s.runs| <= |t.runs| && t.runs[..|s.runs|] == s.runs &&
             Swept(s, r, q)
    ensures Swept(t, r, q)
  {
    assert t.runs[r] == s.runs[r] && t.runs[q] == s.runs[q];
  }

  lemma NewRunKeeps(s: State, t: State, r: nat)
    requires FilesKeep(s) && r == |s.runs| && t == s.(runs := t.runs) && |t.runs| == r + 1 && t.runs[r].phase.Listing?
    requires t.runs[r].written == 0 && !t.runs[r].prepared
    ensures RunKeeps(t, r) && CurrentKeeps(t, r)
  {
  }

  lemma NewSwept(s: State, t: State, q: nat)
    requires q < |s.runs| && |t.runs| == |s.runs| + 1 && t.runs[|s.runs|].phase.Listing? && !t.runs[|s.runs|].prepared
    ensures Swept(t, |s.runs|, q)
  {
  }

  lemma EndsKeeps(s: State, e: Event)
    requires Invariant(s) && e.Ends? && CanHappen(s, e)
    ensures Invariant(After(s, e))
  {
    hide RunKeeps, CurrentKeeps, Swept;
    var t := After(s, e);
    forall r | 0 <= r < |t.runs| ensures RunKeeps(t, r) && CurrentKeeps(t, r) {
      assert RunKeeps(s, r) && CurrentKeeps(s, r);
      EndedRunKeeps(s, t, e.i, r);
    }
    forall q, r | 0 <= q < r < |t.runs| ensures Swept(t, r, q) {
      assert Swept(s, r, q);
      EndedSwept(s, t, e.i, r, q);
    }
  }

  lemma EndedRunKeeps(s: State, t: State, i: nat, r: nat)
    requires r < |s.runs| && t == s.(invocations := t.invocations, runs := t.runs) && |t.runs| == |s.runs|
    requires forall q :: 0 <= q < |s.runs| ==> t.runs[q] == EndOf(s.runs[q], i)
    requires RunKeeps(s, r) && CurrentKeeps(s, r)
    ensures RunKeeps(t, r) && CurrentKeeps(t, r)
  {
    assert Files(t.runs[r], r) == Files(s.runs[r], r);
  }

  lemma EndedSwept(s: State, t: State, i: nat, r: nat, q: nat)
    requires q < r < |s.runs| && t == s.(invocations := t.invocations, runs := t.runs) && |t.runs| == |s.runs|
    requires forall p :: 0 <= p < |s.runs| ==> t.runs[p] == EndOf(s.runs[p], i)
    requires Swept(s, r, q)
    ensures Swept(t, r, q)
  {
  }

  // ---------- Every state ----------

  lemma StepKeeps(s: State, e: Event)
    requires Invariant(s) && CanHappen(s, e)
    ensures Invariant(After(s, e))
  {
    hide Invariant, CanHappen, After;
    match e
    case TakesRunLock(_, _) => TakesLockKeeps(s, e);
    case TakesJobLock(_, _) => TakesLockKeeps(s, e);
    case Ends(_) => EndsKeeps(s, e);
    case Begins(_, _, _) => BeginsKeeps(s, e);
    case Lists(_) => ListsKeeps(s, e);
    case Looks(_, _) => LooksKeeps(s, e);
    case CannotRead(_, _) => CannotReadKeeps(s, e);
    case Checks(_, _) => ChecksKeeps(s, e);
    case Clears(_) => ClearsKeeps(s, e);
    case Prepares(_) => PreparesKeeps(s, e);
    case _ => PlainKeeps(s, e);
  }

  /** What else a store's operations may come to: reading an intent may fail, and a move, where it is
      a copy and a deletion, may fail between the two. */
  datatype Store = Store(readsMayFail: bool, movesMayHalve: bool)

  predicate Allows(store: Store, e: Event) {
    (e.CannotRead? ==> store.readsMayFail) && (e.HalfMoves? ==> store.movesMayHalve)
  }

  /** Every state some events lead to, from no runs, no locks held and no staging or parts. */
  ghost predicate Reached(store: Store, s: State, events: seq<Event>)
    decreases |events|
  {
    if events == [] then s == State(map[], [], map[], {})
    else
      var rest, last := events[..|events| - 1], events[|events| - 1];
      exists before :: IsStep(store, before, last, s) && Reached(store, before, rest)
  }

  ghost predicate IsStep(store: Store, before: State, e: Event, after: State) {
    Allows(store, e) && CanHappen(before, e) && after == After(before, e)
  }

  lemma {:induction false} EveryStateKeeps(store: Store, s: State, events: seq<Event>)
    requires Reached(store, s, events)
    ensures Invariant(s)
    decreases |events|
  {
    hide Invariant, CanHappen, After;
    if events == [] {
      NothingYetKeeps();
    } else {
      var before :| IsStep(store, before, events[|events| - 1], s) && Reached(store, before, events[..|events| - 1]);
      EveryStateKeeps(store, before, events[..|events| - 1]);
      StepKeeps(before, events[|events| - 1]);
    }
  }

  lemma NothingYetKeeps()
    ensures Invariant(State(map[], [], map[], {}))
  {
  }

  /** Whatever runs beside whatever, and wherever processes die: once a job's run has prepared,
      each earlier run of that job and table has all of its parts in the table, or none -- of
      those whose intents it could read, as the run that next reads one takes it back, and
      that left no copy behind when they failed. */
  lemma EarlierRunsAreWholeOrGone(store: Store, s: State, events: seq<Event>, q: nat, r: nat)
    requires Reached(store, s, events) && q < r < |s.runs| && SameWork(s.runs[q], s.runs[r]) && s.runs[r].prepared
    requires q !in s.runs[r].unread && !Strayed(s.runs[q].phase)
    ensures AllPublished(s, q) || NonePublished(s, q)
    ensures !Live(s.runs[q]) && !Intended(s, q)
  {
    EveryStateKeeps(store, s, events);
    assert RunKeeps(s, q) && Swept(s, r, q);
  }

  /** A run that finished keeps all its parts in the table, whatever happens after. */
  lemma FinishedRunsStayWhole(store: Store, s: State, events: seq<Event>, r: nat)
    requires Reached(store, s, events) && r < |s.runs| && s.runs[r].phase.Finished?
    ensures AllPublished(s, r)
  {
    EveryStateKeeps(store, s, events);
    assert RunKeeps(s, r);
  }

  /** Taking back deletes only parts of a dead or failed earlier run of the same job and table. */
  lemma TakesBackOnlyItsOwn(store: Store, s: State, events: seq<Event>, r: nat, file: Part)
    requires Reached(store, s, events) && CanHappen(s, Checks(r, file))
    ensures file.run < r && SameWork(s.runs[file.run], s.runs[r]) &&
            (s.runs[file.run].phase.Dead? || s.runs[file.run].phase.Failed?)
    ensures After(s, Checks(r, file)).files == s.files - {file}
  {
    EveryStateKeeps(store, s, events);
    TakenBackIsOver(s, r);
    FilesAreOwn(s.runs[s.runs[r].phase.current.value], s.runs[r].phase.current.value, file);
  }

  /** The locks never let two runs of one job be under way. */
  lemma NeverTwiceAtOnce(store: Store, s: State, events: seq<Event>, q: nat, r: nat)
    requires Reached(store, s, events) && q < |s.runs| && r < |s.runs| && Live(s.runs[q]) && Live(s.runs[r]) &&
             s.runs[q].job == s.runs[r].job
    ensures q == r
  {
    EveryStateKeeps(store, s, events);
    if q != r {
      LiveIsLast(s, q, r);
      LiveIsLast(s, r, q);
    }
  }

  // ---------- Where the promise fails ----------

  lemma OneMore(store: Store, before: State, events: seq<Event>, e: Event, after: State)
    requires Reached(store, before, events) && IsStep(store, before, e, after)
    ensures Reached(store, after, events + [e])
  {
    assert (events + [e])[..|events|] == events;
  }

  lemma NoEvents(store: Store)
    ensures Reached(store, State(map[], [], map[], {}), [])
  {
  }

  /** The only invocation's only run. */
  function Alone(run: Run, staging: map<nat, Intent>, files: set<Part>): State {
    State(map[0 := Invocation(None, {})], [run], staging, files)
  }

  lemma AloneSteps(store: Store, run: Run, staging: map<nat, Intent>, files: set<Part>, events: seq<Event>, e: Event)
    requires Reached(store, Alone(run, staging, files), events) && !IsLockEvent(e) && RunOf(e) == 0
    requires Allows(store, e) && RunCanHappen(Alone(run, staging, files), 0, e)
    ensures var after := RunAfter(Alone(run, staging, files), 0, e);
            after.invocations == map[0 := Invocation(None, {})] && |after.runs| == 1 &&
            after == Alone(after.runs[0], after.staging, after.files) && Reached(store, after, events + [e])
  {
    hide Reached;
    var before := Alone(run, staging, files);
    var after := RunAfter(before, 0, e);
    assert after.runs == [after.runs[0]];
    OneMore(store, before, events, e, after);
  }

  lemma FirstLock(store: Store)
    ensures IsStep(store, State(map[], [], map[], {}), TakesRunLock(0, None),
                   State(map[0 := Invocation(None, {})], [], map[], {}))
  {
  }

  /** The first invocation takes the run lock. */
  lemma FirstTakesLock(store: Store) returns (s: State, events: seq<Event>)
    ensures s == State(map[0 := Invocation(None, {})], [], map[], {}) && Reached(store, s, events)
  {
    hide Reached, CanHappen, After, IsStep;
    s := State(map[0 := Invocation(None, {})], [], map[], {});
    NoEvents(store);
    FirstLock(store);
    OneMore(store, State(map[], [], map[], {}), [], TakesRunLock(0, None), s);
    events := [] + [TakesRunLock(0, None)];
  }

  /** Its run begins. */
  lemma FirstBegins(store: Store, run: Run, staging: map<nat, Intent>) returns (events: seq<Event>)
    requires run == Run("job", "table", 0, 0, false, {}, Listing) && staging == map[]
    ensures Reached(store, Alone(run, staging, {}), events)
  {
    hide Reached;
    var s;
    s, events := FirstTakesLock(store);
    OneMore(store, s, events, Begins(0, "job", "table"), Alone(run, staging, {}));
    events := events + [Begins(0, "job", "table")];
  }

  /** With nothing to take back, it prepares. */
  lemma FirstPrepares(store: Store, run: Run, staging: map<nat, Intent>) returns (events: seq<Event>)
    requires run == Run("job", "table", 0, 0, false, {}, Listing) && staging == map[]
    ensures Reached(store, Alone(run.(phase := Writing, prepared := true), map[0 := NoIntent], {}), events)
  {
    hide Reached;
    events := FirstBegins(store, run, staging);
    AloneSteps(store, run, staging, {}, events, Lists(0));
    events := events + [Lists(0)];
    assert staging.Keys - {0} == {};
    AloneSteps(store, run.(phase := TakingBack({}, None, {})), staging, {}, events, Prepares(0));
    events := events + [Prepares(0)];
    assert staging[0 := NoIntent] == map[0 := NoIntent];
  }

  /** It writes two parts and lists them. */
  lemma TwoParts(store: Store) returns (run: Run, staging: map<nat, Intent>, events: seq<Event>)
    ensures run == Run("job", "table", 0, 2, true, {}, Moving(0))
    ensures staging == map[0 := Whole("job", "table", Files(run, 0))]
    ensures Reached(store, Alone(run, staging, {}), events)
  {
    hide Reached;
    run, staging := Run("job", "table", 0, 0, true, {}, Writing), map[0 := NoIntent];
    events := FirstPrepares(store, run.(phase := Listing, prepared := false), map[]);
    AloneSteps(store, run, staging, {}, events, WritesPart(0));
    events := events + [WritesPart(0)];
    AloneSteps(store, run.(written := 1), staging, {}, events, WritesPart(0));
    events := events + [WritesPart(0)];
    run := run.(written := 2);
    AloneSteps(store, run, staging, {}, events, Intends(0));
    events := events + [Intends(0)];
    assert staging[0 := Whole("job", "table", Files(run, 0))] == map[0 := Whole("job", "table", Files(run, 0))];
    run, staging := run.(phase := Moving(0)), map[0 := Whole("job", "table", Files(run, 0))];
  }

  /** It dies with the first of them moved. */
  lemma HalfDead(store: Store) returns (s: State, events: seq<Event>)
    ensures Reached(store, s, events) && s.invocations == map[0 := Invocation(None, {})]
    ensures s.files == {Part("table", 0, 0)}
    ensures s.staging.Keys == {0} && s.runs == [Run("job", "table", 0, 2, true, {}, Dead)]
  {
    hide Reached;
    var run, staging;
    run, staging, events := TwoParts(store);
    AloneSteps(store, run, staging, {}, events, Moves(0));
    events := events + [Moves(0)];
    assert {} + {Part("table", 0, 0)} == {Part("table", 0, 0)};
    AloneSteps(store, run.(phase := Moving(1)), staging, {Part("table", 0, 0)}, events, Dies(0));
    events := events + [Dies(0)];
    s := Alone(run.(phase := Dead), staging, {Part("table", 0, 0)});
  }

  /** It fails with the first of them copied and not deleted, and removes its staging. */
  lemma HalfFailed(store: Store) returns (s: State, events: seq<Event>)
    requires store.movesMayHalve
    ensures Reached(store, s, events) && s.invocations == map[0 := Invocation(None, {})]
    ensures s.files == {Part("table", 0, 0)}
    ensures s.staging == map[] && s.runs == [Run("job", "table", 0, 2, true, {}, Failed(true))]
  {
    hide Reached;
    var run, staging;
    run, staging, events := TwoParts(store);
    AloneSteps(store, run, staging, {}, events, HalfMoves(0));
    events := events + [HalfMoves(0)];
    assert {} + {Part("table", 0, 0)} == {Part("table", 0, 0)};
    run := run.(phase := Aborting(0, 0, false, true));
    AloneSteps(store, run, staging, {Part("table", 0, 0)}, events, GivesUp(0, true));
    events := events + [GivesUp(0, true)];
    assert staging - {0} == map[];
    s := Alone(run.(phase := Failed(true)), map[], {Part("table", 0, 0)});
  }

  /** Once a job's run is over, its next one begins and lists the staging there is. */
  lemma NextRunLists(store: Store, a: State, start: seq<Event>) returns (s: State, events: seq<Event>)
    requires Reached(store, a, start) && a.invocations == map[0 := Invocation(None, {})]
    requires |a.runs| == 1 && a.runs[0].job == "job" && !Live(a.runs[0]) && 1 !in a.staging
    ensures Reached(store, s, events)
    ensures s == a.(runs := [a.runs[0], Run("job", "table", 0, 0, false, {}, TakingBack(a.staging.Keys, None, {}))])
  {
    hide Reached, Files;
    var b := LockAfter(a, Begins(0, "job", "table"));
    OneMore(store, a, start, Begins(0, "job", "table"), b);
    events := start + [Begins(0, "job", "table")];
    s := RunAfter(b, 1, Lists(1));
    OneMore(store, b, events, Lists(1), s);
    events := events + [Lists(1)];
    assert b.staging.Keys - {1} == a.staging.Keys;
    assert s.runs == [a.runs[0], s.runs[1]];
  }

  /** It fails to read a dead run's intent. */
  lemma PassedOver(store: Store, a: State, start: seq<Event>) returns (s: State, events: seq<Event>)
    requires store.readsMayFail
    requires Reached(store, a, start) && a.invocations == map[0 := Invocation(None, {})] && a.staging.Keys == {0}
    requires |a.runs| == 1 && a.runs[0].job == "job" && a.runs[0].phase.Dead?
    ensures Reached(store, s, events) && |s.runs| == 2 && s.runs[0] == a.runs[0] && s.files == a.files
    ensures s.runs[1].job == "job" && s.runs[1].table == "table" && s.runs[1].prepared && s.runs[1].unread == {0}
  {
    hide Reached, Files;
    var c;
    c, events := NextRunLists(store, a, start);
    var d := RunAfter(c, 1, CannotRead(1, 0));
    OneMore(store, c, events, CannotRead(1, 0), d);
    events := events + [CannotRead(1, 0)];
    assert {0} - {0} == {};
    s := RunAfter(d, 1, Prepares(1));
    OneMore(store, d, events, Prepares(1), s);
    events := events + [Prepares(1)];
  }

  /** It finds no staging of a failed run. */
  lemma NothingToTakeBack(store: Store, a: State, start: seq<Event>) returns (s: State, events: seq<Event>)
    requires Reached(store, a, start) && a.invocations == map[0 := Invocation(None, {})] && a.staging == map[]
    requires |a.runs| == 1 && a.runs[0].job == "job" && a.runs[0].phase.Failed?
    ensures Reached(store, s, events) && |s.runs| == 2 && s.runs[0] == a.runs[0] && s.files == a.files
    ensures s.runs[1].job == "job" && s.runs[1].table == "table" && s.runs[1].prepared && s.runs[1].unread == {}
  {
    hide Reached, Files;
    var c;
    c, events := NextRunLists(store, a, start);
    s := RunAfter(c, 1, Prepares(1));
    OneMore(store, c, events, Prepares(1), s);
    events := events + [Prepares(1)];
  }

  /** An intent that can't be read is passed over, and the run goes on with half of a dead run's parts in its table. */
  lemma UnreadIntentLeavesHalf(store: Store) returns (s: State, events: seq<Event>)
    requires store.readsMayFail
    ensures Reached(store, s, events) && |s.runs| == 2 && SameWork(s.runs[0], s.runs[1]) && s.runs[1].prepared
    ensures s.runs[1].unread == {0} && !AllPublished(s, 0) && !NonePublished(s, 0)
  {
    hide Reached, CanHappen, After;
    s, events := HalfDead(store);
    var run := s.runs[0];
    s, events := PassedOver(store, s, events);
    assert Part("table", 0, 0) in Files(run, 0) && Part("table", 0, 1) in Files(run, 0);
  }

  /** A copy that could not be deleted where it came from outlives the intent that lists it. */
  lemma HalfMoveLeavesHalf(store: Store) returns (s: State, events: seq<Event>)
    requires store.movesMayHalve
    ensures Reached(store, s, events) && |s.runs| == 2 && SameWork(s.runs[0], s.runs[1]) && s.runs[1].prepared
    ensures s.runs[1].unread == {} && !AllPublished(s, 0) && !NonePublished(s, 0)
  {
    hide Reached, CanHappen, After;
    s, events := HalfFailed(store);
    var run := s.runs[0];
    s, events := NothingToTakeBack(store, s, events);
    assert Part("table", 0, 0) in Files(run, 0) && Part("table", 0, 1) in Files(run, 0);
  }

  /** Neither of those steps came of the run. */
  predicate IsInOrder(run: Run) {
    run.unread == {} && !Strayed(run.phase)
  }

  ghost predicate AllInOrder(s: State) {
    forall r :: 0 <= r < |s.runs| ==> IsInOrder(s.runs[r])
  }

  lemma StepLeavesInOrder(s: State, e: Event)
    requires CanHappen(s, e) && Allows(Store(false, false), e) && AllInOrder(s)
    ensures AllInOrder(After(s, e))
  {
    hide LockAfter, RunAfter, LockCanHappen, RunCanHappen, IsInOrder;
    if IsLockEvent(e) {
      LocksLeaveInOrder(s, e);
    } else {
      OneRunChanges(s, RunOf(e), e);
      RunLeavesInOrder(s, RunOf(e), e);
      var r, t := RunOf(e), RunAfter(s, RunOf(e), e);
      assert forall q :: 0 <= q < |s.runs| && q != r ==> t.runs[q] == s.runs[q];
    }
  }

  lemma LocksLeaveInOrder(s: State, e: Event)
    requires AllInOrder(s)
    ensures AllInOrder(LockAfter(s, e))
  {
  }

  lemma RunLeavesInOrder(s: State, r: nat, e: Event)
    requires r < |s.runs| && RunCanHappen(s, r, e) && Allows(Store(false, false), e) && IsInOrder(s.runs[r])
    ensures var t := RunAfter(s, r, e);
            r < |t.runs| && IsInOrder(t.runs[r])
  {
    hide Files, IsOurs;
  }

  lemma {:induction false} AlwaysInOrder(s: State, events: seq<Event>)
    requires Reached(Store(false, false), s, events)
    ensures AllInOrder(s)
    decreases |events|
  {
    hide CanHappen, After, Allows;
    if events != [] {
      var rest, last := events[..|events| - 1], events[|events| - 1];
      var before :| IsStep(Store(false, false), before, last, s) && Reached(Store(false, false), before, rest);
      AlwaysInOrder(before, rest);
      StepLeavesInOrder(before, last);
    }
  }

  /** Each earlier run of a prepared run's job and table is in the table whole or not at all. */
  ghost predicate EarlierAreWholeOrGone(s: State) {
    forall q, r :: 0 <= q < r < |s.runs| && SameWork(s.runs[q], s.runs[r]) && s.runs[r].prepared ==>
      AllPublished(s, q) || NonePublished(s, q)
  }

  /** That of every state there is. */
  ghost predicate AlwaysWholeOrGone(store: Store) {
    forall s: State, events: seq<Event> :: Reached(store, s, events) ==> EarlierAreWholeOrGone(s)
  }

  /** The promise of taking back holds exactly of stores where no read of an intent fails and no move fails halfway. */
  lemma WholeOrGoneExactlyOnFaultlessStores(store: Store)
    ensures AlwaysWholeOrGone(store) <==> !store.readsMayFail && !store.movesMayHalve
  {
    hide Reached, AllPublished, NonePublished, SameWork, Intended;
    if store.readsMayFail {
      var s, events := UnreadIntentLeavesHalf(store);
      assert !EarlierAreWholeOrGone(s);
    } else if store.movesMayHalve {
      var s, events := HalfMoveLeavesHalf(store);
      assert !EarlierAreWholeOrGone(s);
    } else {
      forall s: State, events: seq<Event> | Reached(store, s, events) ensures EarlierAreWholeOrGone(s) {
        AlwaysInOrder(s, events);
        forall q, r | 0 <= q < r < |s.runs| && SameWork(s.runs[q], s.runs[r]) && s.runs[r].prepared
          ensures AllPublished(s, q) || NonePublished(s, q)
        {
          assert IsInOrder(s.runs[q]) && IsInOrder(s.runs[r]);
          EarlierRunsAreWholeOrGone(store, s, events, q, r);
        }
      }
    }
  }

  /** What a reader of a table sees of a job between its runs: the last one finished, each run whose intent it could
      read and that left no copy behind is there whole or not at all; on stores with neither fault, each run. */
  lemma BetweenRunsTablesAreWhole(store: Store, s: State, events: seq<Event>, r: nat)
    requires Reached(store, s, events) && r < |s.runs| && s.runs[r].phase.Finished? && s.runs[r].prepared
    ensures forall q :: 0 <= q <= r && SameWork(s.runs[q], s.runs[r]) ==>
              AllPublished(s, q) || NonePublished(s, q) || q in s.runs[r].unread || Strayed(s.runs[q].phase)
    ensures store == Store(false, false) ==>
              forall q :: 0 <= q <= r && SameWork(s.runs[q], s.runs[r]) ==> AllPublished(s, q) || NonePublished(s, q)
  {
    hide Reached, AllPublished, NonePublished, Intended, SameWork, Strayed;
    forall q | 0 <= q <= r && SameWork(s.runs[q], s.runs[r]) && q !in s.runs[r].unread && !Strayed(s.runs[q].phase)
      ensures AllPublished(s, q) || NonePublished(s, q)
    {
      if q < r {
        EarlierRunsAreWholeOrGone(store, s, events, q, r);
      } else {
        FinishedRunsStayWhole(store, s, events, r);
      }
    }
    if store == Store(false, false) {
      AlwaysInOrder(s, events);
      assert IsInOrder(s.runs[r]);
      assert forall q :: 0 <= q <= r ==> IsInOrder(s.runs[q]);
    }
  }
}
