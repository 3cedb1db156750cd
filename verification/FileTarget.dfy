/**
 One append as bauta/lake/target.py runs it, each of its store operations a step
 of the protocol in Publishing: before any of them other processes may take any
 steps of theirs, and any of them may fail or be the process's last.
 */
module FileTarget {
  import opened Wrappers
  import opened Names
  import opened Publishing

  /** Of a move that copies and deletes, failing may be between the two. */
  datatype Fault = Works | Fails | Halves | Kills

  /** What is left of the faults to come: none more, and none of another kind. */
  predicate Leaves(faults: seq<Fault>, rest: seq<Fault>) {
    (faults == [] ==> rest == []) && (Halves in rest ==> Halves in faults)
  }

  datatype Outcome = Returned | Raised | Died

  /** Whether a step is another process's, and leaves run `r`'s alive. */
  predicate IsOthers(s: State, r: nat, e: Event)
    requires r < |s.runs|
  {
    if e.Ends? then e.i != s.runs[r].invocation else IsLockEvent(e) || RunOf(e) != r
  }

  lemma OthersLeaveOwn(s: State, r: nat, e: Event)
    requires r < |s.runs| && CanHappen(s, e) && IsOthers(s, r, e)
    ensures r < |After(s, e).runs| && After(s, e).runs[r] == s.runs[r]
  {
    hide RunAfter, RunCanHappen;
    if !IsLockEvent(e) {
      OneRunChanges(s, RunOf(e), e);
    }
  }

  /** Whether a step is of another invocation's locks and runs. */
  predicate IsOtherInvocations(i: nat, e: Event) {
    match e
    case TakesRunLock(j, _) => j != i
    case TakesJobLock(j, _) => j != i
    case Ends(j) => j != i
    case Begins(j, _, _) => j != i
    case _ => true
  }

  lemma OthersLeaveInvocation(s: State, i: nat, e: Event)
    requires i in s.invocations && CanHappen(s, e) && IsOtherInvocations(i, e)
    ensures i in After(s, e).invocations && After(s, e).invocations[i] == s.invocations[i]
  {
    if !IsLockEvent(e) {
      RunsLeaveLocks(s, e);
    }
  }

  lemma RunsLeaveLocks(s: State, e: Event)
    requires CanHappen(s, e) && !IsLockEvent(e)
    ensures After(s, e).invocations == s.invocations
  {
    hide Files, IsOurs;
  }

  /** No other invocation runs every job, or holds one of these jobs' locks. */
  predicate AreFree(s: State, jobs: set<Job>) {
    forall j :: j in s.invocations ==> s.invocations[j].jobs.Some? && s.invocations[j].held !! jobs
  }

  ghost predicate HoldNone(invocations: map<nat, Invocation>, jobs: set<Job>) {
    forall j :: j in invocations ==> invocations[j].held !! jobs
  }

  lemma NextName(names: seq<string>, k: nat)
    requires k < |names| && forall i, j :: 0 <= i < j < |names| ==> names[i] != names[j]
    ensures names[k] in names && names[k] !in Members(names[..k])
    ensures Members(names[..k + 1]) == Members(names[..k]) + {names[k]}
  {
    assert names[..k + 1] == names[..k] + [names[k]];
  }

  lemma StillFree(s: State, i: nat, jobs: set<Job>, rest: map<nat, Invocation>, job: Job)
    requires i in s.invocations && s.invocations - {i} == rest && job in jobs && job !in s.invocations[i].held
    requires HoldNone(rest, jobs)
    ensures forall j :: j in s.invocations ==> job !in s.invocations[j].held
  {
    forall j | j in s.invocations ensures job !in s.invocations[j].held {
      if j != i {
        assert j in rest && s.invocations[j] == rest[j];
      }
    }
  }

  /** A run may take the steps it could before others took theirs, and may die. */
  lemma MayAct(before: State, s: State, r: nat, e: Event)
    requires r < |before.runs| && r < |s.runs| && s.runs[r] == before.runs[r]
    requires Live(s.runs[r]) && RunCanHappen(before, r, e)
    ensures RunCanHappen(s, r, e) && |RunAfter(s, r, e).runs| == |s.runs|
    ensures RunCanHappen(s, r, Dies(r))
    ensures RunAfter(s, r, Dies(r)).runs == s.runs[r := s.runs[r].(phase := Dead)]
  {
    hide RunAfter;
    assert RunCanHappen(s, r, e);
    OneRunChanges(s, r, e);
    DeathIsPhase(s, r);
  }

  lemma DeathIsPhase(s: State, r: nat)
    requires r < |s.runs| && Live(s.runs[r])
    ensures RunCanHappen(s, r, Dies(r))
    ensures RunAfter(s, r, Dies(r)).runs == s.runs[r := s.runs[r].(phase := Dead)]
  {
  }

  /** The files, the locks and every other process. */
  class Lake {
    var s: State
    // What the others do before each operation, and what becomes of the operation; none listed does nothing, and works.
    var others: seq<seq<Event>>
    var faults: seq<Fault>

    constructor (s: State, others: seq<seq<Event>>, faults: seq<Fault>)
      ensures this.s == s && this.others == others && this.faults == faults
    {
      this.s, this.others, this.faults := s, others, faults;
    }

    method Next(r: nat) returns (fault: Fault)
      requires Invariant(s) && r < |s.runs|
      modifies this
      ensures Invariant(s) && r < |s.runs| && s.runs[r] == old(s).runs[r]
      ensures Leaves(old(faults), faults)
      ensures if old(faults) == [] then fault.Works? else fault in old(faults)
    {
      hide Invariant, CanHappen, After, IsOthers;
      var steps := if others == [] then [] else others[0];
      others := if others == [] then [] else others[1..];
      for k := 0 to |steps|
        invariant Invariant(s) && r < |s.runs| && s.runs[r] == old(s).runs[r] && faults == old(faults)
      {
        if CanHappen(s, steps[k]) && IsOthers(s, r, steps[k]) {
          StepKeeps(s, steps[k]);
          OthersLeaveOwn(s, r, steps[k]);
          s := After(s, steps[k]);
        }
      }
      fault := if faults == [] then Works else faults[0];
      faults := if faults == [] then [] else faults[1..];
    }

    /** What other invocations do while this one goes on. */
    method Wait(i: nat)
      requires Invariant(s) && i in s.invocations
      modifies this
      ensures Invariant(s) && i in s.invocations && s.invocations[i] == old(s).invocations[i]
      ensures old(others) == [] ==> others == [] && s == old(s)
    {
      hide Invariant, CanHappen, After, IsOtherInvocations;
      var steps := if others == [] then [] else others[0];
      others := if others == [] then [] else others[1..];
      for k := 0 to |steps|
        invariant Invariant(s) && i in s.invocations && s.invocations[i] == old(s).invocations[i]
        invariant old(others) == [] ==> others == [] && s == old(s)
      {
        if CanHappen(s, steps[k]) && IsOtherInvocations(i, steps[k]) {
          StepKeeps(s, steps[k]);
          OthersLeaveInvocation(s, i, steps[k]);
          s := After(s, steps[k]);
        }
      }
    }

    /** exclusiveRun: the run lock, exclusive or shared, then each job's own, in order; none is kept unless all are
        had. */
    method ExclusiveRun(i: nat, jobs: Option<set<Job>>) returns (entered: bool)
      requires Invariant(s) && i !in s.invocations
      modifies this
      ensures Invariant(s) && (entered <==> i in s.invocations)
      // A run of every job is let in exactly where no other run goes on; one of some, where no lock of theirs is held.
      ensures jobs.None? ==> (entered <==> old(s).invocations == map[])
      ensures jobs.Some? && old(others) == [] && AreFree(old(s), jobs.value) ==> entered
      ensures entered ==> s.invocations[i].jobs == jobs && forall job :: jobs.None? || job in jobs.value ==>
                MayRun(s.invocations[i], job)
    {
      hide Invariant, AtMost;
      if !LockCanHappen(s, TakesRunLock(i, jobs)) {
        return false;
      }
      StepKeeps(s, TakesRunLock(i, jobs));
      s := LockAfter(s, TakesRunLock(i, jobs));
      if jobs.None? {
        return true;
      }
      entered := TakeJobLocks(i, jobs.value, s.invocations - {i});
      if !entered {
        StepKeeps(s, Event.Ends(i));
        s := LockAfter(s, Event.Ends(i));
      }
    }

    /** Each job's own lock, in order, until one can't be had. */
    method TakeJobLocks(i: nat, jobs: set<Job>, ghost rest: map<nat, Invocation>) returns (taken: bool)
      requires Invariant(s) && i in s.invocations && s.invocations[i] == Invocation(Some(jobs), {})
      requires s.invocations - {i} == rest
      modifies this
      ensures Invariant(s) && i in s.invocations
      ensures taken ==> s.invocations[i] == Invocation(Some(jobs), jobs)
      ensures old(others) == [] && HoldNone(rest, jobs) ==> taken
    {
      hide Invariant, AtMost, HoldNone, Sorted;
      var names := Sorted(jobs);
      var k := 0;
      assert Members(names[..0]) == {};
      while k < |names|
        invariant 0 <= k <= |names|
        invariant Invariant(s) && i in s.invocations
        invariant s.invocations[i] == Invocation(Some(jobs), Members(names[..k]))
        invariant old(others) == [] ==> others == [] && s.invocations - {i} == rest
      {
        NextName(names, k);
        taken := TakeJobLock(i, jobs, names[k], Members(names[..k]), rest);
        if !taken {
          return;
        }
        k := k + 1;
      }
      assert names[..|names|] == names;
      assert Members(names) == jobs;
      return true;
    }

    /** One job's lock, after whatever other invocations do meanwhile. */
    method TakeJobLock(i: nat, jobs: set<Job>, job: Job, ghost held: set<Job>, ghost rest: map<nat, Invocation>)
      returns (taken: bool)
      requires Invariant(s) && i in s.invocations && s.invocations[i] == Invocation(Some(jobs), held)
      requires job in jobs && job !in held
      modifies this
      ensures Invariant(s) && i in s.invocations
      ensures taken ==> s.invocations[i] == Invocation(Some(jobs), held + {job})
      ensures old(others) == [] ==> others == [] && s.invocations - {i} == old(s.invocations) - {i}
      ensures old(others) == [] && old(s.invocations) - {i} == rest && HoldNone(rest, jobs) ==> taken
    {
      hide Invariant, HoldNone;
      Wait(i);
      if old(others) == [] && old(s.invocations) - {i} == rest && HoldNone(rest, jobs) {
        StillFree(s, i, jobs, rest, job);
      }
      if !LockCanHappen(s, TakesJobLock(i, job)) {
        return false;
      }
      StepKeeps(s, TakesJobLock(i, job));
      s := LockAfter(s, TakesJobLock(i, job));
      return true;
    }

    /** One step of the run, with nothing in between. */
    method Take(r: nat, e: Event)
      requires Invariant(s) && r < |s.runs| && !IsLockEvent(e) && RunOf(e) == r && RunCanHappen(s, r, e)
      modifies this`s
      ensures Invariant(s) && s == RunAfter(old(s), r, e)
    {
      hide Invariant;
      StepKeeps(s, e);
      s := RunAfter(s, r, e);
    }

    /** One store operation: the step it is, a failure that changes nothing, or the process's end. */
    method Act(r: nat, e: Event) returns (outcome: Outcome)
      requires Invariant(s) && r < |s.runs| && Live(s.runs[r])
      requires !IsLockEvent(e) && RunOf(e) == r && RunCanHappen(s, r, e)
      modifies this
      ensures Invariant(s) && r < |s.runs|
      ensures outcome.Returned? ==> exists before: State :: r < |before.runs| && before.runs[r] == old(s).runs[r] &&
                                                            RunCanHappen(before, r, e) && s == RunAfter(before, r, e)
      ensures outcome.Raised? ==> s.runs[r] == old(s).runs[r]
      ensures outcome.Died? ==> s.runs[r] == old(s).runs[r].(phase := Dead)
      ensures Leaves(old(faults), faults) && (old(faults) == [] ==> outcome.Returned?)
    {
      hide Invariant, RunAfter, RunCanHappen;
      var fault := Next(r);
      MayAct(old(s), s, r, e);
      match fault {
        case Works =>
          ghost var before := s;
          Take(r, e);
          return Returned;
        case Fails => return Raised;
        case Halves => return Raised;
        case Kills =>
          Take(r, Dies(r));
          return Died;
      }
    }
  }

  /** The run's parts, and whether it has prepared, stay as they are. */
  predicate IsSameLoad(before: State, after: State, r: nat)
    requires r < |before.runs|
  {
    && r < |after.runs| && after.runs[r].written == before.runs[r].written
    && after.runs[r].prepared == before.runs[r].prepared
  }

  /** How far a run is where an exception came: where one came halfway through a move, already aborting. */
  predicate IsStopped(phase: Phase) {
    || phase.Listing? || phase.TakingBack? || phase.Writing? || phase.Moving?
    || (phase.Aborting? && phase.next == 0 && phase.strayed)
  }

  /** Without such a move, no copy is left behind. */
  predicate MayStray(phase: Phase, faults: seq<Fault>) {
    Strayed(phase) ==> Halves in faults
  }

  /** An exception aborts a run that nothing is published of, or that is among its moves. */
  lemma MayRaise(s: State, r: nat)
    requires Invariant(s) && r < |s.runs|
    requires var phase := s.runs[r].phase; phase.Listing? || phase.TakingBack? || phase.Writing? || phase.Moving?
    ensures RunCanHappen(s, r, Raises(r)) && 0 <= RunAfter(s, r, Raises(r)).runs[r].phase.moved
  {
  }

  /** An earlier run of the same job and table, whose intent this one could read and that left no copy behind. */
  predicate IsSwept(s: State, r: nat, q: nat)
    requires q < r < |s.runs|
  {
    SameWork(s.runs[q], s.runs[r]) && q !in s.runs[r].unread && !Strayed(s.runs[q].phase)
  }

  class FileTarget {
    const lake: Lake
    const runId: nat

    constructor (lake: Lake, runId: nat)
      ensures this.lake == lake && this.runId == runId
    {
      this.lake, this.runId := lake, runId;
    }

    ghost predicate Valid()
      reads lake
    {
      Invariant(lake.s) && runId < |lake.s.runs|
    }

    function Phase(): Phase
      requires runId < |lake.s.runs|
      reads lake
    {
      lake.s.runs[runId].phase
    }

    /** Whether the run's part `k` is in its table. */
    predicate IsThere(k: nat)
      requires runId < |lake.s.runs|
      reads lake
    {
      Part(lake.s.runs[runId].table, runId, k) in lake.s.files
    }

    /** _takeBackInterruptedAppends. */
    method TakeBackInterruptedAppends() returns (outcome: Outcome)
      requires Valid() && Phase().Listing?
      modifies lake
      ensures Valid()
      ensures Leaves(old(lake.faults), lake.faults) && (old(lake.faults) == [] ==> outcome.Returned?)
      ensures match outcome
              case Returned => Phase() == TakingBack({}, None, {})
              case Raised => Phase().Listing? || Phase().TakingBack?
              case Died => Phase().Dead?
    {
      hide Invariant;
      outcome := lake.Act(runId, Lists(runId));
      if !outcome.Returned? {
        return;
      }
      while Phase().remaining != {}
        invariant Leaves(old(lake.faults), lake.faults)
        invariant outcome.Returned? && Valid() && Phase().TakingBack? && Phase().current.None? && Phase().left == {}
        decreases Phase().remaining
      {
        var q :| q in Phase().remaining;
        outcome := LookAt(q);
        if !outcome.Returned? {
          return;
        }
      }
    }

    /** One staging directory: left alone, passed over, or taken back. */
    method LookAt(q: nat) returns (outcome: Outcome)
      requires Valid() && Phase().TakingBack? && Phase().current.None? && Phase().left == {} && q in Phase().remaining
      modifies lake
      ensures Valid()
      ensures Leaves(old(lake.faults), lake.faults) && (old(lake.faults) == [] ==> outcome.Returned?)
      ensures match outcome
              case Returned => Phase() == TakingBack(old(Phase()).remaining - {q}, None, {})
              case Raised => Phase().TakingBack?
              case Died => Phase().Dead?
    {
      hide Invariant, IsOurs, RunAfter, RunCanHappen;
      outcome := ReadIntent(q);
      if outcome.Returned? && Phase().current.Some? {
        outcome := TakeBack(q);
      }
    }

    /** Whether the directory has an intent is asked first, and its failure is the run's; one that can't be read is
        passed over. */
    method ReadIntent(q: nat) returns (outcome: Outcome)
      requires Valid() && Phase().TakingBack? && Phase().current.None? && Phase().left == {} && q in Phase().remaining
      modifies lake
      ensures Valid()
      ensures Leaves(old(lake.faults), lake.faults) && (old(lake.faults) == [] ==> outcome.Returned?)
      ensures match outcome
              case Returned => Phase() == TakingBack(old(Phase()).remaining - {q}, None, {}) ||
                               (Phase().TakingBack? && Phase().current == Some(q) &&
                                Phase().remaining == old(Phase()).remaining)
              case Raised => Phase().TakingBack?
              case Died => Phase().Dead?
    {
      hide Invariant, IsOurs;
      var asked := lake.Next(runId);
      if asked.Kills? {
        lake.Take(runId, Dies(runId));
        return Died;
      }
      if !asked.Works? {
        return Raised;
      }
      outcome := lake.Act(runId, Looks(runId, q));
      if outcome.Raised? {
        lake.Take(runId, CannotRead(runId, q));
        return Returned;
      }
    }

    /** Removes what an intent lists from the table, and then its staging directory. */
    method TakeBack(q: nat) returns (outcome: Outcome)
      requires Valid() && Phase().TakingBack? && Phase().current == Some(q)
      modifies lake
      ensures Valid()
      ensures Leaves(old(lake.faults), lake.faults) && (old(lake.faults) == [] ==> outcome.Returned?)
      ensures match outcome
              case Returned => Phase() == TakingBack(old(Phase()).remaining - {q}, None, {})
              case Raised => Phase().TakingBack?
              case Died => Phase().Dead?
    {
      hide Invariant, IsOurs;
      while Phase().left != {}
        invariant Leaves(old(lake.faults), lake.faults)
        invariant Valid() && Phase().TakingBack? && Phase().current == Some(q) &&
                  Phase().remaining == old(Phase()).remaining
        decreases Phase().left
      {
        var file :| file in Phase().left;
        outcome := lake.Act(runId, Checks(runId, file));
        if !outcome.Returned? {
          return;
        }
      }
      outcome := lake.Act(runId, Clears(runId));
    }

    method WriteIntent() returns (outcome: Outcome)
      requires Valid() && Phase().Writing? && lake.s.runs[runId].written > 0
      modifies lake
      ensures Valid() && IsSameLoad(old(lake.s), lake.s, runId)
      ensures Leaves(old(lake.faults), lake.faults) && (old(lake.faults) == [] ==> outcome.Returned?)
      ensures match outcome
              case Returned => Phase() == Moving(0)
              case Raised => Phase().Writing?
              case Died => Phase().Dead?
    {
      hide Invariant;
      outcome := lake.Act(runId, Intends(runId));
    }

    method MovePart() returns (outcome: Outcome)
      requires Valid() && Phase().Moving? && Phase().next < lake.s.runs[runId].written
      modifies lake
      ensures Valid() && IsSameLoad(old(lake.s), lake.s, runId)
      ensures Leaves(old(lake.faults), lake.faults) && (old(lake.faults) == [] ==> outcome.Returned?)
      ensures match outcome
              case Returned => Phase() == Moving(old(Phase()).next + 1) && IsThere(old(Phase()).next)
              case Raised =>
                || Phase() == old(Phase())
                || (Phase() == Aborting(0, old(Phase()).next, false, true) && IsThere(old(Phase()).next) &&
                    Halves in old(lake.faults))
              case Died => Phase().Dead?
    {
      hide Invariant;
      var fault := lake.Next(runId);
      match fault {
        case Works =>
          lake.Take(runId, Moves(runId));
          return Returned;
        case Fails => return Raised;
        case Halves =>
          lake.Take(runId, HalfMoves(runId));
          return Raised;
        case Kills =>
          lake.Take(runId, Dies(runId));
          return Died;
      }
    }

    method RemoveIntent() returns (outcome: Outcome)
      requires Valid() && Phase() == Moving(lake.s.runs[runId].written)
      modifies lake
      ensures Valid() && IsSameLoad(old(lake.s), lake.s, runId)
      ensures Leaves(old(lake.faults), lake.faults) && (old(lake.faults) == [] ==> outcome.Returned?)
      ensures match outcome
              case Returned => Phase().Published?
              case Raised => Phase().Moving?
              case Died => Phase().Dead?
    {
      hide Invariant;
      outcome := lake.Act(runId, Publishes(runId));
    }

    /** _publishInto, for an append. */
    method PublishInto() returns (outcome: Outcome)
      requires Valid() && Phase().Writing? && lake.s.runs[runId].written > 0
      modifies lake
      ensures Valid() && IsSameLoad(old(lake.s), lake.s, runId)
      ensures Leaves(old(lake.faults), lake.faults) && (old(lake.faults) == [] ==> outcome.Returned?)
      ensures match outcome
              case Returned => Phase().Published?
              case Raised => IsStopped(Phase()) && MayStray(Phase(), old(lake.faults))
              case Died => Phase().Dead?
    {
      hide Invariant;
      ghost var written := lake.s.runs[runId].written;
      outcome := WriteIntent();
      if !outcome.Returned? {
        return;
      }
      while Phase().next < lake.s.runs[runId].written
        invariant Leaves(old(lake.faults), lake.faults)
        invariant Valid() && IsSameLoad(old(lake.s), lake.s, runId)
        invariant Phase().Moving? && Phase().next <= lake.s.runs[runId].written == written
        decreases written - Phase().next
      {
        outcome := MovePart();
        if !outcome.Returned? {
          return;
        }
      }
      outcome := RemoveIntent();
    }

    /** One part the run had published is taken back, or, where it can't be, left listed. */
    method TakeOwnBack() returns (outcome: Outcome)
      requires Valid() && Phase().Aborting? && Phase().next < Phase().moved
      modifies lake
      ensures Valid() && outcome in {Returned, Died}
      ensures outcome.Died? ==> Phase().Dead?
      ensures outcome.Returned? ==> Phase().Aborting? && Phase().next == old(Phase()).next + 1
      ensures outcome.Returned? ==> Phase().moved == old(Phase()).moved && Phase().strayed == old(Phase()).strayed
      ensures Leaves(old(lake.faults), lake.faults) && (old(lake.faults) == [] ==> outcome.Returned?)
    {
      hide Invariant;
      outcome := lake.Act(runId, TakesOwnBack(runId, true));
      if outcome.Raised? {
        lake.Take(runId, TakesOwnBack(runId, false));
        outcome := Returned;
      }
    }

    /** The staging goes, unless a part is left listed in it; one that can't be removed is a warning. */
    method GiveUp() returns (outcome: Outcome)
      requires Valid() && Phase().Aborting? && Phase().next == Phase().moved
      modifies lake
      ensures Valid() && outcome in {Returned, Died}
      ensures if outcome.Died? then Phase().Dead? else Phase().Failed?
      ensures Strayed(Phase()) ==> Strayed(old(Phase()))
      ensures Leaves(old(lake.faults), lake.faults) && (old(lake.faults) == [] ==> outcome.Returned?)
    {
      hide Invariant;
      outcome := lake.Act(runId, GivesUp(runId, true));
      if outcome.Raised? {
        lake.Take(runId, GivesUp(runId, false));
        outcome := Returned;
      }
    }

    /** abort: what the run had published is taken back, and what can't be is left listed with its staging. */
    method Abort() returns (outcome: Outcome)
      requires Valid() && IsStopped(Phase())
      modifies lake
      ensures Valid()
      ensures Leaves(old(lake.faults), lake.faults) && (old(lake.faults) == [] ==> outcome.Raised?)
      ensures if outcome.Died? then Phase().Dead? else outcome.Raised? && Phase().Failed?
      ensures Strayed(Phase()) ==> Strayed(old(Phase()))
    {
      hide Invariant;
      if !Phase().Aborting? {
        MayRaise(lake.s, runId);
        lake.Take(runId, Raises(runId));
      }
      assert Phase().Aborting? && Phase().next == 0;
      outcome := Returned;
      while outcome.Returned? && Phase().next < Phase().moved
        invariant Leaves(old(lake.faults), lake.faults) && (old(lake.faults) == [] ==> outcome.Returned?)
        invariant Valid() && outcome in {Returned, Died}
        invariant if outcome.Died? then Phase().Dead? else Phase().Aborting? && Phase().next <= Phase().moved
        invariant Strayed(Phase()) ==> Strayed(old(Phase()))
        decreases outcome.Returned?, if outcome.Returned? then Phase().moved - Phase().next else 0
      {
        outcome := TakeOwnBack();
      }
      if outcome.Returned? {
        outcome := GiveUp();
        if outcome.Returned? {
          outcome := Raised;
        }
      }
    }

    /** finish, for an append. */
    method Finish() returns (outcome: Outcome)
      requires Valid() && Phase().Writing?
      modifies lake
      ensures Valid() && IsSameLoad(old(lake.s), lake.s, runId)
      ensures Leaves(old(lake.faults), lake.faults) && (old(lake.faults) == [] ==> outcome.Returned?)
      ensures match outcome
              case Returned => Phase().Finished?
              case Raised => IsStopped(Phase()) && MayStray(Phase(), old(lake.faults))
              case Died => Phase().Dead?
    {
      hide Invariant;
      if lake.s.runs[runId].written == 0 {
        outcome := lake.Act(runId, AppendsNothing(runId));
        return;
      }
      outcome := PublishInto();
      if outcome.Returned? {
        outcome := lake.Act(runId, Cleans(runId, true));
        if outcome.Raised? {
          // Staging that can't be removed is a warning.
          lake.Take(runId, Cleans(runId, false));
          outcome := Returned;
        }
      }
    }

    /** _prepare, as many parts as the rows fill, and finish. */
    method Load(parts: nat) returns (outcome: Outcome)
      requires Valid() && Phase().Listing?
      modifies lake
      ensures Valid()
      ensures Leaves(old(lake.faults), lake.faults) && (old(lake.faults) == [] ==> outcome.Returned?)
      ensures match outcome
              case Returned => Phase().Finished?
              case Raised => IsStopped(Phase()) && MayStray(Phase(), old(lake.faults))
              case Died => Phase().Dead?
      ensures outcome.Returned? ==> lake.s.runs[runId].prepared
    {
      hide Invariant;
      outcome := TakeBackInterruptedAppends();
      if !outcome.Returned? {
        return;
      }
      outcome := lake.Act(runId, Prepares(runId));
      if !outcome.Returned? {
        return;
      }
      for part := 0 to parts
        invariant Leaves(old(lake.faults), lake.faults)
        invariant Valid() && Phase().Writing? && lake.s.runs[runId].prepared
      {
        outcome := lake.Act(runId, WritesPart(runId));
        if !outcome.Returned? {
          return;
        }
      }
      outcome := Finish();
    }

    /** An append from its start: whatever other processes do meanwhile, it leaves its table as the protocol
        promises. */
    method Append(parts: nat) returns (outcome: Outcome)
      requires Valid() && Phase().Listing?
      modifies lake
      ensures Valid()
      ensures Leaves(old(lake.faults), lake.faults) && (old(lake.faults) == [] ==> outcome.Returned?)
      ensures match outcome
              case Returned => Phase().Finished? && AllPublished(lake.s, runId)
              case Raised => Phase().Failed? && (NonePublished(lake.s, runId) || Intended(lake.s, runId) ||
                                                 Strayed(Phase()))
              case Died => Phase().Dead? && (AllPublished(lake.s, runId) || NonePublished(lake.s, runId) ||
                                             Intended(lake.s, runId))
      // A part is left that no intent lists only where a move failed halfway.
      ensures MayStray(Phase(), old(lake.faults))
      ensures outcome.Returned? ==> lake.s.runs[runId].prepared
      ensures lake.s.runs[runId].prepared ==> forall q :: 0 <= q < runId && IsSwept(lake.s, runId, q) ==>
                AllPublished(lake.s, q) || NonePublished(lake.s, q)
    {
      hide Invariant, AllPublished, NonePublished, SameWork, Intended;
      outcome := Load(parts);
      if outcome.Raised? {
        outcome := Abort();
      }
      EndedLeaves(lake.s, runId);
    }
  }

  lemma EndedLeaves(s: State, r: nat)
    requires Invariant(s) && r < |s.runs|
    ensures s.runs[r].phase.Finished? ==> AllPublished(s, r)
    ensures s.runs[r].phase.Failed? ==> NonePublished(s, r) || Intended(s, r) || Strayed(s.runs[r].phase)
    ensures s.runs[r].phase.Dead? ==> AllPublished(s, r) || NonePublished(s, r) || Intended(s, r)
    ensures s.runs[r].prepared ==> forall q :: 0 <= q < r && IsSwept(s, r, q) ==>
              AllPublished(s, q) || NonePublished(s, q)
  {
    hide LocksKeep, AllPublished, NonePublished;
    assert RunKeeps(s, r);
    if s.runs[r].prepared {
      forall q | 0 <= q < r && IsSwept(s, r, q)
        ensures AllPublished(s, q) || NonePublished(s, q)
      {
        assert RunKeeps(s, q) && Swept(s, r, q);
        assert !Live(s.runs[q]);
      }
    }
  }
}
