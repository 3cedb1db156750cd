/**
 A cycle's job bookkeeping and the loop that drives it: DependencyGraph in
 bauta/jobs/dependencyGraph.py, and _coreBudget and _runCycle in
 bauta/jobs/runner.py. When a job ends is the environment's choice.
 */
module DependencyGraph {
  import opened Wrappers
  import opened Names
  import opened Cycles
  import opened Scheduling

  class DependencyGraph {
    const schedule: Schedule
    var notStarted: seq<string>
    var running: set<string>
    var reserved: map<string, int>
    var completed: set<string>
    var unsuccessful: set<string>
    var outcomes: seq<Outcome>
    ghost var stopped: bool

    ghost function Now(): State
      reads this
    {
      State(notStarted, running, reserved, completed, unsuccessful, outcomes, stopped)
    }

    ghost predicate Valid()
      reads this
    {
      Consistent(schedule, Now())
    }

    constructor (schedule: Schedule)
      requires ValidSchedule(schedule)
      ensures Valid() && this.schedule == schedule && Now() == Initial(schedule)
    {
      this.schedule := schedule;
      notStarted, running, reserved := schedule.order, {}, map[];
      completed, unsuccessful, outcomes, stopped := {}, {}, [], false;
      InitialIsConsistent(schedule);
    }

    /** The source's constructor: it refuses the active predecessors' cycles, naming one. */
    static method Create(schedule: Schedule) returns (result: Result<DependencyGraph, seq<string>>)
      requires ConfiguredSchedule(schedule)
      ensures result.Err? <==> !Acyclic(schedule.predecessors)
      ensures result.Err? ==> IsCycle(schedule.predecessors, result.error)
      ensures result.Ok? ==> fresh(result.value) && result.value.Valid() && result.value.schedule == schedule
      ensures result.Ok? ==> result.value.Now() == Initial(schedule)
    {
      hide ConfiguredSchedule, Acyclic, IsCycle, Consistent;
      var cycle := FindCycle(schedule.predecessors);
      if cycle.Some? {
        return Err(cycle.value);
      }
      var graph := new DependencyGraph(schedule);
      return Ok(graph);
    }

    predicate IsFinished()
      reads this
    {
      notStarted == [] && running == {}
    }

    method Finish(outcome: Outcome)
      requires Valid() && outcome.job in running && !outcome.status.Skipped?
      modifies this
      ensures Valid() && Now() == Decided(old(Now()), outcome)
    {
      hide Consistent;
      FinishKeeps(schedule, Now(), outcome);
      Decide(outcome);
    }

    /** finish()'s own steps, which _skip shares. */
    method Decide(outcome: Outcome)
      modifies this
      ensures Now() == Decided(old(Now()), outcome)
    {
      running := running - {outcome.job};
      outcomes := outcomes + [outcome];
      if outcome.status.Completed? {
        completed := completed + {outcome.job};
      } else {
        unsuccessful := unsuccessful + {outcome.job};
      }
    }

    method SkipJob(job: string)
      requires Valid() && job in notStarted && job in schedule.predecessors
      requires stopped || PredecessorUnsuccessful(schedule, unsuccessful, job)
      modifies this
      ensures Valid() && Now() == SkippedJob(old(Now()), job)
    {
      hide Consistent;
      SkipKeeps(schedule, Now(), job);
      notStarted := Without(notStarted, job);
      Decide(Outcome(job, Skipped));
    }

    method SkipNotStarted()
      requires Valid()
      modifies this
      ensures Valid() && stopped && notStarted == []
      ensures running == old(running) && completed == old(completed) && reserved == old(reserved)
    {
      hide Consistent;
      StopKeeps(schedule, Now());
      stopped := true;
      while notStarted != []
        invariant Valid() && stopped
        invariant running == old(running) && completed == old(completed) && reserved == old(reserved)
        decreases |notStarted|
      {
        NotStartedIsActive(schedule, Now(), notStarted[0]);
        SkipJob(notStarted[0]);
        assert running == old(running);
      }
    }

    /** The inner loop's body: one job skipped, started or left. */
    method TakeOne(limit: Option<int>, soFar: seq<string>, job: string, ghost before: State)
      returns (skipped: bool, ready: seq<string>)
      requires Valid() && Taken(before, Now(), soFar, limit) && job in notStarted
      requires job in schedule.predecessors && job in schedule.jobs
      modifies this
      ensures Valid() && Taken(before, Now(), ready, limit)
      ensures if skipped then Now() == SkippedJob(old(Now()), job)
              else if ready != soFar then Now() == Started(old(Now()), job) && |ready| == |soFar| + 1
              else Now() == old(Now()) && IsAllLeft(schedule, Now(), [job], Reached(limit, |ready|))
    {
      hide Consistent, Taken, MayStart, PredecessorUnsuccessful, IsAllLeft, ConnectionsFree;
      skipped, ready := false, soFar;
      UnsuccessfulMeans(schedule, unsuccessful, job);
      MayStartMeans(schedule, Now(), job);
      if exists p :: p in schedule.predecessors[job] && p in unsuccessful {
        TakenSkips(before, Now(), ready, limit, job);
        SkipJob(job);
        skipped := true;
      } else if !Reached(limit, |ready|) && (forall p :: p in schedule.predecessors[job] ==> p in completed)
                && ConnectionsFree(schedule, running, reserved, job) {
        StartKeeps(schedule, Now(), job);
        TakenStarts(before, Now(), ready, limit, job);
        notStarted := Without(notStarted, job);
        running := running + {job};
        ready := ready + [job];
      } else {
        JobIsLeft(schedule, Now(), Reached(limit, |ready|), job);
      }
    }

    /** One pass of takeReady's inner loop over the jobs not started as it begins. */
    method TakePass(limit: Option<int>, soFar: seq<string>, ghost before: State)
      returns (changed: bool, ready: seq<string>)
      requires Valid() && Taken(before, Now(), soFar, limit)
      modifies this
      ensures Valid() && Taken(before, Now(), ready, limit)
      ensures |notStarted| <= |old(notStarted)|
      ensures if changed then |notStarted| < |old(notStarted)|
              else IsAllLeft(schedule, Now(), notStarted, Reached(limit, |ready|))
    {
      hide Consistent, Taken, Left, Started, SkippedJob, IsAllLeft;
      changed, ready := false, soFar;
      var jobs := notStarted;
      AllActive(schedule, Now());
      NoneLeft(schedule, Now(), Reached(limit, |ready|));
      var k := 0;
      while k < |jobs|
        invariant 0 <= k <= |jobs|
        invariant Valid() && Taken(before, Now(), ready, limit)
        invariant forall i :: k <= i < |jobs| ==> jobs[i] in notStarted
        invariant forall job :: job in notStarted ==> job in jobs
        invariant |notStarted| <= |jobs| && (changed ==> |notStarted| < |jobs|)
        invariant !changed ==> IsAllLeft(schedule, Now(), jobs[..k], Reached(limit, |ready|))
      {
        var job := jobs[k];
        assert jobs[..k + 1] == jobs[..k] + [job];
        StartedNotStarted(Now(), job);
        ghost var was, wasReady := Now(), ready;
        var skipped;
        skipped, ready := TakeOne(limit, ready, job, before);
        if skipped {
          changed := true;
        } else if ready != wasReady && !changed {
          LeftAmongStays(schedule, was, job, jobs[..k], Reached(limit, |wasReady|), Reached(limit, |ready|));
          AllLeftAppend(schedule, Now(), jobs[..k], Reached(limit, |ready|), job);
        } else if !changed {
          AllLeftAppend(schedule, Now(), jobs[..k], Reached(limit, |ready|), job);
        }
        k := k + 1;
      }
      assert jobs[..|jobs|] == jobs;
      if !changed {
        FewerLeft(schedule, Now(), jobs, notStarted, Reached(limit, |ready|));
      }
    }

    /** Jobs that may start now, at most `limit`, marked as running; a job
        whose predecessor came to nothing is skipped, which cascades. */
    method TakeReady(limit: Option<int>) returns (ready: seq<string>)
      requires Valid()
      modifies this
      ensures Valid() && Taken(old(Now()), Now(), ready, limit)
      // Every job left is left for want of room, of a predecessor's outcome, or of a connection's places.
      ensures IsAllLeft(schedule, Now(), notStarted, Reached(limit, |ready|))
      // With nothing running, and room for one job, some job starts or every job is decided.
      ensures old(running) == {} && !Reached(limit, 0) ==> ready != [] || IsFinished()
    {
      hide Consistent, PredecessorUnsuccessful, MayStart;
      ready := [];
      var changed := true;
      AllActive(schedule, Now());
      TakenNothing(Now(), limit);
      while changed
        invariant Valid() && Taken(old(Now()), Now(), ready, limit)
        invariant !changed ==> IsAllLeft(schedule, Now(), notStarted, Reached(limit, |ready|))
        decreases |notStarted|, changed
      {
        changed, ready := TakePass(limit, ready, old(Now()));
      }
      if old(running) == {} && !Reached(limit, 0) && ready == [] {
        assert running == {};
        IdleLeavesNothing(schedule, Now());
      }
    }

    /** The most places a job could hold on each limited connection it uses,
        beside the other running jobs, or None where none is limited. */
    method FreePlaces(job: string) returns (free: Option<int>)
      requires job in schedule.jobs
      ensures free.None? <==> forall alias :: alias in schedule.limits ==> alias !in schedule.jobs[job].connections
      ensures free.Some? ==>
                && (forall alias :: alias in schedule.limits && alias in schedule.jobs[job].connections ==>
                      free.value <= Max(1, FreeOn(schedule, running, reserved, job, alias)))
                && (exists alias :: alias in schedule.limits && alias in schedule.jobs[job].connections &&
                                    free.value == Max(1, FreeOn(schedule, running, reserved, job, alias)))
    {
      hide FreeOn, AtMost;
      var aliases := Sorted(schedule.limits.Keys * schedule.jobs[job].connections);
      assert forall alias :: alias in aliases <==> alias in schedule.limits && alias in schedule.jobs[job].connections;
      if aliases == [] {
        return None;
      }
      var least := FreeOn(schedule, running, reserved, job, aliases[0]);
      ghost var at := aliases[0];
      for k := 1 to |aliases|
        invariant forall i :: 0 <= i < k ==> least <= FreeOn(schedule, running, reserved, job, aliases[i])
        invariant at in aliases && least == FreeOn(schedule, running, reserved, job, at)
      {
        var next := FreeOn(schedule, running, reserved, job, aliases[k]);
        if next < least {
          least, at := next, aliases[k];
        }
      }
      free := Some(Max(1, least));
    }

    /** _coreBudget's part in the schedule: a started job with an automatic
        count holds as many places as it might use, its share of the cores or what is free. */
    method ReserveFor(job: string, share: int)
      requires Valid() && job in running && job in schedule.jobs && share >= 1
      requires schedule.jobs[job].partitions.Automatic? ==> job !in reserved
      modifies this
      ensures Valid()
      ensures schedule.jobs[job].partitions.Automatic? ==>
                exists places :: Reservable(schedule, running, old(reserved), job, places) && places <= share &&
                                 Now() == old(Now()).(reserved := old(reserved)[job := places])
      ensures !schedule.jobs[job].partitions.Automatic? ==> Now() == old(Now())
    {
      hide Consistent, FreeOn;
      if schedule.jobs[job].partitions.Automatic? {
        var free := FreePlaces(job);
        var places := match free case None => share case Some(value) => Min(share, value);
        ReserveKeeps(schedule, Now(), job, places);
        reserved := reserved[job := places];
      }
    }
  }

  /** masking.coreShare: a job's share of half the cores. */
  function CoreShare(cores: nat, alongside: int): (share: int)
    ensures share >= 1
  {
    Max(1, cores / 2 / Max(1, alongside))
  }

  /** One turn of the cycle's loop as its surroundings decide it: whether a
      signal has come, and which of the running jobs are found to have ended, completed or not. */
  datatype Round = Round(terminating: bool, ends: set<string> -> map<string, bool>)

  /** Jobs end: of the jobs running, at least one. */
  ghost predicate Productive(round: Round) {
    forall running: set<string> :: running != {} ==> exists job :: job in running && job in round.ends(running)
  }

  /** The loop's own list of running jobs is the graph's set. */
  ghost predicate Lists(processes: seq<string>, running: set<string>) {
    Distinct(processes) && forall job :: job in processes <==> job in running
  }

  lemma {:induction false} ListSize(processes: seq<string>, running: set<string>)
    requires Lists(processes, running)
    ensures |processes| == |running|
  {
    if processes == [] {
      assert running == {};
    } else {
      var rest := processes[1..];
      assert processes == [processes[0]] + rest;
      assert forall i :: 0 <= i < |rest| ==> rest[i] == processes[i + 1];
      ListSize(rest, running - {processes[0]});
    }
  }

  lemma ListGrows(processes: seq<string>, running: set<string>, starting: seq<string>, more: set<string>)
    requires Lists(processes, running) && Distinct(starting)
    requires forall job :: job in starting ==> job !in running
    requires more == running + (set job | job in starting)
    ensures Lists(processes + starting, more)
  {
    var all := processes + starting;
    assert forall job :: job in all <==> job in processes || job in starting;
    forall i, j | 0 <= i < j < |all| ensures all[i] != all[j] {
      if i < |processes| <= j {
        assert all[i] in processes && all[j] in starting;
      }
    }
  }

  lemma ListShrinks(processes: seq<string>, running: set<string>, job: string)
    requires Lists(processes, running)
    ensures Lists(Without(processes, job), running - {job})
  {
    WithoutDistinct(processes, job);
  }

  /** Places are reserved for each starting job in turn. */
  method ReserveStarting(graph: DependencyGraph, starting: seq<string>, share: int)
    requires graph.Valid() && share >= 1 && Distinct(starting)
    requires forall job :: job in starting ==>
               job in graph.running && job in graph.schedule.jobs && job !in graph.reserved
    modifies graph
    ensures graph.Valid()
    ensures graph.notStarted == old(graph.notStarted) && graph.running == old(graph.running) &&
            graph.stopped == old(graph.stopped)
  {
    hide Consistent, Reservable;
    for k := 0 to |starting|
      invariant graph.Valid()
      invariant graph.notStarted == old(graph.notStarted) && graph.running == old(graph.running) &&
                graph.stopped == old(graph.stopped)
      invariant forall i :: k <= i < |starting| ==> starting[i] !in graph.reserved
    {
      assert starting[k] in starting;
      graph.ReserveFor(starting[k], share);
    }
  }

  /** The running jobs found to have ended are finished. */
  method FinishEnded(graph: DependencyGraph, processes: seq<string>, ended: map<string, bool>)
    returns (left: seq<string>)
    requires graph.Valid() && Lists(processes, graph.running)
    modifies graph
    ensures graph.Valid() && Lists(left, graph.running)
    ensures graph.notStarted == old(graph.notStarted) && graph.stopped == old(graph.stopped)
    ensures |left| <= |processes|
    ensures (exists job :: job in processes && job in ended) ==> |left| < |processes|
  {
    hide Consistent, Lists;
    left := processes;
    ListsDistinct(processes, graph.running);
    for k := 0 to |processes|
      invariant graph.Valid() && Lists(left, graph.running)
      invariant graph.notStarted == old(graph.notStarted) && graph.stopped == old(graph.stopped)
      invariant |left| <= |processes|
      invariant (exists i :: 0 <= i < k && processes[i] in ended) ==> |left| < |processes|
      invariant forall i :: k <= i < |processes| ==> processes[i] in left
    {
      var job := processes[k];
      if job in ended {
        ListsMeans(left, graph.running, job);
        ListShrinks(left, graph.running, job);
        graph.Finish(Outcome(job, if ended[job] then Completed else Failed));
        left := Without(left, job);
      }
    }
  }

  lemma ListsDistinct(processes: seq<string>, running: set<string>)
    requires Lists(processes, running)
    ensures Distinct(processes)
  {
  }

  lemma ListsMeans(processes: seq<string>, running: set<string>, job: string)
    requires Lists(processes, running)
    ensures job in processes <==> job in running
  {
  }

  lemma StartingIsNew(schedule: Schedule, before: State, s: State, starting: seq<string>, limit: Option<int>)
    requires Consistent(schedule, before) && Taken(before, s, starting, limit)
    ensures Distinct(starting)
    ensures forall job :: job in starting ==>
              job in s.running && job in schedule.jobs && job !in s.reserved && job !in before.running
    ensures s.running == before.running + (set job | job in starting)
    ensures |s.notStarted| + |starting| <= |before.notStarted| && s.stopped == before.stopped
    ensures limit.Some? ==> |starting| <= Max(limit.value, 0)
  {
  }

  /** _runCycle: rounds until every job is decided, or for as many as there are. */
  method RunCycle(graph: DependencyGraph, workers: int, cores: nat, rounds: seq<Round>) returns (used: nat)
    requires graph.Valid() && graph.running == {} && workers >= 1
    modifies graph
    ensures graph.Valid() && |graph.running| <= workers
    ensures used <= |rounds| && (used < |rounds| ==> graph.IsFinished())
    // A cycle whose jobs end reaches the end: a round for each job is enough.
    ensures (forall k :: 0 <= k < |rounds| ==> Productive(rounds[k])) && |rounds| >= |old(graph.notStarted)| ==>
              graph.IsFinished()
    ensures (forall k :: 0 <= k < used ==> !rounds[k].terminating) ==> graph.stopped == old(graph.stopped)
    // It ends with one outcome for each job, SKIPPED, unless a signal came, exactly where a failure was waited for.
    ensures graph.IsFinished() ==> IsDecided(graph.schedule, graph.Now())
    ensures graph.IsFinished() && !graph.stopped ==>
              forall job :: HasOutcome(graph.Now(), job, Skipped) <==> WaitsForFailure(graph.schedule, graph.Now(), job)
  {
    hide Consistent, Lists, Taken, Productive, IsAllLeft, IsDecided, HasOutcome, WaitsForFailure;
    used := 0;
    var processes: seq<string> := [];
    NoProcesses(graph.running);
    while used < |rounds| && !graph.IsFinished()
      invariant graph.Valid() && Lists(processes, graph.running) && |processes| <= workers
      invariant 0 <= used <= |rounds|
      invariant (forall k :: 0 <= k < used ==> !rounds[k].terminating) ==> graph.stopped == old(graph.stopped)
      invariant (forall k :: 0 <= k < |rounds| ==> Productive(rounds[k])) ==>
                  graph.IsFinished() || used + |graph.notStarted| + |processes| <= |old(graph.notStarted)|
    {
      var round := rounds[used];
      used := used + 1;
      if round.terminating {
        graph.SkipNotStarted();
      } else {
        ghost var before := graph.Now();
        var starting := graph.TakeReady(Some(workers - |processes|));
        StartingIsNew(graph.schedule, before, graph.Now(), starting, Some(workers - |processes|));
        ReserveStarting(graph, starting, CoreShare(cores, |processes| + |starting|));
        ListGrows(processes, before.running, starting, graph.running);
        ListSize(processes, before.running);
        processes := processes + starting;
      }
      ListSize(processes, graph.running);
      if processes == [] {
        // What _runCycle asserts at this point.
        assert graph.IsFinished();
        continue;
      }
      ghost var running := graph.running;
      var ended := round.ends(graph.running);
      if Productive(round) {
        ProductiveEnds(round, processes, running);
      }
      processes := FinishEnded(graph, processes, ended);
      ListSize(processes, graph.running);
    }
    ListSize(processes, graph.running);
    if graph.IsFinished() {
      CycleEnds(graph.schedule, graph.Now());
    }
  }

  lemma NoProcesses(running: set<string>)
    requires running == {}
    ensures Lists([], running)
  {
  }

  lemma ProductiveEnds(round: Round, processes: seq<string>, running: set<string>)
    requires Productive(round) && Lists(processes, running) && processes != []
    ensures exists job :: job in processes && job in round.ends(running)
  {
    assert processes[0] in running;
    var job :| job in running && job in round.ends(running);
    assert job in processes;
  }
}
