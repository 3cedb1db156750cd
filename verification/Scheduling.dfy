/**
 What holds of a cycle's jobs however they start and end
 (bauta/jobs/dependencyGraph.py): predecessors, worker slots, and the places
 each limited connection has.
 */
module Scheduling {
  import opened Wrappers
  import opened Cycles

  datatype Partitions = NoPartitions | Fixed(count: int) | Automatic

  datatype Job = Job(connections: set<string>, partitions: Partitions)

  datatype Status = Completed | Failed | Skipped

  datatype Outcome = Outcome(job: string, status: Status)

  /** A cycle's active jobs in order, their active predecessors, and the limited connections. */
  datatype Schedule = Schedule(order: seq<string>, jobs: map<string, Job>, predecessors: Graph,
                               limits: map<string, int>)

  /** What configuration guarantees. */
  ghost predicate ConfiguredSchedule(schedule: Schedule) {
    && Distinct(schedule.order)
    && (forall job :: job in schedule.order <==> job in schedule.predecessors)
    && schedule.predecessors.Keys == schedule.jobs.Keys
    && (forall job :: job in schedule.predecessors ==> forall p :: p in schedule.predecessors[job] ==>
        p in schedule.predecessors)
    && (forall alias :: alias in schedule.limits ==> schedule.limits[alias] >= 1)
    && (forall job :: job in schedule.jobs && schedule.jobs[job].partitions.Fixed? ==>
        schedule.jobs[job].partitions.count >= 1)
  }

  /** That, and what the constructor refuses to do without. */
  ghost predicate ValidSchedule(schedule: Schedule) {
    ConfiguredSchedule(schedule) && Acyclic(schedule.predecessors)
  }

  /** The bookkeeping. `stopped` says that skipNotStarted was called, for a signal. */
  datatype State = State(notStarted: seq<string>, running: set<string>, reserved: map<string, int>,
                         completed: set<string>, unsuccessful: set<string>, outcomes: seq<Outcome>, stopped: bool)

  // ---------- Places ----------

  /** places: one, one for each partition, or what an automatic count was given. */
  function Places(job: Job, name: string, reserved: map<string, int>): int {
    match job.partitions
    case NoPartitions => 1
    case Fixed(count) => count
    case Automatic => if name in reserved then reserved[name] else 1
  }

  /** The places running jobs of `order` hold on a connection. */
  function InUse(order: seq<string>, jobs: map<string, Job>, running: set<string>, reserved: map<string, int>,
                 alias: string): int {
    if order == [] then 0
    else
      InUse(order[1..], jobs, running, reserved, alias) +
      if order[0] in running && order[0] in jobs && alias in jobs[order[0]].connections
          then Places(jobs[order[0]], order[0], reserved) else 0
  }

  /** _connectionsFree. */
  predicate ConnectionsFree(schedule: Schedule, running: set<string>, reserved: map<string, int>, name: string)
    requires name in schedule.jobs
  {
    var job := schedule.jobs[name];
    forall alias :: alias in schedule.limits && alias in job.connections ==>
      var inUse := InUse(schedule.order, schedule.jobs, running, reserved, alias);
      inUse == 0 || inUse + Min(Places(job, name, reserved), schedule.limits[alias]) <= schedule.limits[alias]
  }

  ghost predicate SoleUser(schedule: Schedule, running: set<string>, alias: string, user: string) {
    user in running && forall job :: job in running && Uses(schedule, job, alias) ==> job == user
  }

  ghost predicate OnlyUser(schedule: Schedule, running: set<string>, alias: string) {
    exists user {:trigger SoleUser(schedule, running, alias, user)} :: SoleUser(schedule, running, alias, user)
  }

  /** The places held on a limited connection total at most its limit, or one job is using it alone. */
  ghost predicate WithinLimit(schedule: Schedule, running: set<string>, reserved: map<string, int>, alias: string)
    requires alias in schedule.limits
  {
    || InUse(schedule.order, schedule.jobs, running, reserved, alias) <= schedule.limits[alias]
    || OnlyUser(schedule, running, alias)
  }

  ghost predicate WithinLimits(schedule: Schedule, running: set<string>, reserved: map<string, int>) {
    forall alias :: alias in schedule.limits ==> WithinLimit(schedule, running, reserved, alias)
  }

  ghost predicate PlacesPositive(schedule: Schedule, reserved: map<string, int>) {
    && (forall job :: job in schedule.jobs && schedule.jobs[job].partitions.Fixed? ==>
        schedule.jobs[job].partitions.count >= 1)
    && (forall job :: job in reserved ==> reserved[job] >= 1)
  }

  lemma {:induction false} InUseNone(order: seq<string>, schedule: Schedule, running: set<string>,
                                     reserved: map<string, int>, alias: string)
    requires PlacesPositive(schedule, reserved)
    ensures InUse(order, schedule.jobs, running, reserved, alias) >= 0
    ensures InUse(order, schedule.jobs, running, reserved, alias) == 0 ==>
              forall job :: job in order && job in running ==> !Uses(schedule, job, alias)
    ensures running == {} ==> InUse(order, schedule.jobs, running, reserved, alias) == 0
  {
    if order != [] {
      InUseNone(order[1..], schedule, running, reserved, alias);
      assert order == [order[0]] + order[1..];
    }
  }

  /** What one more running job adds to a connection's places in use. */
  lemma {:induction false} InUseAdds(order: seq<string>, jobs: map<string, Job>, running: set<string>,
                                     reserved: map<string, int>,
                                     alias: string, name: string)
    requires Distinct(order) && name !in running && name in jobs
    ensures InUse(order, jobs, running + {name}, reserved, alias) == InUse(order, jobs, running, reserved, alias) +
            if name in order && alias in jobs[name].connections then Places(jobs[name], name, reserved) else 0
  {
    if order != [] {
      assert order == [order[0]] + order[1..];
      assert forall k :: 0 < k < |order| ==> order[k] != order[0];
      assert forall k :: 0 <= k < |order[1..]| ==> order[1..][k] == order[k + 1];
      InUseAdds(order[1..], jobs, running, reserved, alias, name);
    }
  }

  /** What giving a running job other places changes. */
  lemma {:induction false} InUseReserves(order: seq<string>, jobs: map<string, Job>, running: set<string>,
                                         reserved: map<string, int>,
                                         alias: string, name: string, places: int)
    requires Distinct(order) && name in jobs
    ensures InUse(order, jobs, running, reserved[name := places], alias) ==
            InUse(order, jobs, running - {name}, reserved, alias) +
            if name in order && name in running && alias in jobs[name].connections
                then Places(jobs[name], name, reserved[name := places]) else 0
  {
    if order != [] {
      assert order == [order[0]] + order[1..];
      assert forall k :: 0 < k < |order| ==> order[k] != order[0];
      assert forall k :: 0 <= k < |order[1..]| ==> order[1..][k] == order[k + 1];
      InUseReserves(order[1..], jobs, running, reserved, alias, name, places);
    }
  }

  lemma {:induction false} InUseGrows(order: seq<string>, schedule: Schedule, running: set<string>, more: set<string>,
                                      reserved: map<string, int>, alias: string)
    requires PlacesPositive(schedule, reserved) && running <= more
    ensures InUse(order, schedule.jobs, running, reserved, alias) <= InUse(order, schedule.jobs, more, reserved, alias)
  {
    if order != [] {
      InUseGrows(order[1..], schedule, running, more, reserved, alias);
    }
  }

  ghost predicate Uses(schedule: Schedule, job: string, alias: string) {
    job in schedule.jobs && alias in schedule.jobs[job].connections
  }

  lemma OnlyUserStays(schedule: Schedule, running: set<string>, name: string, alias: string)
    requires OnlyUser(schedule, running, alias) && !Uses(schedule, name, alias)
    ensures OnlyUser(schedule, running + {name}, alias)
  {
    var user :| SoleUser(schedule, running, alias, user);
    assert SoleUser(schedule, running + {name}, alias, user);
  }

  lemma OnlyUserStarts(schedule: Schedule, running: set<string>, name: string, alias: string)
    requires forall job :: job in running ==> !Uses(schedule, job, alias)
    ensures OnlyUser(schedule, running + {name}, alias)
  {
    assert SoleUser(schedule, running + {name}, alias, name);
  }

  lemma StartWithinLimit(schedule: Schedule, running: set<string>, reserved: map<string, int>, name: string,
                         alias: string)
    requires ValidSchedule(schedule) && PlacesPositive(schedule, reserved)
    requires alias in schedule.limits && WithinLimit(schedule, running, reserved, alias)
    requires name in schedule.jobs && name !in running && running <= schedule.jobs.Keys
    requires ConnectionsFree(schedule, running, reserved, name)
    ensures WithinLimit(schedule, running + {name}, reserved, alias)
  {
    hide InUse, Acyclic, OnlyUser, PlacesPositive, Places;
    var job, inUse := schedule.jobs[name], InUse(schedule.order, schedule.jobs, running, reserved, alias);
    InUseAdds(schedule.order, schedule.jobs, running, reserved, alias, name);
    InUseNone(schedule.order, schedule, running, reserved, alias);
    if alias !in job.connections {
      if inUse > schedule.limits[alias] {
        OnlyUserStays(schedule, running, name, alias);
      }
    } else if inUse == 0 {
      OnlyUserStarts(schedule, running, name, alias);
    }
  }

  /** Starting a job its connections are free for keeps every connection within its limit. */
  lemma StartWithinLimits(schedule: Schedule, running: set<string>, reserved: map<string, int>, name: string)
    requires ValidSchedule(schedule) && PlacesPositive(schedule, reserved) && WithinLimits(schedule, running, reserved)
    requires name in schedule.jobs && name !in running && running <= schedule.jobs.Keys
    requires ConnectionsFree(schedule, running, reserved, name)
    ensures WithinLimits(schedule, running + {name}, reserved)
  {
    hide InUse, ConnectionsFree, ValidSchedule;
    forall alias | alias in schedule.limits ensures WithinLimit(schedule, running + {name}, reserved, alias) {
      assert WithinLimit(schedule, running, reserved, alias);
      StartWithinLimit(schedule, running, reserved, name, alias);
    }
  }

  lemma FewerWithinLimits(schedule: Schedule, running: set<string>, fewer: set<string>, reserved: map<string, int>)
    requires ValidSchedule(schedule) && PlacesPositive(schedule, reserved) && WithinLimits(schedule, running, reserved)
    requires fewer <= running
    ensures WithinLimits(schedule, fewer, reserved)
  {
    hide InUse, ValidSchedule, PlacesPositive;
    assert forall alias :: alias in schedule.limits ==> schedule.limits[alias] >= 1 by {
      LimitsPositive(schedule);
    }
    forall alias | alias in schedule.limits ensures WithinLimit(schedule, fewer, reserved, alias) {
      assert WithinLimit(schedule, running, reserved, alias);
      InUseGrows(schedule.order, schedule, fewer, running, reserved, alias);
      if InUse(schedule.order, schedule.jobs, running, reserved, alias) > schedule.limits[alias] {
        var user :| SoleUser(schedule, running, alias, user);
        if user in fewer {
          assert SoleUser(schedule, fewer, alias, user);
        } else {
          NoUsers(schedule, schedule.order, fewer, reserved, alias);
        }
      }
    }
  }

  lemma LimitsPositive(schedule: Schedule)
    requires ValidSchedule(schedule)
    ensures forall alias :: alias in schedule.limits ==> schedule.limits[alias] >= 1
  {
  }

  lemma {:induction false} NoUsers(schedule: Schedule, order: seq<string>, running: set<string>,
                                   reserved: map<string, int>, alias: string)
    requires forall job :: job in running ==> !Uses(schedule, job, alias)
    ensures InUse(order, schedule.jobs, running, reserved, alias) == 0
  {
    if order != [] {
      NoUsers(schedule, order[1..], running, reserved, alias);
    }
  }

  /** The free places of each limited connection a job uses, beside the other running jobs. */
  function FreeOn(schedule: Schedule, running: set<string>, reserved: map<string, int>, name: string,
                  alias: string): int
    requires alias in schedule.limits
  {
    schedule.limits[alias] - InUse(schedule.order, schedule.jobs, running - {name}, reserved, alias)
  }

  /** What reserve() may give: at least one, and no more than any limited connection of the job's has free. */
  ghost predicate Reservable(schedule: Schedule, running: set<string>, reserved: map<string, int>, name: string,
                             places: int)
    requires name in schedule.jobs
  {
    && places >= 1
    && forall alias :: alias in schedule.limits && alias in schedule.jobs[name].connections ==>
         places <= Max(1, FreeOn(schedule, running, reserved, name, alias))
  }

  lemma ReserveWithinLimit(schedule: Schedule, running: set<string>, reserved: map<string, int>, name: string,
                           places: int, alias: string)
    requires ValidSchedule(schedule) && alias in schedule.limits && WithinLimit(schedule, running, reserved, alias)
    requires name in running && name in schedule.jobs && schedule.jobs[name].partitions.Automatic? && name !in reserved
    requires Reservable(schedule, running, reserved, name, places)
    ensures WithinLimit(schedule, running, reserved[name := places], alias)
  {
    hide InUse, OnlyUser, Acyclic;
    InUseReserves(schedule.order, schedule.jobs, running, reserved, alias, name, places);
    InUseAdds(schedule.order, schedule.jobs, running - {name}, reserved, alias, name);
    assert running - {name} + {name} == running;
    assert name in schedule.order;
  }

  /** Reserving a just-started automatic job's places keeps every connection within its limit. */
  lemma ReserveWithinLimits(schedule: Schedule, running: set<string>, reserved: map<string, int>, name: string,
                            places: int)
    requires ValidSchedule(schedule) && WithinLimits(schedule, running, reserved)
    requires name in running && name in schedule.jobs && schedule.jobs[name].partitions.Automatic? && name !in reserved
    requires Reservable(schedule, running, reserved, name, places)
    ensures WithinLimits(schedule, running, reserved[name := places])
  {
    hide InUse, ValidSchedule, Reservable;
    forall alias | alias in schedule.limits ensures WithinLimit(schedule, running, reserved[name := places], alias) {
      assert WithinLimit(schedule, running, reserved, alias);
      ReserveWithinLimit(schedule, running, reserved, name, places, alias);
    }
  }

  // ---------- The bookkeeping's invariant ----------

  ghost predicate PredecessorsCompleted(schedule: Schedule, completed: set<string>, job: string)
    requires job in schedule.predecessors
  {
    forall p :: p in schedule.predecessors[job] ==> p in completed
  }

  ghost predicate PredecessorUnsuccessful(schedule: Schedule, unsuccessful: set<string>, job: string)
    requires job in schedule.predecessors
  {
    exists p :: p in schedule.predecessors[job] && p in unsuccessful
  }

  /** The jobs whose outcome is not COMPLETED. */
  function UnsuccessfulIn(outcomes: seq<Outcome>): set<string> {
    set k | 0 <= k < |outcomes| && !outcomes[k].status.Completed? :: outcomes[k].job
  }

  function CompletedIn(outcomes: seq<Outcome>): set<string> {
    set k | 0 <= k < |outcomes| && outcomes[k].status.Completed? :: outcomes[k].job
  }

  /** Every active job is in exactly one place, and has at most one outcome. */
  ghost predicate Partitioned(schedule: Schedule, s: State) {
    && Distinct(s.notStarted)
    && (forall job :: job in s.notStarted ==> job !in s.running && job !in s.completed && job !in s.unsuccessful)
    && s.running !! s.completed && s.running !! s.unsuccessful && s.completed !! s.unsuccessful
    && (forall job :: job in schedule.predecessors <==>
          job in s.notStarted || job in s.running || job in s.completed || job in s.unsuccessful)
    && s.completed == CompletedIn(s.outcomes) && s.unsuccessful == UnsuccessfulIn(s.outcomes)
    && (forall i, j :: 0 <= i < j < |s.outcomes| ==> s.outcomes[i].job != s.outcomes[j].job)
  }

  /** Only jobs whose predecessors completed were started; each job skipped
      without a signal has a predecessor that came to nothing before it. */
  ghost predicate Explained(schedule: Schedule, s: State) {
    && (forall job :: job in s.running && job in schedule.predecessors ==>
        PredecessorsCompleted(schedule, s.completed, job))
    && forall k :: 0 <= k < |s.outcomes| && s.outcomes[k].job in schedule.predecessors ==>
        OutcomeExplained(schedule, s, k)
  }

  ghost predicate OutcomeExplained(schedule: Schedule, s: State, k: nat)
    requires k < |s.outcomes| && s.outcomes[k].job in schedule.predecessors
  {
    if s.outcomes[k].status.Skipped?
    then s.stopped || PredecessorUnsuccessful(schedule, UnsuccessfulIn(s.outcomes[..k]), s.outcomes[k].job)
    else PredecessorsCompleted(schedule, s.completed, s.outcomes[k].job)
  }

  /** What holds after every start, reservation, finish and skip. */
  ghost predicate Consistent(schedule: Schedule, s: State) {
    && ValidSchedule(schedule)
    && Partitioned(schedule, s)
    && Explained(schedule, s)
    && PlacesPositive(schedule, s.reserved)
    && WithinLimits(schedule, s.running, s.reserved)
    && (forall job :: job in s.reserved ==> job !in s.notStarted)
  }

  /** list.remove, where the list holds a job once. */
  function Without(jobs: seq<string>, job: string): (rest: seq<string>)
    ensures forall j :: j in rest <==> j in jobs && j != job
    ensures if job in jobs then |rest| < |jobs| else rest == jobs
  {
    if jobs == [] then []
    else
      assert jobs == [jobs[0]] + jobs[1..];
      (if jobs[0] == job then [] else [jobs[0]]) + Without(jobs[1..], job)
  }

  lemma {:induction false} WithoutDistinct(jobs: seq<string>, job: string)
    requires Distinct(jobs)
    ensures Distinct(Without(jobs, job))
  {
    if jobs != [] {
      assert forall k :: 0 <= k < |jobs[1..]| ==> jobs[1..][k] == jobs[k + 1];
      WithoutDistinct(jobs[1..], job);
      assert jobs[0] !in jobs[1..];
    }
  }

  function Started(s: State, job: string): State {
    s.(notStarted := Without(s.notStarted, job), running := s.running + {job})
  }

  function Decided(s: State, outcome: Outcome): State {
    s.(running := s.running - {outcome.job}, outcomes := s.outcomes + [outcome],
       completed := s.completed + if outcome.status.Completed? then {outcome.job} else {},
       unsuccessful := s.unsuccessful + if outcome.status.Completed? then {} else {outcome.job})
  }

  function SkippedJob(s: State, job: string): State {
    Decided(s.(notStarted := Without(s.notStarted, job)), Outcome(job, Skipped))
  }

  predicate MayStart(schedule: Schedule, s: State, job: string)
    requires job in schedule.predecessors && job in schedule.jobs
  {
    && (forall p :: p in schedule.predecessors[job] ==> p in s.completed)
    && ConnectionsFree(schedule, s.running, s.reserved, job)
  }

  lemma StartedNotStarted(s: State, job: string)
    ensures forall j :: j in Started(s, job).notStarted <==> j in s.notStarted && j != job
    ensures forall j :: j in SkippedJob(s, job).notStarted <==> j in s.notStarted && j != job
    ensures job in s.notStarted ==>
              |Started(s, job).notStarted| < |s.notStarted| && |SkippedJob(s, job).notStarted| < |s.notStarted|
  {
  }

  lemma StartKeeps(schedule: Schedule, s: State, job: string)
    requires Consistent(schedule, s) && job in s.notStarted && job in schedule.predecessors &&
             MayStart(schedule, s, job)
    ensures Consistent(schedule, Started(s, job))
  {
    hide WithinLimits, ConnectionsFree, InUse, Acyclic;
    var s' := Started(s, job);
    assert s.running <= schedule.jobs.Keys;
    StartWithinLimits(schedule, s.running, s.reserved, job);
    WithoutDistinct(s.notStarted, job);
    assert Partitioned(schedule, s');
    forall k | 0 <= k < |s'.outcomes| && s'.outcomes[k].job in schedule.predecessors
      ensures OutcomeExplained(schedule, s', k)
    {
      assert OutcomeExplained(schedule, s, k);
    }
  }

  lemma OutcomeSets(outcomes: seq<Outcome>, outcome: Outcome)
    ensures CompletedIn(outcomes + [outcome]) ==
            CompletedIn(outcomes) + if outcome.status.Completed? then {outcome.job} else {}
    ensures UnsuccessfulIn(outcomes + [outcome]) ==
            UnsuccessfulIn(outcomes) + if outcome.status.Completed? then {} else {outcome.job}
  {
    var all := outcomes + [outcome];
    assert all[|outcomes|] == outcome;
    forall job | job in CompletedIn(outcomes) ensures job in CompletedIn(all) {
      var k :| 0 <= k < |outcomes| && outcomes[k].status.Completed? && outcomes[k].job == job;
      assert all[k] == outcomes[k];
    }
    forall job | job in UnsuccessfulIn(outcomes) ensures job in UnsuccessfulIn(all) {
      var k :| 0 <= k < |outcomes| && !outcomes[k].status.Completed? && outcomes[k].job == job;
      assert all[k] == outcomes[k];
    }
  }

  lemma PartitionedDecided(schedule: Schedule, s: State, outcome: Outcome)
    requires Partitioned(schedule, s)
    requires outcome.job in s.running || (outcome.job in s.notStarted && outcome.status.Skipped?)
    ensures Partitioned(schedule, Decided(s.(notStarted := Without(s.notStarted, outcome.job)), outcome))
  {
    OutcomeSets(s.outcomes, outcome);
    WithoutDistinct(s.notStarted, outcome.job);
    var outcomes := s.outcomes + [outcome];
    forall i, j | 0 <= i < j < |outcomes| ensures outcomes[i].job != outcomes[j].job {
      if j == |s.outcomes| {
        assert outcomes[i] == s.outcomes[i];
        assert s.outcomes[i].job in s.completed || s.outcomes[i].job in s.unsuccessful;
      }
    }
  }

  lemma ExplainedDecided(schedule: Schedule, s: State, outcome: Outcome)
    requires Explained(schedule, s) && s.unsuccessful == UnsuccessfulIn(s.outcomes) &&
             outcome.job in schedule.predecessors
    requires if outcome.status.Skipped? then s.stopped || PredecessorUnsuccessful(schedule, s.unsuccessful, outcome.job)
             else outcome.job in s.running
    ensures Explained(schedule, Decided(s.(notStarted := Without(s.notStarted, outcome.job)), outcome))
  {
    var s' := Decided(s.(notStarted := Without(s.notStarted, outcome.job)), outcome);
    forall k | 0 <= k < |s'.outcomes| && s'.outcomes[k].job in schedule.predecessors
      ensures OutcomeExplained(schedule, s', k)
    {
      if k < |s.outcomes| {
        assert OutcomeExplained(schedule, s, k);
        assert s'.outcomes[..k] == s.outcomes[..k];
      } else {
        assert s'.outcomes[..k] == s.outcomes;
      }
    }
  }

  /** A running job that ends is decided. */
  lemma FinishKeeps(schedule: Schedule, s: State, outcome: Outcome)
    requires Consistent(schedule, s) && outcome.job in s.running && !outcome.status.Skipped?
    ensures Consistent(schedule, Decided(s, outcome))
  {
    hide Partitioned, Explained, WithinLimits, ValidSchedule, PlacesPositive;
    RunningIsActive(schedule, s, outcome.job);
    assert s.(notStarted := Without(s.notStarted, outcome.job)) == s;
    PartitionedDecided(schedule, s, outcome);
    ExplainedDecided(schedule, s, outcome);
    FewerWithinLimits(schedule, s.running, s.running - {outcome.job}, s.reserved);
  }

  lemma RunningIsActive(schedule: Schedule, s: State, job: string)
    requires Partitioned(schedule, s)
    ensures job in s.running ==> job in schedule.predecessors && job !in s.notStarted
    ensures job in s.notStarted ==> job in schedule.predecessors && job !in s.running
    ensures s.unsuccessful == UnsuccessfulIn(s.outcomes)
  {
  }

  /** A job not started is skipped for a predecessor, or for a signal. */
  lemma SkipKeeps(schedule: Schedule, s: State, job: string)
    requires Consistent(schedule, s) && job in s.notStarted && job in schedule.predecessors
    requires s.stopped || PredecessorUnsuccessful(schedule, s.unsuccessful, job)
    ensures Consistent(schedule, SkippedJob(s, job))
  {
    hide Partitioned, Explained, WithinLimits, ValidSchedule, PlacesPositive;
    RunningIsActive(schedule, s, job);
    PartitionedDecided(schedule, s, Outcome(job, Skipped));
    ExplainedDecided(schedule, s, Outcome(job, Skipped));
    assert s.running - {job} == s.running;
  }

  lemma StopKeeps(schedule: Schedule, s: State)
    requires Consistent(schedule, s)
    ensures Consistent(schedule, s.(stopped := true))
  {
    var s' := s.(stopped := true);
    forall k | 0 <= k < |s'.outcomes| && s'.outcomes[k].job in schedule.predecessors
      ensures OutcomeExplained(schedule, s', k)
    {
      assert OutcomeExplained(schedule, s, k);
    }
  }

  lemma ReserveKeeps(schedule: Schedule, s: State, job: string, places: int)
    requires Consistent(schedule, s) && job in s.running && job in schedule.jobs
    requires schedule.jobs[job].partitions.Automatic? && job !in s.reserved
    requires Reservable(schedule, s.running, s.reserved, job, places)
    ensures Consistent(schedule, s.(reserved := s.reserved[job := places]))
  {
    hide WithinLimits, ValidSchedule;
    ReserveWithinLimits(schedule, s.running, s.reserved, job, places);
    var s' := s.(reserved := s.reserved[job := places]);
    forall k | 0 <= k < |s'.outcomes| && s'.outcomes[k].job in schedule.predecessors
      ensures OutcomeExplained(schedule, s', k)
    {
      assert OutcomeExplained(schedule, s, k);
    }
  }

  // ---------- Progress ----------

  function Reached(limit: Option<int>, started: int): bool {
    limit.Some? && started >= limit.value
  }

  /** Why a job takeReady leaves is left: no room for more, or it may not start. Never for a predecessor that came to
      nothing. */
  ghost predicate Left(schedule: Schedule, s: State, full: bool, job: string)
    requires job in schedule.predecessors && job in schedule.jobs
  {
    !PredecessorUnsuccessful(schedule, s.unsuccessful, job) && (full || !MayStart(schedule, s, job))
  }

  lemma IdleConnectionsFree(schedule: Schedule, reserved: map<string, int>, name: string)
    requires PlacesPositive(schedule, reserved) && name in schedule.jobs
    ensures ConnectionsFree(schedule, {}, reserved, name)
  {
    forall alias | alias in schedule.limits ensures InUse(schedule.order, schedule.jobs, {}, reserved, alias) == 0 {
      InUseNone(schedule.order, schedule, {}, reserved, alias);
    }
  }

  /** A job left with nothing running waits for another job left. */
  lemma LeftWaitsForLeft(schedule: Schedule, s: State, job: string)
    requires Consistent(schedule, s) && s.running == {}
    requires job in s.notStarted && job in schedule.predecessors && Left(schedule, s, false, job)
    ensures exists p :: p in s.notStarted && Edge(schedule.predecessors, job, p)
  {
    hide Acyclic, ConnectionsFree, WithinLimits;
    IdleConnectionsFree(schedule, s.reserved, job);
    var p :| p in schedule.predecessors[job] && p !in s.completed;
    assert p in schedule.predecessors;
    assert p in s.notStarted;
    assert Edge(schedule.predecessors, job, p);
  }

  /** With nothing running and room to start, takeReady leaves no job: it started one or decided them all. */
  lemma IdleLeavesNothing(schedule: Schedule, s: State)
    requires Consistent(schedule, s) && s.running == {}
    requires IsAllLeft(schedule, s, s.notStarted, false)
    ensures s.notStarted == []
  {
    hide Left, WithinLimits, Explained, Partitioned, PlacesPositive;
    var left := set job | job in s.notStarted;
    forall job | job in left ensures job !in Ready(schedule.predecessors, left) {
      LeftWaitsForLeft(schedule, s, job);
      var p :| p in s.notStarted && Edge(schedule.predecessors, job, p);
      assert p in left;
    }
    if s.notStarted != [] {
      assert s.notStarted[0] in left;
      AcyclicHasReady(schedule.predecessors, left);
    }
  }

  /** A connection with no room has none once another job has started. */
  lemma FullStaysFull(schedule: Schedule, s: State, other: string, name: string)
    requires PlacesPositive(schedule, s.reserved) && name in schedule.jobs
    requires ConnectionsFree(schedule, s.running + {other}, s.reserved, name)
    requires forall alias :: alias in schedule.limits ==> schedule.limits[alias] >= 1
    ensures ConnectionsFree(schedule, s.running, s.reserved, name)
  {
    hide Places;
    var job := schedule.jobs[name];
    forall alias | alias in schedule.limits && alias in job.connections
      ensures var inUse := InUse(schedule.order, schedule.jobs, s.running, s.reserved, alias);
              inUse == 0 || inUse + Min(Places(job, name, s.reserved), schedule.limits[alias]) <= schedule.limits[alias]
    {
      InUseGrows(schedule.order, schedule, s.running, s.running + {other}, s.reserved, alias);
      InUseNone(schedule.order, schedule, s.running, s.reserved, alias);
    }
  }

  /** What kept a job from starting still does once another has started. */
  lemma LeftStaysLeft(schedule: Schedule, s: State, other: string, full: bool, job: string)
    requires Consistent(schedule, s) && job in schedule.predecessors && job in schedule.jobs &&
             Left(schedule, s, full, job)
    ensures Left(schedule, Started(s, other), full, job)
  {
    hide ConnectionsFree, WithinLimits, Partitioned, Explained, Acyclic, PlacesPositive;
    if MayStart(schedule, Started(s, other), job) {
      FullStaysFull(schedule, s, other, job);
    }
  }

  /** The jobs of a list that are not started are left for a reason. */
  ghost predicate IsAllLeft(schedule: Schedule, s: State, jobs: seq<string>, full: bool) {
    forall job :: job in jobs && job in s.notStarted ==>
      job in schedule.predecessors && job in schedule.jobs && Left(schedule, s, full, job)
  }

  lemma LeftAmongStays(schedule: Schedule, s: State, other: string, jobs: seq<string>, full: bool, fuller: bool)
    requires Consistent(schedule, s) && (full ==> fuller)
    ensures IsAllLeft(schedule, s, jobs, full) ==> IsAllLeft(schedule, Started(s, other), jobs, fuller)
  {
    hide Consistent, MayStart, PredecessorUnsuccessful;
    if IsAllLeft(schedule, s, jobs, full) {
      forall job | job in jobs && job in Started(s, other).notStarted
        ensures job in schedule.predecessors && job in schedule.jobs && Left(schedule, Started(s, other), fuller, job)
      {
        LeftStaysLeft(schedule, s, other, full, job);
      }
    }
  }

  lemma AllLeftAppend(schedule: Schedule, s: State, jobs: seq<string>, full: bool, job: string)
    requires IsAllLeft(schedule, s, jobs, full)
    requires job in s.notStarted ==> IsAllLeft(schedule, s, [job], full)
    ensures IsAllLeft(schedule, s, jobs + [job], full)
  {
    hide Left;
    assert forall j :: j in jobs + [job] ==> j in jobs || j == job;
    assert job in [job];
  }

  lemma NoneLeft(schedule: Schedule, s: State, full: bool)
    ensures IsAllLeft(schedule, s, [], full)
  {
  }

  lemma FewerLeft(schedule: Schedule, s: State, jobs: seq<string>, fewer: seq<string>, full: bool)
    requires IsAllLeft(schedule, s, jobs, full) && forall job :: job in fewer ==> job in jobs
    ensures IsAllLeft(schedule, s, fewer, full)
  {
    hide Left;
  }

  lemma JobIsLeft(schedule: Schedule, s: State, full: bool, job: string)
    requires job in schedule.predecessors && job in schedule.jobs
    requires !PredecessorUnsuccessful(schedule, s.unsuccessful, job) && (full || !MayStart(schedule, s, job))
    ensures IsAllLeft(schedule, s, [job], full)
  {
  }

  lemma MayStartMeans(schedule: Schedule, s: State, job: string)
    requires job in schedule.predecessors && job in schedule.jobs
    ensures MayStart(schedule, s, job) <==>
            (forall p :: p in schedule.predecessors[job] ==> p in s.completed) &&
                ConnectionsFree(schedule, s.running, s.reserved, job)
  {
  }

  lemma UnsuccessfulMeans(schedule: Schedule, unsuccessful: set<string>, job: string)
    requires job in schedule.predecessors
    ensures PredecessorUnsuccessful(schedule, unsuccessful, job) <==> exists p ::
              p in schedule.predecessors[job] && p in unsuccessful
  {
  }

  lemma AllActive(schedule: Schedule, s: State)
    requires Consistent(schedule, s)
    ensures Distinct(s.notStarted)
    ensures forall job :: job in s.notStarted ==>
              job in schedule.predecessors && job in schedule.jobs && job !in s.running
  {
  }

  lemma TakenNothing(s: State, limit: Option<int>)
    requires forall job :: job in s.notStarted ==> job !in s.running
    ensures Taken(s, s, [], limit)
  {
  }

  /** What takeReady's calls have done so far: started `ready`, and skipped. */
  ghost predicate Taken(before: State, s: State, ready: seq<string>, limit: Option<int>) {
    && Distinct(ready)
    && s.running == before.running + (set job | job in ready)
    && (forall job :: job in ready ==> job in before.notStarted && job !in before.running && job !in s.notStarted)
    && (forall job :: job in s.notStarted ==> job in before.notStarted && job !in s.running)
    && (limit.Some? ==> |ready| <= Max(limit.value, 0))
    && |s.notStarted| + |ready| <= |before.notStarted|
    && s.completed == before.completed && s.reserved == before.reserved && s.stopped == before.stopped
  }

  lemma TakenStarts(before: State, s: State, ready: seq<string>, limit: Option<int>, job: string)
    requires Taken(before, s, ready, limit) && job in s.notStarted && !Reached(limit, |ready|)
    ensures Taken(before, Started(s, job), ready + [job], limit)
  {
    assert Distinct(ready + [job]) by {
      assert job !in ready;
    }
    assert (set j | j in ready + [job]) == (set j | j in ready) + {job};
  }

  lemma TakenSkips(before: State, s: State, ready: seq<string>, limit: Option<int>, job: string)
    requires Taken(before, s, ready, limit) && job in s.notStarted
    ensures Taken(before, SkippedJob(s, job), ready, limit)
  {
    assert job !in s.running;
    assert s.running - {job} == s.running;
  }

  lemma NotStartedIsActive(schedule: Schedule, s: State, job: string)
    requires Consistent(schedule, s) && job in s.notStarted
    ensures job in schedule.predecessors && job in schedule.jobs && job !in s.running && Distinct(s.notStarted)
  {
  }

  // ---------- What every run keeps, and how it ends ----------

  datatype Event =
    | Start(job: string) | Reserve(job: string, places: int) | Finish(outcome: Outcome) | Skip(job: string) | Stop

  ghost predicate Enabled(schedule: Schedule, workers: int, s: State, event: Event) {
    match event
    case Start(job) =>
      && |s.running| < workers && job in s.notStarted && job in schedule.predecessors && job in schedule.jobs
      && MayStart(schedule, s, job)
    case Reserve(job, places) =>
      && job in s.running && job in schedule.jobs && schedule.jobs[job].partitions.Automatic? && job !in s.reserved
      && Reservable(schedule, s.running, s.reserved, job, places)
    case Finish(outcome) => outcome.job in s.running && !outcome.status.Skipped?
    case Skip(job) =>
      && job in s.notStarted && job in schedule.predecessors
      && (s.stopped || PredecessorUnsuccessful(schedule, s.unsuccessful, job))
    case Stop => true
  }

  ghost function After(s: State, event: Event): State {
    match event
    case Start(job) => Started(s, job)
    case Reserve(job, places) => s.(reserved := s.reserved[job := places])
    case Finish(outcome) => Decided(s, outcome)
    case Skip(job) => SkippedJob(s, job)
    case Stop => s.(stopped := true)
  }

  function Initial(schedule: Schedule): State {
    State(schedule.order, {}, map[], {}, {}, [], false)
  }

  lemma InitialIsConsistent(schedule: Schedule)
    requires ValidSchedule(schedule)
    ensures Consistent(schedule, Initial(schedule))
  {
    var s := Initial(schedule);
    forall alias | alias in schedule.limits ensures WithinLimit(schedule, s.running, s.reserved, alias) {
      InUseNone(schedule.order, schedule, {}, s.reserved, alias);
    }
  }

  /** A run: each state follows from the one before by an event it allows. */
  ghost predicate IsRun(schedule: Schedule, workers: int, states: seq<State>, events: seq<Event>) {
    && |states| == |events| + 1
    && states[0] == Initial(schedule)
    && forall k :: 0 <= k < |events| ==>
        Enabled(schedule, workers, states[k], events[k]) && states[k + 1] == After(states[k], events[k])
  }

  lemma EventKeeps(schedule: Schedule, workers: int, s: State, event: Event)
    requires Consistent(schedule, s) && |s.running| <= workers && Enabled(schedule, workers, s, event)
    ensures Consistent(schedule, After(s, event)) && |After(s, event).running| <= workers
  {
    hide Consistent, MayStart, Reservable;
    match event
    case Start(job) => StartKeeps(schedule, s, job);
    case Reserve(job, places) => ReserveKeeps(schedule, s, job, places);
    case Finish(outcome) =>
      FinishKeeps(schedule, s, outcome);
      assert s.running == (s.running - {outcome.job}) + {outcome.job};
    case Skip(job) =>
      SkipKeeps(schedule, s, job);
      assert s.running == (s.running - {job}) + (s.running * {job});
    case Stop => StopKeeps(schedule, s);
  }

  /** In every state of every run -- between starts and their reservations too --
      at most `workers` jobs run, and every limited connection's places are
      within its limit or one job's alone. */
  lemma {:induction false} EveryStateIsConsistent(schedule: Schedule, workers: int, states: seq<State>,
                                                  events: seq<Event>, k: nat)
    requires ValidSchedule(schedule) && workers >= 1 && IsRun(schedule, workers, states, events) && k < |states|
    ensures Consistent(schedule, states[k]) && |states[k].running| <= workers
    ensures WithinLimits(schedule, states[k].running, states[k].reserved)
  {
    hide Enabled, After;
    if k == 0 {
      InitialIsConsistent(schedule);
    } else {
      EveryStateIsConsistent(schedule, workers, states, events, k - 1);
      assert Enabled(schedule, workers, states[k - 1], events[k - 1]) &&
             states[k - 1 + 1] == After(states[k - 1], events[k - 1]);
      EventKeeps(schedule, workers, states[k - 1], events[k - 1]);
    }
  }

  /** A job that is running, or came to anything but a skip. */
  ghost predicate WasStarted(s: State, job: string) {
    job in s.running || job in s.completed || HasOutcome(s, job, Failed)
  }

  /** It was started with its predecessors completed already. */
  ghost predicate StartedAfter(schedule: Schedule, states: seq<State>, events: seq<Event>, i: nat, job: string)
    requires |states| == |events| + 1 && job in schedule.predecessors
  {
    i < |events| && events[i] == Start(job) && PredecessorsCompleted(schedule, states[i].completed, job)
  }

  lemma WasStartedBefore(schedule: Schedule, workers: int, s: State, event: Event, job: string)
    requires Enabled(schedule, workers, s, event) && WasStarted(After(s, event), job) && event != Start(job)
    ensures WasStarted(s, job)
  {
    var t := After(s, event);
    if k :| 0 <= k < |t.outcomes| && t.outcomes[k] == Outcome(job, Failed) {
      if k < |s.outcomes| {
        assert s.outcomes[k] == Outcome(job, Failed);
      }
    }
  }

  /** In every run, whatever ran was started only once all its active predecessors had completed. */
  lemma {:induction false} RanAfterPredecessors(schedule: Schedule, workers: int, states: seq<State>,
                                                events: seq<Event>,
                                                k: nat, job: string) returns (i: nat)
    requires IsRun(schedule, workers, states, events) && k < |states| && job in schedule.predecessors
    requires WasStarted(states[k], job)
    ensures i < k && StartedAfter(schedule, states, events, i, job)
  {
    hide After, WasStarted;
    if k == 0 {
      NothingStarted(schedule, job);
    } else {
      i := k - 1;
      assert Enabled(schedule, workers, states[i], events[i]) && states[i + 1] == After(states[i], events[i]);
      if events[i] != Start(job) {
        WasStartedBefore(schedule, workers, states[i], events[i], job);
        i := RanAfterPredecessors(schedule, workers, states, events, i, job);
      }
    }
  }

  lemma NothingStarted(schedule: Schedule, job: string)
    ensures !WasStarted(Initial(schedule), job)
  {
  }

  ghost predicate HasOutcome(s: State, job: string, status: Status) {
    exists k :: 0 <= k < |s.outcomes| && s.outcomes[k] == Outcome(job, status)
  }

  ghost predicate Finished(s: State) {
    s.notStarted == [] && s.running == {}
  }

  /** A finished cycle has exactly one outcome for each active job. */
  lemma OneOutcomeEach(schedule: Schedule, s: State)
    requires Consistent(schedule, s) && Finished(s)
    ensures forall job :: job in schedule.predecessors ==>
              exists k :: 0 <= k < |s.outcomes| && s.outcomes[k].job == job
    ensures forall k :: 0 <= k < |s.outcomes| ==> s.outcomes[k].job in schedule.predecessors
    ensures forall i, j :: 0 <= i < j < |s.outcomes| ==> s.outcomes[i].job != s.outcomes[j].job
  {
    hide WithinLimits, Acyclic, Explained;
    forall job | job in schedule.predecessors ensures exists k :: 0 <= k < |s.outcomes| && s.outcomes[k].job == job {
      assert job in s.completed || job in s.unsuccessful;
    }
    forall k | 0 <= k < |s.outcomes| ensures s.outcomes[k].job in schedule.predecessors {
      assert s.outcomes[k].job in s.completed || s.outcomes[k].job in s.unsuccessful;
    }
  }

  /** A chain of predecessors from a job to one that FAILED. */
  ghost predicate ReachesFailure(schedule: Schedule, s: State, path: seq<string>) {
    |path| >= 2 && IsWalk(schedule.predecessors, path) && HasOutcome(s, path[|path| - 1], Failed)
  }

  lemma {:induction false} SkipHasFailure(schedule: Schedule, s: State, k: nat) returns (path: seq<string>)
    requires Consistent(schedule, s) && !s.stopped && k < |s.outcomes| && s.outcomes[k].status.Skipped?
    requires forall i :: 0 <= i < |s.outcomes| ==> s.outcomes[i].job in schedule.predecessors
    ensures ReachesFailure(schedule, s, path) && path[0] == s.outcomes[k].job
    decreases k
  {
    hide WithinLimits, ValidSchedule, Partitioned, Explained, PlacesPositive;
    var j := SkippedFor(schedule, s, k);
    var job, p := s.outcomes[k].job, s.outcomes[j].job;
    if s.outcomes[j].status.Failed? {
      path := [job, p];
      assert s.outcomes[j] == Outcome(p, Failed);
    } else {
      path := SkipHasFailure(schedule, s, j);
      FailureFurther(schedule, s, job, path);
      path := [job] + path;
    }
  }

  /** The earlier outcome a skip is for. */
  lemma SkippedFor(schedule: Schedule, s: State, k: nat) returns (j: nat)
    requires Explained(schedule, s) && !s.stopped && k < |s.outcomes| && s.outcomes[k].status.Skipped?
    requires s.outcomes[k].job in schedule.predecessors
    requires forall i :: 0 <= i < |s.outcomes| ==> s.outcomes[i].job in schedule.predecessors
    ensures j < k && !s.outcomes[j].status.Completed? &&
            Edge(schedule.predecessors, s.outcomes[k].job, s.outcomes[j].job)
  {
    assert OutcomeExplained(schedule, s, k);
    var p :| p in schedule.predecessors[s.outcomes[k].job] && p in UnsuccessfulIn(s.outcomes[..k]);
    j :| 0 <= j < k && !s.outcomes[..k][j].status.Completed? && s.outcomes[..k][j].job == p;
    assert s.outcomes[j] == s.outcomes[..k][j];
  }

  lemma FailureFurther(schedule: Schedule, s: State, job: string, path: seq<string>)
    requires ReachesFailure(schedule, s, path) && Edge(schedule.predecessors, job, path[0])
    ensures ReachesFailure(schedule, s, [job] + path)
  {
    hide HasOutcome, Edge;
    var longer := [job] + path;
    forall i | 0 < i < |longer| ensures Edge(schedule.predecessors, longer[i - 1], longer[i]) {
      if i > 1 {
        assert Edge(schedule.predecessors, path[i - 1 - 1], path[i - 1]);
      }
    }
  }

  lemma OutcomeWhy(schedule: Schedule, s: State, k: nat)
    requires Consistent(schedule, s) && k < |s.outcomes| && s.outcomes[k].job in schedule.predecessors
    ensures s.outcomes[k].status.Skipped? || PredecessorsCompleted(schedule, s.completed, s.outcomes[k].job)
    ensures s.completed !! s.unsuccessful
    ensures !s.outcomes[k].status.Completed? ==> s.outcomes[k].job in s.unsuccessful
  {
    hide WithinLimits, ValidSchedule, PlacesPositive;
    assert OutcomeExplained(schedule, s, k);
  }

  /** Whatever waits for a job that came to nothing is skipped. */
  lemma WaiterIsSkipped(schedule: Schedule, s: State, job: string, p: string)
    requires Consistent(schedule, s) && Finished(s)
    requires Edge(schedule.predecessors, job, p) && p in s.unsuccessful
    ensures job in s.unsuccessful && HasOutcome(s, job, Skipped)
  {
    hide Consistent;
    OneOutcomeEach(schedule, s);
    var k :| 0 <= k < |s.outcomes| && s.outcomes[k].job == job;
    OutcomeWhy(schedule, s, k);
    assert s.outcomes[k] == Outcome(job, s.outcomes[k].status);
  }

  lemma {:induction false} FailureSpreads(schedule: Schedule, s: State, path: seq<string>)
    requires Consistent(schedule, s) && Finished(s)
    requires path != [] && IsWalk(schedule.predecessors, path) && path[|path| - 1] in s.unsuccessful
    ensures path[0] in s.unsuccessful
    ensures |path| >= 2 ==> HasOutcome(s, path[0], Skipped)
    decreases |path|
  {
    hide Consistent, HasOutcome;
    if |path| >= 2 {
      assert Edge(schedule.predecessors, path[1 - 1], path[1]);
      forall i | 0 < i < |path[1..]| ensures Edge(schedule.predecessors, path[1..][i - 1], path[1..][i]) {
        assert Edge(schedule.predecessors, path[i + 1 - 1], path[i + 1]);
      }
      FailureSpreads(schedule, s, path[1..]);
      WaiterIsSkipped(schedule, s, path[0], path[1]);
    }
  }

  lemma FailedIsUnsuccessful(schedule: Schedule, s: State, job: string)
    requires Consistent(schedule, s) && HasOutcome(s, job, Failed)
    ensures job in s.unsuccessful
  {
    hide WithinLimits, Acyclic, Explained;
    var k :| 0 <= k < |s.outcomes| && s.outcomes[k] == Outcome(job, Failed);
    assert s.outcomes[k].job in UnsuccessfulIn(s.outcomes);
  }

  /** Without a signal, a job is SKIPPED exactly when some transitive active predecessor FAILED. */
  lemma SkippedExactlyWhen(schedule: Schedule, s: State, job: string)
    requires Consistent(schedule, s) && Finished(s) && !s.stopped
    ensures HasOutcome(s, job, Skipped) <==> exists path :: ReachesFailure(schedule, s, path) && path[0] == job
  {
    hide Consistent;
    OneOutcomeEach(schedule, s);
    if k :| 0 <= k < |s.outcomes| && s.outcomes[k] == Outcome(job, Skipped) {
      var path := SkipHasFailure(schedule, s, k);
    }
    if path :| ReachesFailure(schedule, s, path) && path[0] == job {
      FailedIsUnsuccessful(schedule, s, path[|path| - 1]);
      FailureSpreads(schedule, s, path);
    }
  }

  /** Each active job has one outcome, and nothing else has any. */
  ghost predicate IsDecided(schedule: Schedule, s: State) {
    && (forall job :: job in schedule.predecessors ==> HasSomeOutcome(s, job))
    && (forall k :: 0 <= k < |s.outcomes| ==> s.outcomes[k].job in schedule.predecessors)
    && (forall i, j :: 0 <= i < j < |s.outcomes| ==> s.outcomes[i].job != s.outcomes[j].job)
  }

  ghost predicate HasSomeOutcome(s: State, job: string) {
    exists k :: 0 <= k < |s.outcomes| && s.outcomes[k].job == job
  }

  ghost predicate WaitsForFailure(schedule: Schedule, s: State, job: string) {
    exists path :: ReachesFailure(schedule, s, path) && path[0] == job
  }

  /** How every cycle ends: one outcome each, and, unless a signal came, SKIPPED just for a failure waited for. */
  lemma CycleEnds(schedule: Schedule, s: State)
    requires Consistent(schedule, s) && Finished(s)
    ensures IsDecided(schedule, s)
    ensures !s.stopped ==> forall job :: HasOutcome(s, job, Skipped) <==> WaitsForFailure(schedule, s, job)
  {
    hide Consistent, ReachesFailure, HasOutcome;
    OneOutcomeEach(schedule, s);
    if !s.stopped {
      forall job ensures HasOutcome(s, job, Skipped) <==> WaitsForFailure(schedule, s, job) {
        SkippedExactlyWhen(schedule, s, job);
      }
    }
  }
}
