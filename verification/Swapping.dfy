/**
 Loading by swap on a database whose renames commit alone: the swap and its
 recovery in bauta/database/maintenance.py and bauta/database/dialects/oracle.py,
 and the order bauta/jobs/targets.py runs them in. Every statement is atomic;
 before any of them the process may die, and any of them may fail.
 */
module Swapping {
  import opened Wrappers

  /** A table's rows: `chunks` of the `total` that one load writes. */
  datatype Rows = Rows(load: nat, chunks: nat, total: nat)

  predicate IsWhole(rows: Rows) { rows.chunks == rows.total }

  predicate IsEmpty(rows: Rows) { rows.chunks == 0 }

  /** What becomes of one statement; a schedule of them says what becomes of all. */
  datatype Fault = Works | Fails | Dies

  /** How a call ends: it returns, it raises, or the process dies in it. */
  datatype Outcome = Returned | Raised | Died

  // ---------- Where a swap's renames leave the tables ----------

  /** The tables beside the three names a swap uses, and what the names hold
      after the first `k` of its renames, of a target `was` and a stage `loaded`. */
  ghost function Renamed(others: map<string, Rows>, target: string, stage: string, temp: string, was: Rows,
                         loaded: Rows, k: nat): map<string, Rows> {
    others + match k
             case 0 => map[target := was, stage := loaded]
             case 1 => map[target := was, temp := loaded]
             case 2 => map[stage := was, temp := loaded]
             case _ => map[target := loaded, stage := was]
  }

  ghost predicate AreNames(others: map<string, Rows>, target: string, stage: string, temp: string) {
    target != stage && stage != temp && target != temp && target !in others && stage !in others && temp !in others
  }

  /** A database between statements of swap jobs: the target in its place holding a
      whole load, or a swap's first or second rename behind it and both loads whole. */
  ghost predicate Recoverable(tables: map<string, Rows>, others: map<string, Rows>, target: string, stage: string,
                              temp: string) {
    && AreNames(others, target, stage, temp)
    && exists was: Rows, loaded: Rows, k: nat ::
         IsWhole(was) && k <= 2 && (k > 0 ==> IsWhole(loaded)) &&
             tables == Renamed(others, target, stage, temp, was, loaded, k)
  }

  /** Target and stage are present and the temporary name is free; the target holds one whole load. */
  ghost predicate Settled(tables: map<string, Rows>, others: map<string, Rows>, target: string, stage: string,
                          temp: string) {
    && AreNames(others, target, stage, temp)
    && target in tables && stage in tables && temp !in tables
    && IsWhole(tables[target]) && tables == others[target := tables[target]][stage := tables[stage]]
  }

  lemma SettledIsRecoverable(tables: map<string, Rows>, others: map<string, Rows>, target: string, stage: string,
                             temp: string)
    requires Settled(tables, others, target, stage, temp)
    ensures tables == Renamed(others, target, stage, temp, tables[target], tables[stage], 0)
    ensures Recoverable(tables, others, target, stage, temp)
  {
    assert tables == Renamed(others, target, stage, temp, tables[target], tables[stage], 0);
  }

  /** The load a reader of the target has, or will have once an interrupted swap is put right. */
  ghost function Served(tables: map<string, Rows>, target: string, temp: string): Option<Rows> {
    if target in tables then Some(tables[target]) else if temp in tables then Some(tables[temp]) else None
  }

  lemma RenamedServes(others: map<string, Rows>, target: string, stage: string, temp: string, was: Rows, loaded: Rows,
                      k: nat)
    requires AreNames(others, target, stage, temp)
    ensures Served(Renamed(others, target, stage, temp, was, loaded, k), target, temp) ==
            Some(if k <= 1 then was else loaded)
  {
  }

  /** One rename of a catalog. */
  ghost function Moved(tables: map<string, Rows>, from: string, to: string): map<string, Rows>
    requires from in tables
  {
    (tables - {from})[to := tables[from]]
  }

  lemma StepForward(others: map<string, Rows>, target: string, stage: string, temp: string, was: Rows, loaded: Rows,
                    k: nat)
    requires AreNames(others, target, stage, temp) && k <= 2
    ensures var (from, to) := Step(target, stage, temp, k);
            var tables := Renamed(others, target, stage, temp, was, loaded, k);
            && from in tables && to !in tables
            && Moved(tables, from, to) == Renamed(others, target, stage, temp, was, loaded, k + 1)
  {
  }

  lemma StepBack(others: map<string, Rows>, target: string, stage: string, temp: string, was: Rows, loaded: Rows,
                 k: nat)
    requires AreNames(others, target, stage, temp) && k <= 2
    ensures var (from, to) := Step(target, stage, temp, k);
            var tables := Renamed(others, target, stage, temp, was, loaded, k + 1);
            && to in tables && from !in tables
            && Moved(tables, to, from) == Renamed(others, target, stage, temp, was, loaded, k)
  {
  }

  /** With a later rename not undone, undoing an earlier one finds its name taken. */
  lemma StepBackRefused(others: map<string, Rows>, target: string, stage: string, temp: string, was: Rows, loaded: Rows)
    requires AreNames(others, target, stage, temp)
    ensures stage in Renamed(others, target, stage, temp, was, loaded, 2)
  {
  }

  /** _renameSteps: the stage out of the way, the target into its place, and the stage into the target's name. */
  function Step(target: string, stage: string, temp: string, k: nat): (string, string)
    requires k <= 2
  {
    match k
    case 0 => (stage, temp)
    case 1 => (target, stage)
    case 2 => (temp, target)
  }

  lemma NeverAllThree(tables: map<string, Rows>, others: map<string, Rows>, target: string, stage: string, temp: string)
    requires Recoverable(tables, others, target, stage, temp)
    ensures !(target in tables && stage in tables && temp in tables)
  {
  }

  lemma NothingToRecover(tables: map<string, Rows>, others: map<string, Rows>, target: string, stage: string,
                         temp: string)
    requires Recoverable(tables, others, target, stage, temp) && temp !in tables
    ensures Settled(tables, others, target, stage, temp)
  {
    var was: Rows, loaded: Rows, k: nat :|
      IsWhole(was) && k <= 2 && (k > 0 ==> IsWhole(loaded)) &&
          tables == Renamed(others, target, stage, temp, was, loaded, k);
    assert k == 0;
  }

  /** A missing target: the temporary table's rows are a load that completed, and make a target in its place. */
  lemma SwapFinishes(tables: map<string, Rows>, others: map<string, Rows>, target: string, stage: string, temp: string)
    requires Recoverable(tables, others, target, stage, temp) && target !in tables
    ensures temp in tables && stage in tables && IsWhole(tables[temp])
    ensures var moved := Moved(tables, temp, target);
            && Settled(moved, others, target, stage, temp) && Recoverable(moved, others, target, stage, temp)
            && moved[target] == tables[temp] && moved[stage] == tables[stage]
  {
    var was: Rows, loaded: Rows, k: nat :|
      IsWhole(was) && k <= 2 && (k > 0 ==> IsWhole(loaded)) &&
          tables == Renamed(others, target, stage, temp, was, loaded, k);
    assert k == 2;
    var moved := Moved(tables, temp, target);
    assert moved == others[target := loaded][stage := was];
    SettledIsRecoverable(moved, others, target, stage, temp);
  }

  /** A missing stage gets the temporary table back, and the target stays as it was. */
  lemma SwapIsUndone(tables: map<string, Rows>, others: map<string, Rows>, target: string, stage: string, temp: string)
    requires Recoverable(tables, others, target, stage, temp) && target in tables && stage !in tables
    ensures temp in tables
    ensures var moved := Moved(tables, temp, stage);
            && Settled(moved, others, target, stage, temp) && Recoverable(moved, others, target, stage, temp)
            && moved[stage] == tables[temp] && moved[target] == tables[target]
  {
    var was: Rows, loaded: Rows, k: nat :|
      IsWhole(was) && k <= 2 && (k > 0 ==> IsWhole(loaded)) &&
          tables == Renamed(others, target, stage, temp, was, loaded, k);
    assert k == 1;
    var moved := Moved(tables, temp, stage);
    assert moved == others[target := was][stage := loaded];
    SettledIsRecoverable(moved, others, target, stage, temp);
  }

  class Database {
    var tables: map<string, Rows>
    // What becomes of the statements still to come; none listed works.
    var faults: seq<Fault>

    constructor (tables: map<string, Rows>, faults: seq<Fault>)
      ensures this.tables == tables && this.faults == faults
    {
      this.tables, this.faults := tables, faults;
    }

    method Next() returns (fault: Fault)
      modifies this`faults
    {
      if faults == [] {
        return Works;
      }
      fault := faults[0];
      faults := faults[1..];
    }

    method Rename(from: string, to: string) returns (outcome: Outcome)
      modifies this
      ensures outcome.Returned? ==> from in old(tables) && to !in old(tables) && tables == Moved(old(tables), from, to)
      ensures !outcome.Returned? ==> tables == old(tables)
    {
      var fault := Next();
      if fault.Dies? {
        return Died;
      }
      if fault.Fails? || from !in tables || to in tables {
        return Raised;
      }
      tables := (tables - {from})[to := tables[from]];
      return Returned;
    }

    method TableExists(table: string) returns (outcome: Outcome, exist: bool)
      modifies this`faults
      ensures outcome.Returned? ==> exist == (table in tables)
    {
      var fault := Next();
      outcome, exist := if fault.Works? then Returned else if fault.Fails? then Raised else Died, table in tables;
    }

    /** A statement that gives a table other rows: a truncate, or a chunk's insert and its commit. */
    method Put(table: string, rows: Rows) returns (outcome: Outcome)
      modifies this
      ensures outcome.Returned? ==> table in old(tables) && tables == old(tables)[table := rows]
      ensures !outcome.Returned? ==> tables == old(tables)
    {
      var fault := Next();
      if fault.Dies? {
        return Died;
      }
      if fault.Fails? || table !in tables {
        return Raised;
      }
      tables := tables[table := rows];
      return Returned;
    }

    /** Oracle's swap: renames one at a time, undoing the ones that worked if one fails. */
    method Swap(target: string, stage: string, temp: string, ghost others: map<string, Rows>) returns (outcome: Outcome)
      requires Settled(tables, others, target, stage, temp) && IsWhole(tables[stage])
      modifies this
      ensures outcome.Returned? ==> tables == old(tables)[target := old(tables)[stage]][stage := old(tables)[target]]
      ensures !outcome.Returned? ==>
                exists k ::
                  && 0 <= k <= 2
                  && tables == Renamed(others, target, stage, temp, old(tables)[target], old(tables)[stage], k)
      ensures Served(tables, target, temp) in {Some(old(tables)[target]), Some(old(tables)[stage])}
      ensures if outcome.Returned? then Settled(tables, others, target, stage, temp)
              else Recoverable(tables, others, target, stage, temp)
    {
      hide Renamed, Moved, IsWhole, Served;
      ghost var before, loaded := tables[target], tables[stage];
      SettledIsRecoverable(tables, others, target, stage, temp);
      var done := 0;
      while done < 3
        invariant 0 <= done <= 3
        invariant tables == Renamed(others, target, stage, temp, before, loaded, done)
      {
        var (from, to) := Step(target, stage, temp, done);
        StepForward(others, target, stage, temp, before, loaded, done);
        outcome := Rename(from, to);
        RenamedServes(others, target, stage, temp, before, loaded, done);
        if outcome.Died? {
          return Died;
        }
        if outcome.Raised? {
          outcome := Undo(target, stage, temp, done, others, before, loaded);
          return;
        }
        done := done + 1;
      }
      SwappedIsSettled(others, target, stage, temp, before, loaded);
      RenamedServes(others, target, stage, temp, before, loaded, 3);
      return Returned;
    }

    /** The renames that worked, undone the last first; an undo that fails leaves the tables as they are. */
    method Undo(target: string, stage: string, temp: string, done: nat, ghost others: map<string, Rows>,
                ghost before: Rows, ghost loaded: Rows)
      returns (outcome: Outcome)
      requires AreNames(others, target, stage, temp) && IsWhole(before) && IsWhole(loaded)
      requires done <= 2 && tables == Renamed(others, target, stage, temp, before, loaded, done)
      modifies this
      ensures !outcome.Returned?
      ensures exists k :: 0 <= k <= 2 && tables == Renamed(others, target, stage, temp, before, loaded, k)
      ensures Served(tables, target, temp) in {Some(before), Some(loaded)}
      ensures Recoverable(tables, others, target, stage, temp)
    {
      hide Renamed, Moved, IsWhole, Served;
      var left := done;
      ghost var at := done;
      while left > 0
        invariant 0 <= left <= at <= done && at <= 2
        invariant tables == Renamed(others, target, stage, temp, before, loaded, at)
      {
        left := left - 1;
        var (from, to) := Step(target, stage, temp, left);
        StepBack(others, target, stage, temp, before, loaded, left);
        StepBackRefused(others, target, stage, temp, before, loaded);
        RenamedServes(others, target, stage, temp, before, loaded, at);
        var undone := Rename(to, from);
        if undone.Died? {
          return Died;
        }
        if undone.Returned? {
          at := left;
        }
      }
      RenamedServes(others, target, stage, temp, before, loaded, at);
      return Raised;
    }

    /** recoverInterruptedSwap: a missing target is given the temporary table, a missing stage gets it back. */
    method RecoverInterruptedSwap(target: string, stage: string, temp: string, ghost others: map<string, Rows>)
      returns (outcome: Outcome, refused: bool)
      requires Recoverable(tables, others, target, stage, temp)
      modifies this
      ensures Recoverable(tables, others, target, stage, temp)
      ensures Served(tables, target, temp) == Served(old(tables), target, temp)
      ensures outcome.Returned? ==> Settled(tables, others, target, stage, temp)
      // Finished where the target was missing, and undone where the stage was.
      ensures outcome.Returned? && target !in old(tables) ==> temp in old(tables) && tables[target] == old(tables)[temp]
      ensures outcome.Returned? && target in old(tables) ==> tables[target] == old(tables)[target]
      ensures outcome.Returned? && stage !in old(tables) ==> temp in old(tables) && tables[stage] == old(tables)[temp]
      // All three there is a state no swap leaves.
      ensures !refused
    {
      hide Recoverable, Settled, Moved;
      refused := false;
      NeverAllThree(tables, others, target, stage, temp);
      var exist;
      outcome, exist := TableExists(temp);
      if !outcome.Returned? {
        return;
      }
      if !exist {
        NothingToRecover(tables, others, target, stage, temp);
        return;
      }
      outcome, exist := TableExists(target);
      if !outcome.Returned? {
        return;
      }
      if !exist {
        SwapFinishes(tables, others, target, stage, temp);
        outcome := Rename(temp, target);
        return;
      }
      outcome, exist := TableExists(stage);
      if !outcome.Returned? {
        return;
      }
      if exist {
        return Raised, true;
      }
      SwapIsUndone(tables, others, target, stage, temp);
      outcome := Rename(temp, stage);
    }

    /** TableTarget.begin: recover first, then empty the stage. */
    method Begin(target: string, stage: string, temp: string, total: nat, load: nat, ghost others: map<string, Rows>)
      returns (outcome: Outcome)
      requires Recoverable(tables, others, target, stage, temp)
      modifies this
      ensures Recoverable(tables, others, target, stage, temp)
      ensures Served(tables, target, temp) == Served(old(tables), target, temp)
      ensures outcome.Returned? ==>
                Settled(tables, others, target, stage, temp) && tables[stage] == Rows(load, 0, total)
    {
      hide Recoverable;
      var refused;
      outcome, refused := RecoverInterruptedSwap(target, stage, temp, others);
      if !outcome.Returned? {
        return;
      }
      outcome := Put(stage, Rows(load, 0, total));
      SettledIsRecoverable(tables, others, target, stage, temp);
    }

    /** write: one more chunk in the stage. */
    method Write(target: string, stage: string, temp: string, ghost others: map<string, Rows>)
      returns (outcome: Outcome)
      requires Settled(tables, others, target, stage, temp)
      modifies this
      ensures Settled(tables, others, target, stage, temp) && tables[target] == old(tables)[target]
      ensures tables[stage] ==
              if outcome.Returned? then old(tables)[stage].(chunks := old(tables)[stage].chunks + 1)
              else old(tables)[stage]
    {
      var rows := tables[stage];
      outcome := Put(stage, rows.(chunks := rows.chunks + 1));
    }

    /** finish: swap, then, masking, empty the stage of what the target held. */
    method Finish(target: string, stage: string, temp: string, masked: bool, ghost others: map<string, Rows>)
      returns (outcome: Outcome)
      requires Settled(tables, others, target, stage, temp) && IsWhole(tables[stage])
      modifies this
      ensures Recoverable(tables, others, target, stage, temp)
      ensures Served(tables, target, temp) in {Some(old(tables)[target]), Some(old(tables)[stage])}
      ensures outcome.Returned? ==> Settled(tables, others, target, stage, temp) && tables[target] == old(tables)[stage]
      ensures outcome.Returned? && masked ==> IsEmpty(tables[stage])
      ensures outcome.Returned? && !masked ==> tables[stage] == old(tables)[target]
    {
      hide Recoverable, Renamed;
      outcome := Swap(target, stage, temp, others);
      if outcome.Returned? {
        SettledIsRecoverable(tables, others, target, stage, temp);
        if masked {
          var rows := tables[stage];
          outcome := Put(stage, rows.(chunks := 0));
          SettledIsRecoverable(tables, others, target, stage, temp);
        }
      }
    }

    /** One job's load, from begin to finish. */
    method Load(target: string, stage: string, temp: string, job: Job, ghost others: map<string, Rows>)
      returns (outcome: Outcome)
      requires Recoverable(tables, others, target, stage, temp)
      modifies this
      ensures Recoverable(tables, others, target, stage, temp)
      // However it ends, what was served still is, unless the whole of this load took its place.
      ensures Served(tables, target, temp) in {Served(old(tables), target, temp), Some(Whole(job))}
      ensures outcome.Returned? ==> Settled(tables, others, target, stage, temp) && tables[target] == Whole(job)
      ensures outcome.Returned? && job.masked ==> IsEmpty(tables[stage])
    {
      hide Recoverable;
      outcome := Begin(target, stage, temp, job.chunks, job.load, others);
      if !outcome.Returned? {
        return;
      }
      var written := 0;
      while written < job.chunks
        invariant 0 <= written <= job.chunks
        invariant Settled(tables, others, target, stage, temp) && tables[stage] == Rows(job.load, written, job.chunks)
        invariant Served(tables, target, temp) == Served(old(tables), target, temp)
      {
        outcome := Write(target, stage, temp, others);
        if !outcome.Returned? {
          SettledIsRecoverable(tables, others, target, stage, temp);
          return;
        }
        written := written + 1;
      }
      outcome := Finish(target, stage, temp, job.masked, others);
    }
  }

  datatype Job = Job(load: nat, chunks: nat, masked: bool)

  function Whole(job: Job): Rows {
    Rows(job.load, job.chunks, job.chunks)
  }

  /** What is served after some jobs: what was at first, with no job having returned, or the
      whole load of one of them, with no later job having returned. */
  ghost predicate ServesTheLatest(was: Option<Rows>, served: Option<Rows>, jobs: seq<Job>, outcomes: seq<Outcome>)
    requires |jobs| == |outcomes|
  {
    || (served == was && NoneReturned(outcomes, 0))
    || exists j :: 0 <= j < |jobs| && served == Some(Whole(jobs[j])) && NoneReturned(outcomes, j + 1)
  }

  ghost predicate NoneReturned(outcomes: seq<Outcome>, from: nat) {
    forall i :: from <= i < |outcomes| ==> !outcomes[i].Returned?
  }

  lemma OneMoreServed(was: Option<Rows>, served: Option<Rows>, jobs: seq<Job>, outcomes: seq<Outcome>,
                      job: Job, outcome: Outcome, now: Option<Rows>)
    requires |jobs| == |outcomes| && ServesTheLatest(was, served, jobs, outcomes)
    requires now in {served, Some(Whole(job))} && (outcome.Returned? ==> now == Some(Whole(job)))
    ensures ServesTheLatest(was, now, jobs + [job], outcomes + [outcome])
  {
    var n := |jobs|;
    assert (jobs + [job])[n] == job && NoneReturned(outcomes + [outcome], n + 1);
    if now == served && !outcome.Returned? {
      if served != was || !NoneReturned(outcomes, 0) {
        var j :| 0 <= j < n && served == Some(Whole(jobs[j])) && NoneReturned(outcomes, j + 1);
        assert (jobs + [job])[j] == jobs[j] && NoneReturned(outcomes + [outcome], j + 1);
      }
    }
  }

  /** What holds after each job: the tables can be put right, the latest whole load is served,
      and where the last job returned it is that job's, settled. */
  ghost predicate AfterJobs(was: map<string, Rows>, tables: map<string, Rows>, others: map<string, Rows>,
                            target: string, stage: string, temp: string, jobs: seq<Job>, outcomes: seq<Outcome>)
  {
    && |jobs| == |outcomes|
    && Recoverable(tables, others, target, stage, temp)
    && ServesTheLatest(Served(was, target, temp), Served(tables, target, temp), jobs, outcomes)
    && (jobs != [] && outcomes[|jobs| - 1].Returned? ==>
          var last := jobs[|jobs| - 1];
          && Settled(tables, others, target, stage, temp) && tables[target] == Whole(last)
          && (last.masked ==> IsEmpty(tables[stage])))
  }

  /** Any sequence of swap jobs, however many of them fail or die wherever: the target always
      comes back, and only ever holds what it did or one of the jobs' whole loads, the latest to complete. */
  method LoadAll(database: Database, target: string, stage: string, temp: string, jobs: seq<Job>,
                 ghost others: map<string, Rows>)
    returns (outcomes: seq<Outcome>)
    requires Recoverable(database.tables, others, target, stage, temp)
    modifies database
    ensures AfterJobs(old(database.tables), database.tables, others, target, stage, temp, jobs, outcomes)
  {
    hide Recoverable, Settled, Served, ServesTheLatest;
    outcomes := [];
    ghost var was := database.tables;
    NothingServed(Served(was, target, temp));
    for k := 0 to |jobs|
      invariant AfterJobs(was, database.tables, others, target, stage, temp, jobs[..k], outcomes)
    {
      ghost var before := Served(database.tables, target, temp);
      var outcome := database.Load(target, stage, temp, jobs[k], others);
      if outcome.Returned? {
        SettledHolds(database.tables, others, target, stage, temp);
      }
      OneMoreServed(Served(was, target, temp), before, jobs[..k], outcomes, jobs[k], outcome,
                    Served(database.tables, target, temp));
      outcomes := outcomes + [outcome];
      assert jobs[..k + 1] == jobs[..k] + [jobs[k]];
    }
    assert jobs[..|jobs|] == jobs;
  }

  lemma NothingServed(was: Option<Rows>)
    ensures ServesTheLatest(was, was, [], [])
  {
  }

  lemma SettledHolds(tables: map<string, Rows>, others: map<string, Rows>, target: string, stage: string, temp: string)
    requires Settled(tables, others, target, stage, temp)
    ensures target in tables && stage in tables && Served(tables, target, temp) == Some(tables[target])
  {
  }

  lemma SwappedIsSettled(others: map<string, Rows>, target: string, stage: string, temp: string, was: Rows,
                         loaded: Rows)
    requires AreNames(others, target, stage, temp) && IsWhole(was) && IsWhole(loaded)
    ensures Settled(Renamed(others, target, stage, temp, was, loaded, 3), others, target, stage, temp)
    ensures Renamed(others, target, stage, temp, was, loaded, 3) ==
            Renamed(others, target, stage, temp, was, loaded, 0)[target := loaded][stage := was]
  {
    assert Renamed(others, target, stage, temp, was, loaded, 3) == others[target := loaded][stage := was];
  }
}
