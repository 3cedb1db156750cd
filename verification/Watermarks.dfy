/**
 An incremental job across its runs (bauta/jobs/pipeline.py): each run reads
 what lies past the recorded watermark, less the lookback its query is written
 with, upserts it into the live table, and records the highest watermark it
 wrote once everything is written. Runs fail, are retried and die anywhere.
 */
module Watermarks {
  import opened Wrappers
  import opened Partitions

  /** A row as the source holds it now, with its watermark; NULL is past no bound. */
  datatype Row = Row(mark: Option<real>, content: int)

  /** An incremental upsert without a stage: the watermark its first run binds, how far behind the
      newest a row of its source may appear, how far behind its bound its query looks, and into how
      many slices of an integer key it is read at most: one is one stream. */
  datatype Job = Job(initial: real, late: real, lookback: real, count: nat)

  ghost predicate ValidJob(job: Job) {
    job.late >= 0.0 && job.lookback >= 0.0 && job.count >= 1
  }

  /** One attempt: what it bound, the points its slices are cut at, the rows each slice has read and not yet
      upserted, how far the source had got when the slice read them, and the highest watermark written. */
  datatype Attempt =
    Attempt(bound: real, points: seq<int>, left: map<nat, map<int, Row>>, asOf: map<nat, real>, high: Option<real>)

  datatype State =
    State(source: map<int, Row>, horizon: real, target: map<int, Row>, recorded: Option<real>, attempt: Option<Attempt>)

  datatype Event =
    | Appears(key: int, row: Row)
    | Disappears(key: int)
    | Begins(returned: map<int, Row>, count: nat)
    | Opens(slice: nat, rows: map<int, Row>)
    | Upserts(slice: nat, key: int)
    | Records
    | Ends

  /** The higher of two watermarks. */
  function LargerOf(a: Option<real>, b: Option<real>): (larger: Option<real>)
    ensures larger == a || larger == b
    ensures a.Some? ==> larger.Some? && a.value <= larger.value
    ensures b.Some? ==> larger.Some? && b.value <= larger.value
  {
    if b.Some? && (a.None? || b.value > a.value) then b else a
  }

  function SliceOfKey(points: seq<int>, key: int): nat {
    SliceOf(points, Number(key as real))
  }

  /** Where an attempt cuts its slices: by the least and the greatest key its query returns, and nowhere where
      it returns nothing or is read as one stream. */
  ghost function PointsFor(returned: map<int, Row>, count: nat): seq<int> {
    if count < 2 || returned.Keys == {} then []
    else SplitPoints(LeastOf(returned.Keys), GreatestOf(returned.Keys), count)
  }

  /** What the next attempt binds. */
  function Bound(job: Job, s: State): real {
    if s.recorded.Some? then s.recorded.value else job.initial
  }

  predicate Past(row: Row, bound: real) {
    row.mark.Some? && row.mark.value > bound
  }

  /** What the query returns: rows as they are, with every one past the bound less the lookback. */
  ghost predicate IsReturned(job: Job, s: State, bound: real, rows: map<int, Row>) {
    && (forall key :: key in rows ==> key in s.source && rows[key] == s.source[key])
    && (forall key :: key in s.source && Past(s.source[key], bound - job.lookback) ==> key in rows)
  }

  /** A slice's read: of those, its own. */
  ghost predicate IsRead(job: Job, s: State, points: seq<int>, slice: nat, bound: real, rows: map<int, Row>) {
    && (forall key :: key in rows ==>
        key in s.source && rows[key] == s.source[key] && SliceOfKey(points, key) == slice)
    && (forall key ::
          key in s.source && SliceOfKey(points, key) == slice && Past(s.source[key], bound - job.lookback) ==>
            key in rows)
  }

  ghost predicate CanHappen(job: Job, s: State, e: Event) {
    match e
    // A row appears, or changes, less than `late` behind the newest; where that is none, in watermark order.
    case Appears(key, row) => row.mark.Some? ==> row.mark.value > s.horizon - job.late
    case Disappears(key) => key in s.source
    // The bounds are read anew by every attempt; an automatic count may come to fewer slices than the most.
    case Begins(returned, count) =>
      s.attempt.None? && IsReturned(job, s, Bound(job, s), returned) && 1 <= count <= job.count
    case Opens(slice, rows) =>
      && s.attempt.Some? && slice <= |s.attempt.value.points| && slice !in s.attempt.value.left
      && IsRead(job, s, s.attempt.value.points, slice, s.attempt.value.bound, rows)
    case Upserts(slice, key) => s.attempt.Some? && slice in s.attempt.value.left && key in s.attempt.value.left[slice]
    case Records => s.attempt.Some? && IsComplete(s.attempt.value)
    case Ends => s.attempt.Some?
  }

  /** Every slice read and written. */
  ghost predicate IsComplete(attempt: Attempt) {
    forall slice: nat :: slice <= |attempt.points| ==> slice in attempt.left && attempt.left[slice] == map[]
  }

  ghost function After(job: Job, s: State, e: Event): State {
    match e
    case Appears(key, row) =>
      s.(source := s.source[key := row],
         horizon := if row.mark.Some? && row.mark.value > s.horizon then row.mark.value else s.horizon)
    case Disappears(key) => s.(source := s.source - {key})
    case Begins(returned, count) =>
      s.(attempt := Some(Attempt(Bound(job, s), PointsFor(returned, count), map[], map[], None)))
    case Opens(slice, rows) =>
      if s.attempt.None? then s
      else s.(attempt := Some(s.attempt.value.(left := s.attempt.value.left[slice := rows],
                                               asOf := s.attempt.value.asOf[slice := s.horizon])))
    case Upserts(slice, key) =>
      if s.attempt.None? || slice !in s.attempt.value.left || key !in s.attempt.value.left[slice] then s
      else
        var row := s.attempt.value.left[slice][key];
        s.(target := s.target[key := row],
           attempt := Some(s.attempt.value.(left := s.attempt.value.left[slice := s.attempt.value.left[slice] - {key}],
                                            high := LargerOf(s.attempt.value.high, row.mark))))
    case Records =>
      s.(recorded := if s.attempt.Some? && s.attempt.value.high.Some? then s.attempt.value.high else s.recorded,
         attempt := None)
    case Ends => s.(attempt := None)
  }

  ghost function Run(job: Job, s: State, events: seq<Event>): State {
    if events == [] then s else After(job, Run(job, s, events[..|events| - 1]), events[|events| - 1])
  }

  ghost predicate Possible(job: Job, s: State, events: seq<Event>) {
    events == [] || (Possible(job, s, events[..|events| - 1]) &&
                     CanHappen(job, Run(job, s, events[..|events| - 1]), events[|events| - 1]))
  }

  /** Before the job's first run. */
  ghost predicate Starts(s: State) {
    && s.recorded.None? && s.attempt.None?
    && forall key :: key in s.source && s.source[key].mark.Some? ==> s.source[key].mark.value <= s.horizon
  }

  predicate IsCopied(s: State, key: int) {
    key in s.source && key in s.target && s.target[key] == s.source[key]
  }

  /** A row past where the job began that the next run's query does not return. */
  predicate IsPassed(job: Job, s: State, key: int) {
    && key in s.source && Past(s.source[key], job.initial)
    && !Past(s.source[key], Bound(job, s) - job.lookback)
  }

  /** No row is lost: each row past where the job began is in the target as it is
      now, or the next run's query returns it. Without a lookback, every row at
      or below the recorded watermark is in the target. */
  ghost predicate NothingIsLost(job: Job, s: State) {
    forall key :: IsPassed(job, s, key) ==> IsCopied(s, key)
  }

  // ---------- Slices read close together ----------

  /** The source got no further than `spread` between the attempt's slices' reads. */
  ghost predicate ReadWithin(attempt: Attempt, spread: real) {
    forall p: nat, q: nat :: p in attempt.asOf && q in attempt.asOf ==> attempt.asOf[p] - attempt.asOf[q] <= spread
  }

  /** So it was of every attempt that recorded what it read. */
  ghost predicate AlwaysReadWithin(job: Job, s: State, events: seq<Event>, spread: real) {
    events == [] ||
    (&& AlwaysReadWithin(job, s, events[..|events| - 1], spread)
     && var before := Run(job, s, events[..|events| - 1]);
        events[|events| - 1].Records? && before.attempt.Some? ==> ReadWithin(before.attempt.value, spread))
  }

  /** A row that was there when a slice read the source where it had got to `asOf`. */
  predicate WasThere(job: Job, s: State, key: int, asOf: real) {
    && key in s.source && Past(s.source[key], job.initial)
    && !Past(s.source[key], asOf - job.late)
  }

  /** What an opened slice still owes: the rows it has to upsert are the source's own, unless they changed since. */
  ghost predicate OpenedKeeps(job: Job, s: State, slice: nat)
    requires s.attempt.Some? && slice in s.attempt.value.left && slice in s.attempt.value.asOf
  {
    var left, asOf, points := s.attempt.value.left[slice], s.attempt.value.asOf[slice], s.attempt.value.points;
    && asOf <= s.horizon && (s.recorded.Some? ==> s.recorded.value <= asOf)
    && (forall key :: key in left ==>
        SliceOfKey(points, key) == slice && (left[key].mark.Some? ==> left[key].mark.value <= asOf))
    && (forall key :: WasThere(job, s, key, asOf) && SliceOfKey(points, key) == slice ==>
          if key in left then left[key] == s.source[key] else IsCopied(s, key))
  }

  ghost predicate AttemptKeeps(job: Job, s: State)
    requires s.attempt.Some?
  {
    var attempt := s.attempt.value;
    && attempt.bound == Bound(job, s) && attempt.left.Keys == attempt.asOf.Keys
    && (forall slice :: slice in attempt.left ==> OpenedKeeps(job, s, slice))
    && (attempt.high.Some? ==> exists slice :: slice in attempt.asOf && attempt.high.value <= attempt.asOf[slice])
  }

  ghost predicate Invariant(job: Job, s: State) {
    && ValidJob(job) && job.late <= job.lookback
    && (forall key :: key in s.source && s.source[key].mark.Some? ==> s.source[key].mark.value <= s.horizon)
    && (s.recorded.Some? ==> s.recorded.value <= s.horizon)
    && NothingIsLost(job, s)
    && (s.attempt.Some? ==> AttemptKeeps(job, s))
  }

  lemma AppearsKeeps(job: Job, s: State, key: int, row: Row)
    requires Invariant(job, s) && CanHappen(job, s, Appears(key, row))
    ensures Invariant(job, After(job, s, Appears(key, row)))
  {
    hide SliceOfKey;
    var t := After(job, s, Appears(key, row));
    forall k | IsPassed(job, t, k) ensures IsCopied(t, k) {
      assert k != key;
      assert IsCopied(s, k);
    }
    if s.attempt.Some? {
      forall slice | slice in t.attempt.value.left ensures OpenedKeeps(job, t, slice) {
        assert OpenedKeeps(job, s, slice);
      }
    }
  }

  lemma DisappearsKeeps(job: Job, s: State, key: int)
    requires Invariant(job, s) && CanHappen(job, s, Disappears(key))
    ensures Invariant(job, After(job, s, Disappears(key)))
  {
    hide SliceOfKey;
    var t := After(job, s, Disappears(key));
    forall k | IsPassed(job, t, k) ensures IsCopied(t, k) {
      assert IsCopied(s, k);
    }
    if s.attempt.Some? {
      forall slice | slice in t.attempt.value.left ensures OpenedKeeps(job, t, slice) {
        assert OpenedKeeps(job, s, slice);
      }
    }
  }

  /** A slice opened before keeps what it owes as another opens. */
  lemma OpenedStays(job: Job, s: State, slice: nat, rows: map<int, Row>, p: nat)
    requires s.attempt.Some? && p != slice && p in s.attempt.value.left && p in s.attempt.value.asOf
    requires OpenedKeeps(job, s, p)
    ensures var t := After(job, s, Opens(slice, rows));
            t.attempt.Some? && p in t.attempt.value.left && p in t.attempt.value.asOf && OpenedKeeps(job, t, p)
  {
    hide SliceOfKey;
  }

  /** What a slice that opens owes: what it read, and beside that nothing that is not copied. */
  lemma OpenedNow(job: Job, s: State, slice: nat, rows: map<int, Row>)
    requires Invariant(job, s) && CanHappen(job, s, Opens(slice, rows))
    ensures var t := After(job, s, Opens(slice, rows));
            slice in t.attempt.value.left && slice in t.attempt.value.asOf && OpenedKeeps(job, t, slice)
  {
    hide SliceOfKey, OpenedKeeps;
    var t := After(job, s, Opens(slice, rows));
    forall k |
      k in s.source && SliceOfKey(t.attempt.value.points, k) == slice && Past(s.source[k], job.initial) && k !in rows
      ensures IsCopied(t, k)
    {
      assert IsPassed(job, s, k);
      assert IsCopied(s, k);
    }
    OpenedMeans(job, t, slice);
  }

  lemma OpenedMeans(job: Job, t: State, slice: nat)
    requires t.attempt.Some? && slice in t.attempt.value.left && slice in t.attempt.value.asOf
    requires var left, asOf := t.attempt.value.left[slice], t.attempt.value.asOf[slice];
             && asOf == t.horizon && (t.recorded.Some? ==> t.recorded.value <= asOf)
             && (forall key :: key in left ==>
                 key in t.source && left[key] == t.source[key] && SliceOfKey(t.attempt.value.points, key) == slice)
             && (forall key ::
                   key in t.source && SliceOfKey(t.attempt.value.points, key) == slice && key !in left &&
                     Past(t.source[key], job.initial) ==>
                       IsCopied(t, key))
             && forall key :: key in t.source && t.source[key].mark.Some? ==> t.source[key].mark.value <= t.horizon
    ensures OpenedKeeps(job, t, slice)
  {
    hide SliceOfKey;
  }

  lemma OpensKeeps(job: Job, s: State, slice: nat, rows: map<int, Row>)
    requires Invariant(job, s) && CanHappen(job, s, Opens(slice, rows))
    ensures Invariant(job, After(job, s, Opens(slice, rows)))
  {
    hide SliceOfKey, OpenedKeeps, IsRead;
    var t := After(job, s, Opens(slice, rows));
    forall k | IsPassed(job, t, k) ensures IsCopied(t, k) {
      assert IsPassed(job, s, k);
      assert IsCopied(s, k);
    }
    forall p | p in t.attempt.value.left ensures OpenedKeeps(job, t, p) {
      if p != slice {
        OpenedStays(job, s, slice, rows, p);
      } else {
        OpenedNow(job, s, slice, rows);
      }
    }
    if s.attempt.value.high.Some? {
      var p :| p in s.attempt.value.asOf && s.attempt.value.high.value <= s.attempt.value.asOf[p];
      assert p in t.attempt.value.asOf && t.attempt.value.asOf[p] == s.attempt.value.asOf[p];
    }
  }

  /** Upserting a row read earlier undoes no copy that the next runs would not make again. */
  lemma UpsertsUndoNothing(job: Job, s: State, slice: nat, key: int)
    requires Invariant(job, s) && CanHappen(job, s, Upserts(slice, key))
    ensures forall k :: IsPassed(job, s, k) ==> IsCopied(After(job, s, Upserts(slice, key)), k)
  {
    hide SliceOfKey;
    var t := After(job, s, Upserts(slice, key));
    assert OpenedKeeps(job, s, slice);
    forall k | IsPassed(job, s, k) ensures IsCopied(t, k) {
      assert IsCopied(s, k);
      if k == key {
        assert WasThere(job, s, k, s.attempt.value.asOf[slice]);
      }
    }
  }

  /** Each opened slice owes what it did, but for the row upserted. */
  lemma UpsertsOwe(job: Job, s: State, slice: nat, key: int, p: nat)
    requires s.attempt.Some? && slice in s.attempt.value.left && key in s.attempt.value.left[slice]
    requires p in s.attempt.value.left && p in s.attempt.value.asOf && OpenedKeeps(job, s, p)
    requires slice in s.attempt.value.asOf && OpenedKeeps(job, s, slice)
    ensures var t := After(job, s, Upserts(slice, key));
            t.attempt.Some? && p in t.attempt.value.left && p in t.attempt.value.asOf && OpenedKeeps(job, t, p)
  {
    hide SliceOfKey;
    assert SliceOfKey(s.attempt.value.points, key) == slice;
  }

  lemma UpsertsKeeps(job: Job, s: State, slice: nat, key: int)
    requires Invariant(job, s) && CanHappen(job, s, Upserts(slice, key))
    ensures Invariant(job, After(job, s, Upserts(slice, key)))
  {
    hide SliceOfKey, OpenedKeeps;
    var t := After(job, s, Upserts(slice, key));
    var attempt := s.attempt.value;
    UpsertsUndoNothing(job, s, slice, key);
    forall p | p in t.attempt.value.left ensures OpenedKeeps(job, t, p) {
      UpsertsOwe(job, s, slice, key, p);
    }
    var high, mark := t.attempt.value.high, attempt.left[slice][key].mark;
    if high.Some? {
      if high == mark {
        ReadIsBehind(job, s, slice, key);
        assert slice in t.attempt.value.asOf;
      } else {
        var p :| p in attempt.asOf && attempt.high.value <= attempt.asOf[p];
        assert p in t.attempt.value.asOf;
      }
    }
  }

  lemma ReadIsBehind(job: Job, s: State, slice: nat, key: int)
    requires s.attempt.Some? && slice in s.attempt.value.left && slice in s.attempt.value.asOf
    requires OpenedKeeps(job, s, slice) && key in s.attempt.value.left[slice]
    ensures var mark := s.attempt.value.left[slice][key].mark; mark.Some? ==> mark.value <= s.attempt.value.asOf[slice]
  {
  }

  lemma RecordsKeeps(job: Job, s: State, spread: real)
    requires Invariant(job, s) && CanHappen(job, s, Records)
    requires ReadWithin(s.attempt.value, spread) && job.late + spread <= job.lookback
    ensures Invariant(job, After(job, s, Records))
  {
    hide SliceOfKey;
    var t := After(job, s, Records);
    var attempt := s.attempt.value;
    if attempt.high.Some? {
      var p :| p in attempt.asOf && attempt.high.value <= attempt.asOf[p];
      assert OpenedKeeps(job, s, p);
      forall k | IsPassed(job, t, k) ensures IsCopied(t, k) {
        var q := SliceOfKey(attempt.points, k);
        SliceExists(attempt.points, k);
        assert q in attempt.left && attempt.left[q] == map[];
        assert OpenedKeeps(job, s, q);
        assert attempt.asOf[p] - attempt.asOf[q] <= spread;
        assert WasThere(job, s, k, attempt.asOf[q]);
        assert IsCopied(s, k);
      }
    } else {
      forall k | IsPassed(job, t, k) ensures IsCopied(t, k) {
        assert IsCopied(s, k);
      }
    }
  }

  lemma SliceExists(points: seq<int>, key: int)
    ensures SliceOfKey(points, key) <= |points|
  {
  }

  lemma RestKeeps(job: Job, s: State, e: Event)
    requires Invariant(job, s) && CanHappen(job, s, e) && (e.Begins? || e.Ends?)
    ensures Invariant(job, After(job, s, e))
  {
    hide PointsFor;
    var t := After(job, s, e);
    forall k | IsPassed(job, t, k) ensures IsCopied(t, k) {
      assert IsCopied(s, k);
    }
  }

  lemma StepKeeps(job: Job, s: State, e: Event, spread: real)
    requires Invariant(job, s) && CanHappen(job, s, e) && job.late + spread <= job.lookback
    requires e.Records? ==> ReadWithin(s.attempt.value, spread)
    ensures Invariant(job, After(job, s, e))
  {
    hide Invariant, After, CanHappen, ReadWithin;
    match e
    case Appears(key, row) => AppearsKeeps(job, s, key, row);
    case Disappears(key) => DisappearsKeeps(job, s, key);
    case Opens(slice, rows) => OpensKeeps(job, s, slice, rows);
    case Upserts(slice, key) => UpsertsKeeps(job, s, slice, key);
    case Records => RecordsKeeps(job, s, spread);
    case Begins(_, _) => RestKeeps(job, s, e);
    case Ends => RestKeeps(job, s, e);
  }

  lemma {:induction false} RunsKeep(job: Job, s: State, events: seq<Event>, spread: real)
    requires Starts(s) && Possible(job, s, events) && AlwaysReadWithin(job, s, events, spread)
    requires ValidJob(job) && job.late <= job.lookback && job.late + spread <= job.lookback
    ensures Invariant(job, Run(job, s, events))
  {
    hide Invariant, After, ReadWithin;
    if events == [] {
      StartsKeep(job, s);
    } else {
      var n := |events| - 1;
      RunsKeep(job, s, events[..n], spread);
      StepKeeps(job, Run(job, s, events[..n]), events[n], spread);
    }
  }

  lemma StartsKeep(job: Job, s: State)
    requires Starts(s) && ValidJob(job) && job.late <= job.lookback
    ensures Invariant(job, s)
  {
  }

  /** Whatever fails, dies or changes meanwhile, no run loses a row where the source gets no
      further between its slices' reads than the lookback reaches past how late a row may be. */
  lemma CloseReadsLoseNothing(job: Job, s: State, events: seq<Event>, spread: real)
    requires Starts(s) && Possible(job, s, events) && AlwaysReadWithin(job, s, events, spread)
    requires ValidJob(job) && job.late <= job.lookback && job.late + spread <= job.lookback
    ensures NothingIsLost(job, Run(job, s, events))
  {
    RunsKeep(job, s, events, spread);
  }

  // ---------- One stream ----------

  ghost predicate OnlyFirst(s: State) {
    s.attempt.Some? ==> s.attempt.value.points == [] && forall slice :: slice in s.attempt.value.asOf ==> slice == 0
  }

  lemma {:induction false} OneStreamReadsAtOnce(job: Job, s: State, events: seq<Event>)
    requires Starts(s) && Possible(job, s, events) && job.count < 2
    ensures AlwaysReadWithin(job, s, events, 0.0) && OnlyFirst(Run(job, s, events))
  {
    hide IsRead, IsReturned, IsComplete;
    if events != [] {
      OneStreamReadsAtOnce(job, s, events[..|events| - 1]);
    }
  }

  lemma NoEvents(job: Job, s: State)
    ensures Possible(job, s, []) && Run(job, s, []) == s
  {
  }

  lemma OneMore(job: Job, s: State, events: seq<Event>, e: Event)
    requires Possible(job, s, events) && CanHappen(job, Run(job, s, events), e)
    ensures Possible(job, s, events + [e])
    ensures Run(job, s, events + [e]) == After(job, Run(job, s, events), e)
  {
    hide CanHappen, After;
    assert (events + [e])[..|events|] == events;
  }

  /** A row that appears behind what one stream read, further than its next query looks. */
  lemma LateRowIsLost(job: Job) returns (s: State, events: seq<Event>)
    requires ValidJob(job) && job.late > job.lookback
    ensures Starts(s) && Possible(job, s, events) && AlwaysReadWithin(job, s, events, 0.0)
    ensures !NothingIsLost(job, Run(job, s, events))
  {
    hide Run, Possible, AlwaysReadWithin, PointsFor;
    var newest := job.initial + job.lookback + 1.0;
    var first, second := Row(Some(newest), 0), Row(Some(job.initial + 1.0), 0);
    var rows := map[0 := first];
    s := State(rows, newest, map[], None, None);
    OneStreamBegins(rows);
    NoEvents(job, s);
    OneMore(job, s, [], Begins(rows, 1));
    events := [] + [Begins(rows, 1)];
    var a := After(job, s, Begins(rows, 1));
    assert IsRead(job, a, [], 0, job.initial, rows);
    OneMore(job, s, events, Opens(0, rows));
    events := events + [Opens(0, rows)];
    var b := After(job, a, Opens(0, rows));
    OneMore(job, s, events, Appears(1, second));
    events := events + [Appears(1, second)];
    var c := After(job, b, Appears(1, second));
    assert 0 in c.attempt.value.left[0];
    OneMore(job, s, events, Upserts(0, 0));
    events := events + [Upserts(0, 0)];
    var d := After(job, c, Upserts(0, 0));
    assert d.attempt.value.left[0] == map[];
    NothingRecorded(job, s, events, 0.0);
    OneMore(job, s, events, Records);
    OneMoreWithin(job, s, events, Records, 0.0);
    events := events + [Records];
    var e := After(job, d, Records);
    assert e.recorded == first.mark && IsPassed(job, e, 1) && !IsCopied(e, 1);
  }

  lemma OneStreamBegins(returned: map<int, Row>)
    ensures PointsFor(returned, 1) == []
  {
  }

  // ---------- Slices ----------

  /** Keys 0 and 1 are cut in two, however many slices are asked for. */
  lemma TwoKeysAreTwoSlices(returned: map<int, Row>, count: nat)
    requires returned.Keys == {0, 1} && count >= 2
    ensures PointsFor(returned, count) == [1]
    ensures SliceOfKey([1], 0) == 0 && SliceOfKey([1], 1) == 1
  {
    hide SplitPoints;
    assert LeastOf({0, 1}) == 0 && GreatestOf({0, 1}) == 1;
    SplitPointsAre(0, 1, count);
    if count == 2 {
      assert EveryShare(0, 2, 2) == [1];
    } else {
      assert EveryValue(0, 2) == [1];
    }
  }

  /** Both rows as they are when the attempt begins. */
  function Before(job: Job): Row {
    Row(Some(job.initial + 1.0), 1)
  }

  /** Two rows are there and read in two slices: the first is read, then it changes, and the other moves on. */
  lemma BothRowsChange(job: Job, spread: real, first: Row, second: Row) returns (s: State, events: seq<Event>, c: State)
    requires ValidJob(job) && job.count >= 2 && spread >= 0.0 && job.late + spread > job.lookback
    requires first.mark == Some(job.initial + 1.0 + (job.late + spread - job.lookback) / 2.0)
    requires second.mark == Some(job.initial + 1.0 + job.late + spread)
    ensures Starts(s) && Possible(job, s, events) && Run(job, s, events) == c
    ensures forall k :: 0 <= k < |events| ==> !events[k].Records?
    ensures c.source == map[0 := first, 1 := second] && c.target == map[] && c.recorded.None?
    ensures c.horizon == job.initial + 1.0 + job.late + spread
    ensures c.attempt == Some(Attempt(job.initial, [1], map[0 := map[0 := Before(job)]],
                                      map[0 := job.initial + 1.0 + job.late], None))
  {
    hide SliceOfKey, Run, Possible, PointsFor;
    var was := Before(job);
    var rows, mine := map[0 := was, 1 := was], map[0 := was];
    assert rows.Keys == {0, 1};
    TwoKeysAreTwoSlices(rows, job.count);
    s := State(rows, job.initial + 1.0 + job.late, map[], None, None);
    NoEvents(job, s);
    OneMore(job, s, [], Begins(rows, job.count));
    events := [] + [Begins(rows, job.count)];
    var a := After(job, s, Begins(rows, job.count));
    assert IsRead(job, a, [1], 0, job.initial, mine);
    OneMore(job, s, events, Opens(0, mine));
    events := events + [Opens(0, mine)];
    var b := After(job, a, Opens(0, mine));
    OneMore(job, s, events, Appears(0, first));
    events := events + [Appears(0, first)];
    c := After(job, b, Appears(0, first));
    OneMore(job, s, events, Appears(1, second));
    events := events + [Appears(1, second)];
    c := After(job, c, Appears(1, second));
    assert c.source == map[0 := first, 1 := second];
  }

  lemma SecondSliceReads(job: Job, c: State, rows: map<int, Row>)
    requires c.source.Keys == {0, 1} && rows == map[1 := c.source[1]]
    ensures IsRead(job, c, [1], 1, job.initial, rows)
  {
    hide SliceOfKey;
    TwoKeysAreTwoSlices(c.source, 2);
  }

  /** The second slice reads the row that moved on, and both slices are written. */
  lemma BothSlicesWrite(job: Job, s: State, start: seq<Event>, c: State, second: Row)
    returns (events: seq<Event>, f: State)
    requires Possible(job, s, start) && Run(job, s, start) == c
    requires forall k :: 0 <= k < |start| ==> !start[k].Records?
    requires c.source.Keys == {0, 1} && c.source[1] == second && c.recorded.None?
    requires second.mark.Some? && second.mark.value > job.initial + 1.0
    requires c.attempt.Some? && c.attempt.value.bound == job.initial && c.attempt.value.points == [1]
    requires c.attempt.value.left == map[0 := map[0 := Before(job)]] && c.attempt.value.high.None?
    requires exists first :: c.attempt.value.asOf == map[0 := first]
    ensures Possible(job, s, events) && Run(job, s, events) == f
    ensures forall k :: 0 <= k < |events| ==> !events[k].Records?
    ensures f.source == c.source && f.recorded.None? && 0 in f.target && f.target[0] == Before(job)
    ensures f.attempt.Some? && IsComplete(f.attempt.value) && f.attempt.value.high == second.mark
    ensures f.attempt.value.asOf == c.attempt.value.asOf[1 := c.horizon]
  {
    hide SliceOfKey, Run, Possible, IsRead, IsReturned, PointsFor, Bound;
    var rows := map[1 := second];
    SecondSliceReads(job, c, rows);
    OneMore(job, s, start, Opens(1, rows));
    events := start + [Opens(1, rows)];
    var d := After(job, c, Opens(1, rows));
    OneMore(job, s, events, Upserts(0, 0));
    events := events + [Upserts(0, 0)];
    var e := After(job, d, Upserts(0, 0));
    OneMore(job, s, events, Upserts(1, 1));
    events := events + [Upserts(1, 1)];
    f := After(job, e, Upserts(1, 1));
    assert f.attempt.value.left[0] == map[] && f.attempt.value.left[1] == map[];
  }

  /** Sliced, a job can lose a row for good: one slice reads, a row of it changes, and a slice that
      reads further on, within `spread`, has the run record past that row. */
  lemma SlicesLoseARow(job: Job, spread: real) returns (s: State, events: seq<Event>)
    requires ValidJob(job) && job.count >= 2 && spread >= 0.0 && job.late + spread > job.lookback
    ensures Starts(s) && Possible(job, s, events) && AlwaysReadWithin(job, s, events, spread)
    ensures !NothingIsLost(job, Run(job, s, events))
  {
    hide SliceOfKey, Run, Possible, AlwaysReadWithin, ReadWithin, Starts;
    var first := Row(Some(job.initial + 1.0 + (job.late + spread - job.lookback) / 2.0), 0);
    var second := Row(Some(job.initial + 1.0 + job.late + spread), 0);
    var c;
    s, events, c := BothRowsChange(job, spread, first, second);
    var f;
    events, f := BothSlicesWrite(job, s, events, c, second);
    NothingRecorded(job, s, events, spread);
    TwoReadWithin(f.attempt.value, job.initial + 1.0 + job.late, c.horizon, spread);
    OneMore(job, s, events, Records);
    OneMoreWithin(job, s, events, Records, spread);
    events := events + [Records];
    var g := After(job, f, Records);
    assert g.recorded == second.mark && IsPassed(job, g, 0) && !IsCopied(g, 0);
  }

  lemma TwoReadWithin(attempt: Attempt, first: real, second: real, spread: real)
    requires first <= second <= first + spread && attempt.asOf == map[0 := first, 1 := second]
    ensures ReadWithin(attempt, spread)
  {
  }

  lemma OneMoreWithin(job: Job, s: State, events: seq<Event>, e: Event, spread: real)
    requires AlwaysReadWithin(job, s, events, spread)
    requires e.Records? && Run(job, s, events).attempt.Some? ==> ReadWithin(Run(job, s, events).attempt.value, spread)
    ensures AlwaysReadWithin(job, s, events + [e], spread)
  {
    assert (events + [e])[..|events|] == events;
  }

  lemma {:induction false} NothingRecorded(job: Job, s: State, events: seq<Event>, spread: real)
    requires forall k :: 0 <= k < |events| ==> !events[k].Records?
    ensures AlwaysReadWithin(job, s, events, spread)
  {
    if events != [] {
      NothingRecorded(job, s, events[..|events| - 1], spread);
    }
  }

  // ---------- Exactly when nothing is lost ----------

  /** Whether no run of the job, whatever its source does and wherever it fails, ever loses a row. */
  ghost predicate NeverLoses(job: Job) {
    forall s: State, events: seq<Event> :: Starts(s) && Possible(job, s, events) ==>
        NothingIsLost(job, Run(job, s, events))
  }

  /** The same of runs between whose slices' reads the source gets no further than `spread`. */
  ghost predicate NeverLosesWithin(job: Job, spread: real) {
    forall s: State, events: seq<Event> ::
      Starts(s) && Possible(job, s, events) && AlwaysReadWithin(job, s, events, spread) ==>
        NothingIsLost(job, Run(job, s, events))
  }

  /** A job loses no row exactly where its query looks back as far as a row may be late and,
      read as slices, as far as the source gets between their reads beside. */
  lemma LosesNothingExactlyWithin(job: Job, spread: real)
    requires ValidJob(job) && spread >= 0.0
    ensures NeverLosesWithin(job, spread) <==>
            job.late + (if job.count < 2 then 0.0 else spread) <= job.lookback
  {
    hide NothingIsLost, Possible, Run, Starts, AlwaysReadWithin, OnlyFirst;
    var needed := if job.count < 2 then 0.0 else spread;
    if job.late + needed <= job.lookback {
      forall s: State, events: seq<Event> |
        Starts(s) && Possible(job, s, events) && AlwaysReadWithin(job, s, events, spread)
        ensures NothingIsLost(job, Run(job, s, events))
      {
        if job.count < 2 {
          OneStreamReadsAtOnce(job, s, events);
        }
        CloseReadsLoseNothing(job, s, events, needed);
      }
    } else if job.count < 2 {
      var s, events := LateRowIsLost(job);
      WiderWithin(job, s, events, 0.0, spread);
    } else {
      var s, events := SlicesLoseARow(job, spread);
    }
  }

  lemma {:induction false} WiderWithin(job: Job, s: State, events: seq<Event>, spread: real, wider: real)
    requires AlwaysReadWithin(job, s, events, spread) && spread <= wider
    ensures AlwaysReadWithin(job, s, events, wider)
  {
    if events != [] {
      WiderWithin(job, s, events[..|events| - 1], spread, wider);
    }
  }

  /** With nothing said of how far apart slices read, a job loses no row exactly where it is read
      as one stream and its query looks back as far as a row may be late. */
  lemma LosesNothingExactlyAsOneStream(job: Job)
    requires ValidJob(job)
    ensures NeverLoses(job) <==> job.count < 2 && job.late <= job.lookback
  {
    hide NothingIsLost, Possible, Run, Starts, AlwaysReadWithin, OnlyFirst;
    if job.count < 2 {
      LosesNothingExactlyWithin(job, 0.0);
      forall s: State, events: seq<Event> | Starts(s) && Possible(job, s, events)
        ensures AlwaysReadWithin(job, s, events, 0.0)
      {
        OneStreamReadsAtOnce(job, s, events);
      }
    } else {
      var s, events := SlicesLoseARow(job, job.lookback + 1.0);
    }
  }
}
