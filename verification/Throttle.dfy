/**
 The read limit a connection's readers share (bauta/jobs/throttle.py): a
 schedule under one lock, and how many rows any stretch of time lets through.
 Time and rates are exact reals here.
 */
module Throttle {
  import opened Wrappers

  const BURST_SECONDS: real := 1.0

  /** One charge: the clock as read under the lock, the rows, and when they are paid for. */
  datatype Charge = Charge(now: real, rows: int, paidUntil: real)

  /** One reader's call: it starts before the lock is had and returns once it has slept. */
  datatype Call = Call(started: real, charge: Charge, returned: real)

  function Later(a: real, b: real): real {
    if a < b then b else a
  }

  /** The seconds a chunk's rows take at the rate. */
  function Share(rows: int, rowsPerSecond: real): real
    requires rowsPerSecond > 0.0
  {
    rows as real / rowsPerSecond
  }

  /** Where the schedule stands: None is the minus infinity it starts at. */
  function Scheduled(charges: seq<Charge>): Option<real> {
    if charges == [] then None else Some(charges[|charges| - 1].paidUntil)
  }

  /** The charges one limit made, in the order it held the lock, on a clock that never goes back. */
  ghost predicate Schedule(rowsPerSecond: real, charges: seq<Charge>) {
    rowsPerSecond > 0.0 && forall i :: 0 <= i < |charges| ==> Follows(rowsPerSecond, charges, i)
  }

  ghost predicate Follows(rowsPerSecond: real, charges: seq<Charge>, i: int)
    requires rowsPerSecond > 0.0 && 0 <= i < |charges|
  {
    var earliest := charges[i].now - BURST_SECONDS;
    && charges[i].rows > 0
    && (i > 0 ==> charges[i - 1].now <= charges[i].now)
    && charges[i].paidUntil == (if i == 0 then earliest else Later(charges[i - 1].paidUntil, earliest))
                               + Share(charges[i].rows, rowsPerSecond)
  }

  class ReadLimit {
    const rowsPerSecond: real
    var next: Option<real>
    ghost var charges: seq<Charge>

    ghost predicate Valid()
      reads this
    {
      rowsPerSecond > 0.0 && Schedule(rowsPerSecond, charges) && next == Scheduled(charges)
    }

    constructor (rowsPerSecond: real)
      requires rowsPerSecond > 0.0
      ensures Valid() && charges == [] && this.rowsPerSecond == rowsPerSecond
    {
      this.rowsPerSecond := rowsPerSecond;
      next := None;
      charges := [];
    }

    /** Charges `rows` and returns the seconds the caller sleeps. `now` is the
        clock as the lock's holder reads it. */
    method Take(rows: int, now: real) returns (delay: real)
      requires Valid()
      requires charges != [] ==> charges[|charges| - 1].now <= now
      modifies this
      ensures Valid()
      ensures rows <= 0 ==> delay == 0.0 && charges == old(charges) && next == old(next)
      ensures rows > 0 ==> exists paidUntil :: charges == old(charges) + [Charge(now, rows, paidUntil)] &&
                                               delay >= 0.0 && now + delay == Later(now, paidUntil)
      // The schedule never moves back.
      ensures old(next).Some? ==> next.Some? && next.value >= old(next).value
    {
      if rows <= 0 {
        return 0.0;
      }
      var earliest := now - BURST_SECONDS;
      var scheduled := match next case None => earliest case Some(paid) => Later(paid, earliest);
      var owed := Share(rows, rowsPerSecond);
      var paidUntil := scheduled + owed;
      ShareIsPositive(rows, rowsPerSecond);
      next := Some(paidUntil);
      charges := charges + [Charge(now, rows, paidUntil)];
      forall i | 0 <= i < |charges| ensures Follows(rowsPerSecond, charges, i) {
        assert i < |charges| - 1 ==> Follows(rowsPerSecond, old(charges), i);
      }
      delay := paidUntil - now;
      if delay <= 0.0 {
        return 0.0;
      }
    }
  }

  lemma ShareIsPositive(rows: int, rowsPerSecond: real)
    requires rows > 0 && rowsPerSecond > 0.0
    ensures Share(rows, rowsPerSecond) > 0.0
    ensures rowsPerSecond * Share(rows, rowsPerSecond) == rows as real
  {
  }

  /** Calls of any number of readers, in the order they held the lock. */
  ghost predicate Calls(rowsPerSecond: real, calls: seq<Call>) {
    && Schedule(rowsPerSecond, Charges(calls))
    && forall i :: 0 <= i < |calls| ==>
         && calls[i].started <= calls[i].charge.now
         && Later(calls[i].charge.now, calls[i].charge.paidUntil) <= calls[i].returned
  }

  ghost function Charges(calls: seq<Call>): (charges: seq<Charge>)
    ensures |charges| == |calls|
    ensures forall i :: 0 <= i < |calls| ==> charges[i] == calls[i].charge
  {
    seq(|calls|, i requires 0 <= i < |calls| => calls[i].charge)
  }

  /** The rows of the calls started at or after `from` and returned by `until`. */
  function RowsBetween(calls: seq<Call>, from: real, until: real): int {
    if calls == [] then 0
    else
      var last := calls[|calls| - 1];
      RowsBetween(calls[..|calls| - 1], from, until) + if from <= last.started && last.returned <= until
          then last.charge.rows else 0
  }

  /** The rows of the calls started at or after `from`, whenever they returned. */
  function RowsSince(calls: seq<Call>, from: real): int {
    if calls == [] then 0
    else RowsSince(calls[..|calls| - 1], from) + if from <= calls[|calls| - 1].started
        then calls[|calls| - 1].charge.rows else 0
  }

  lemma RatesTimesSums(rate: real, a: real, b: real)
    ensures rate * (a + b) == rate * a + rate * b
  {
  }

  lemma RateKeepsOrder(rate: real, a: real, b: real)
    requires rate > 0.0 && a <= b
    ensures rate * a <= rate * b
  {
  }

  lemma CallsPrefix(rate: real, calls: seq<Call>)
    requires Calls(rate, calls) && calls != []
    ensures Calls(rate, calls[..|calls| - 1])
  {
    var before := calls[..|calls| - 1];
    forall i | 0 <= i < |before| ensures Follows(rate, Charges(before), i) {
      assert Follows(rate, Charges(calls), i);
    }
  }

  /** Those rows' share of the rate, in seconds of the schedule. */
  ghost function SecondsSince(rate: real, calls: seq<Call>, from: real): real
    requires rate > 0.0
  {
    if calls == [] then 0.0
    else
      var last := calls[|calls| - 1];
      SecondsSince(rate, calls[..|calls| - 1], from) + if from <= last.started then Share(last.charge.rows, rate)
          else 0.0
  }

  lemma {:induction false} SecondsAreRows(rate: real, calls: seq<Call>, from: real)
    requires Calls(rate, calls)
    ensures RowsSince(calls, from) as real == rate * SecondsSince(rate, calls, from)
  {
    if calls != [] {
      var before, last := calls[..|calls| - 1], calls[|calls| - 1];
      CallsPrefix(rate, calls);
      SecondsAreRows(rate, before, from);
      assert Follows(rate, Charges(calls), |calls| - 1);
      ShareIsPositive(last.charge.rows, rate);
      RatesTimesSums(rate, SecondsSince(rate, before, from), Share(last.charge.rows, rate));
    }
  }

  /** What has been charged since `from` is paid for by the schedule, and no sooner than a burst before `from`. */
  lemma {:induction false} ChargedSince(rate: real, calls: seq<Call>, from: real)
    requires Calls(rate, calls) && calls != []
    ensures SecondsSince(rate, calls, from) == 0.0 ||
            SecondsSince(rate, calls, from) <= calls[|calls| - 1].charge.paidUntil - from + BURST_SECONDS
  {
    var n := |calls| - 1;
    assert Follows(rate, Charges(calls), n);
    ShareIsPositive(calls[n].charge.rows, rate);
    if n > 0 {
      CallsPrefix(rate, calls);
      ChargedSince(rate, calls[..n], from);
      assert Charges(calls)[n - 1] == calls[..n][n - 1].charge;
    }
  }

  lemma {:induction false} BetweenIsWithinSince(rate: real, calls: seq<Call>, from: real, until: real)
    requires Calls(rate, calls)
    ensures 0 <= RowsBetween(calls, from, until) <= RowsSince(calls, from)
  {
    if calls != [] {
      CallsPrefix(rate, calls);
      BetweenIsWithinSince(rate, calls[..|calls| - 1], from, until);
      assert Follows(rate, Charges(calls), |calls| - 1);
    }
  }

  lemma RowsWithin(rate: real, between: int, since: int, seconds: real, limit: real)
    requires rate > 0.0 && between <= since && since as real == rate * seconds && seconds <= limit
    ensures between as real <= rate * limit
  {
    RateKeepsOrder(rate, seconds, limit);
  }

  /** Any stretch of time lets through no more than its share of the rate and one burst. */
  lemma {:induction false} RateIsKept(rate: real, calls: seq<Call>, from: real, until: real)
    requires rate > 0.0 && from <= until
    requires Calls(rate, calls)
    ensures RowsBetween(calls, from, until) as real <= rate * (until - from + BURST_SECONDS)
  {
    if calls == [] {
      RowsWithin(rate, 0, 0, 0.0, until - from + BURST_SECONDS);
    } else if calls[|calls| - 1].returned <= until {
      BetweenIsWithinSince(rate, calls, from, until);
      ChargedSince(rate, calls, from);
      SecondsAreRows(rate, calls, from);
      RowsWithin(rate, RowsBetween(calls, from, until), RowsSince(calls, from), SecondsSince(rate, calls, from),
                 until - from + BURST_SECONDS);
    } else {
      CallsPrefix(rate, calls);
      RateIsKept(rate, calls[..|calls| - 1], from, until);
    }
  }

  /** The burst is needed: rows read at once after a pause exceed the rate alone. */
  lemma BurstIsReached(rate: real, rows: int)
    requires rate > 0.0 && rows > 0 && rows as real <= rate
    ensures var call := Call(0.0, Charge(0.0, rows, 0.0 - BURST_SECONDS + Share(rows, rate)), 0.0);
            Calls(rate, [call]) && RowsBetween([call], 0.0, 0.0) == rows
  {
    ShareIsPositive(rows, rate);
    var share := Share(rows, rate);
    if share > 1.0 {
      RateKeepsOrder(rate, 1.0, share);
    }
    var call := Call(0.0, Charge(0.0, rows, 0.0 - BURST_SECONDS + share), 0.0);
    assert Follows(rate, Charges([call]), 0);
    assert [call][..0] == [];
  }
}
