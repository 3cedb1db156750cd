/**
 Rows read, prepared and written a chunk at a time (bauta/jobs/pipeline.py):
 the bounded read-ahead pipeline, what a load tracks of the chunks it wrote,
 and how a failed attempt is retried.
 */
module Pipeline {
  import opened Wrappers
  import opened NumeralStrings

  // ---------- Watermarks ----------

  /** The highest watermark among some rows: None exactly where no row has one. */
  ghost predicate IsHighest<R(!new)>(rows: multiset<R>, mark: R -> Option<int>, highest: Option<int>) {
    && (forall r :: r in rows && mark(r).Some? ==> highest.Some? && mark(r).value <= highest.value)
    && (highest.Some? ==> exists r :: r in rows && mark(r) == highest)
  }

  function LargerOf(a: Option<int>, b: Option<int>): (larger: Option<int>)
    ensures larger == a || larger == b
    ensures a.Some? ==> larger.Some? && a.value <= larger.value
    ensures b.Some? ==> larger.Some? && b.value <= larger.value
  {
    if b.Some? && (a.None? || b.value > a.value) then b else a
  }

  lemma HighestOfBoth<R(!new)>(rows: multiset<R>, more: multiset<R>, mark: R -> Option<int>, a: Option<int>,
                               b: Option<int>)
    requires IsHighest(rows, mark, a) && IsHighest(more, mark, b)
    ensures IsHighest(rows + more, mark, LargerOf(a, b))
  {
    var larger := LargerOf(a, b);
    if larger.Some? {
      if larger == a {
        var r :| r in rows && mark(r) == a;
        assert r in rows + more;
      } else {
        var r :| r in more && mark(r) == b;
        assert r in rows + more;
      }
    }
  }

  /** _highestWatermark, for a job with a watermark column. */
  method HighestWatermark<R(!new)>(chunk: seq<R>, mark: R -> Option<int>) returns (highest: Option<int>)
    ensures IsHighest(multiset(chunk), mark, highest)
  {
    highest := None;
    for k := 0 to |chunk|
      invariant IsHighest(multiset(chunk[..k]), mark, highest)
    {
      var value := mark(chunk[k]);
      assert chunk[..k + 1] == chunk[..k] + [chunk[k]];
      OneRow(chunk[k], mark);
      HighestOfBoth(multiset(chunk[..k]), multiset{chunk[k]}, mark, highest, value);
      if value.Some? && (highest.None? || value.value > highest.value) {
        highest := value;
      }
    }
    assert chunk[..|chunk|] == chunk;
  }

  lemma OneRow<R(!new)>(row: R, mark: R -> Option<int>)
    ensures IsHighest(multiset{row}, mark, mark(row))
  {
    assert row in multiset{row};
  }

  // ---------- One stream ----------

  /** What iterating a query's chunks gives: the chunks, in order, and whether a read then fails. */
  datatype Source<R> = Source(chunks: seq<seq<R>>, fails: bool)

  datatype Failure = ReadFailed | PrepareFailed(chunk: nat) | Stopped | WriteFailed

  /** A chunk submitted to the masking thread, with what preparing it gives. */
  datatype Pending<R, P> = Pending(result: Option<seq<P>>, rows: seq<R>, watermark: Option<int>)

  function BagOf<R>(chunks: seq<seq<R>>): multiset<R> {
    if chunks == [] then multiset{} else BagOf(chunks[..|chunks| - 1]) + multiset(chunks[|chunks| - 1])
  }

  function RowsIn<R>(chunks: seq<seq<R>>): nat {
    if chunks == [] then 0 else RowsIn(chunks[..|chunks| - 1]) + |chunks[|chunks| - 1]|
  }

  /** One load: how its chunks are prepared, the writes its target accepts, and
      before which writes another slice has stopped it. */
  class Load<R(!new), P> {
    const prepare: (nat, seq<R>) -> Option<seq<P>>
    const mark: R -> Option<int>
    const accepts: nat -> bool
    const stopped: nat -> bool
    var written: seq<seq<P>>
    var rowCount: nat
    var highWatermark: Option<int>
    ghost var mostHeld: nat

    constructor (prepare: (nat, seq<R>) -> Option<seq<P>>, mark: R -> Option<int>, accepts: nat -> bool,
                 stopped: nat -> bool)
      ensures this.prepare == prepare && this.mark == mark && this.accepts == accepts && this.stopped == stopped
      ensures HasWritten([], 0) && mostHeld == 0
    {
      this.prepare, this.mark, this.accepts, this.stopped := prepare, mark, accepts, stopped;
      written, rowCount, highWatermark, mostHeld := [], 0, None, 0;
    }

    /** Why chunk `i` is not written once its turn comes, if it is not. */
    function Blocked(chunks: seq<seq<R>>, i: nat): Option<Failure>
      requires i < |chunks|
    {
      if prepare(i, chunks[i]).None? then Some(PrepareFailed(i))
      else if stopped(i) then Some(Stopped)
      else if !accepts(i) then Some(WriteFailed)
      else None
    }

    /** How many of the first `due` chunks are written, one at a time, before one is not. */
    function Reached(chunks: seq<seq<R>>, due: nat): (count: nat)
      requires due <= |chunks|
      ensures count <= due
      ensures forall i :: 0 <= i < count ==> Blocked(chunks, i).None?
      ensures count < due ==> Blocked(chunks, count).Some?
    {
      if due == 0 then 0
      else
        var before := Reached(chunks, due - 1);
        if before < due - 1 || Blocked(chunks, due - 1).Some? then before else due
    }

    /** The state after exactly the first `count` chunks were written: those chunks
        prepared, in order, their rows counted and their highest watermark kept. */
    ghost predicate HasWritten(chunks: seq<seq<R>>, count: nat)
      reads this
    {
      && count <= |chunks| && |written| == count
      && (forall i :: 0 <= i < count ==> prepare(i, chunks[i]) == Some(written[i]))
      && rowCount == RowsIn(written)
      && IsHighest(BagOf(chunks[..count]), mark, highWatermark)
    }

    /** writeChunk. */
    method Write(ghost chunks: seq<seq<R>>, rows: seq<P>, watermark: Option<int>) returns (failure: Option<Failure>)
      requires HasWritten(chunks, |written|) && |written| < |chunks|
      requires prepare(|written|, chunks[|written|]) == Some(rows)
      requires IsHighest(multiset(chunks[|written|]), mark, watermark)
      modifies this`written, this`rowCount, this`highWatermark
      ensures failure == Blocked(chunks, |old(written)|)
      ensures HasWritten(chunks, if failure.None? then |old(written)| + 1 else |old(written)|)
    {
      var k := |written|;
      if stopped(k) {
        return Some(Stopped);
      }
      if !accepts(k) {
        return Some(WriteFailed);
      }
      assert chunks[..k + 1][..k] == chunks[..k];
      HighestOfBoth(BagOf(chunks[..k]), multiset(chunks[k]), mark, highWatermark, watermark);
      assert (written + [rows])[..k] == written;
      written := written + [rows];
      rowCount := rowCount + |rows|;
      if watermark.Some? && (highWatermark.None? || watermark.value > highWatermark.value) {
        highWatermark := watermark;
      }
      return None;
    }

    /** How many chunks are due to be written, if none is refused: those read more
        than `depth` chunks before a failing read, or all. */
    function Due(source: Source<R>, depth: nat): (due: nat)
      ensures due <= |source.chunks|
    {
      if !source.fails then |source.chunks| else if |source.chunks| <= depth then 0 else |source.chunks| - depth
    }

    /** What a load comes to. */
    function Outcome(source: Source<R>, depth: nat): Option<Failure> {
      var due := Due(source, depth);
      var count := Reached(source.chunks, due);
      if count < due then Blocked(source.chunks, count) else if source.fails then Some(ReadFailed) else None
    }

    /** What is queued: the chunks read and not yet written, each with its result and watermark. */
    ghost predicate Queued(chunks: seq<seq<R>>, pending: seq<Pending<R, P>>, from: nat) {
      && from + |pending| <= |chunks|
      && forall i :: 0 <= i < |pending| ==> IsQueued(chunks, pending[i], from + i)
    }

    ghost predicate IsQueued(chunks: seq<seq<R>>, item: Pending<R, P>, at: nat) {
      && at < |chunks| && item.rows == chunks[at] && item.result == prepare(at, chunks[at])
      && IsHighest(multiset(chunks[at]), mark, item.watermark)
    }

    /** Takes the oldest chunk off the queue and writes it. */
    method WriteOldest(ghost chunks: seq<seq<R>>, pending: seq<Pending<R, P>>)
      returns (rest: seq<Pending<R, P>>, failure: Option<Failure>)
      requires pending != [] && HasWritten(chunks, |written|) && Queued(chunks, pending, |written|)
      modifies this`written, this`rowCount, this`highWatermark
      ensures rest == pending[1..]
      ensures failure == Blocked(chunks, |old(written)|)
      ensures HasWritten(chunks, if failure.None? then |old(written)| + 1 else |old(written)|)
      ensures failure.None? ==> Queued(chunks, rest, |written|)
    {
      hide IsHighest;
      assert IsQueued(chunks, pending[0], |written| + 0);
      var item := pending[0];
      rest := pending[1..];
      ghost var from := |written|;
      if item.result.None? {
        return rest, Some(PrepareFailed(|written|));
      }
      failure := Write(chunks, item.result.value, item.watermark);
      forall i | 0 <= i < |rest| ensures IsQueued(chunks, rest[i], from + 1 + i) {
        assert rest[i] == pending[i + 1];
        assert IsQueued(chunks, pending[i + 1], from + (i + 1));
      }
    }

    /** _streamChunks with no read-ahead. */
    method StreamInTurn(source: Source<R>) returns (failure: Option<Failure>)
      requires HasWritten([], 0) && mostHeld == 0
      modifies this
      ensures failure == Outcome(source, 0)
      ensures HasWritten(source.chunks, Reached(source.chunks, Due(source, 0)))
      ensures mostHeld <= 1
    {
      hide IsHighest, Blocked;
      var chunks := source.chunks;
      for index := 0 to |chunks|
        invariant HasWritten(chunks, index) && Reached(chunks, index) == index && mostHeld <= 1
      {
        mostHeld := 1;
        var result := prepare(index, chunks[index]);
        var watermark := HighestWatermark(chunks[index], mark);
        BlockedMeans(chunks, index);
        ReachedStops(chunks, index, |chunks|);
        if result.None? {
          return Some(PrepareFailed(index));
        }
        failure := Write(chunks, result.value, watermark);
        if failure.Some? {
          return;
        }
      }
      return if source.fails then Some(ReadFailed) else None;
    }

    /** Reads and queues the chunks, writing the oldest once more than `depth` are queued. */
    method ReadAhead(source: Source<R>, depth: nat) returns (pending: seq<Pending<R, P>>, failure: Option<Failure>)
      requires depth > 0 && HasWritten([], 0) && mostHeld == 0
      modifies this
      ensures var due := if |source.chunks| <= depth then 0 else |source.chunks| - depth;
              && failure == (if Reached(source.chunks, due) < due
                             then Blocked(source.chunks, Reached(source.chunks, due)) else None)
              && HasWritten(source.chunks, Reached(source.chunks, due))
              && (failure.None? ==> |written| == due && due + |pending| == |source.chunks|)
      ensures failure.None? ==> Queued(source.chunks, pending, |written|)
      ensures mostHeld <= depth + 1
    {
      hide IsHighest, Blocked, IsQueued;
      var chunks := source.chunks;
      ghost var due := if |chunks| <= depth then 0 else |chunks| - depth;
      pending := [];
      for index := 0 to |chunks|
        invariant |written| == (if index <= depth then 0 else index - depth) && |written| + |pending| == index
        invariant HasWritten(chunks, |written|) && Queued(chunks, pending, |written|)
        invariant Reached(chunks, |written|) == |written| && mostHeld <= depth + 1
      {
        var watermark := HighestWatermark(chunks[index], mark);
        ItemIsQueued(chunks, index, watermark);
        pending := Queue(chunks, pending, Pending(prepare(index, chunks[index]), chunks[index], watermark), index);
        mostHeld := if mostHeld < |pending| then |pending| else mostHeld;
        if |pending| > depth {
          ReachedStops(chunks, |written|, due);
          pending, failure := WriteOldest(chunks, pending);
          if failure.Some? {
            return;
          }
        }
      }
      failure := None;
    }

    method Queue(ghost chunks: seq<seq<R>>, pending: seq<Pending<R, P>>, item: Pending<R, P>, ghost index: nat)
      returns (queued: seq<Pending<R, P>>)
      requires |pending| <= index && Queued(chunks, pending, index - |pending|) && IsQueued(chunks, item, index)
      ensures queued == pending + [item] && Queued(chunks, queued, index - |pending|)
    {
      hide IsQueued;
      queued := pending + [item];
      forall i | 0 <= i < |queued| ensures IsQueued(chunks, queued[i], index - |pending| + i) {
        if i < |pending| {
          assert queued[i] == pending[i];
        }
      }
      assert index < |chunks| by { QueuedIsRead(chunks, item, index); }
    }

    lemma ItemIsQueued(chunks: seq<seq<R>>, at: nat, watermark: Option<int>)
      requires at < |chunks| && IsHighest(multiset(chunks[at]), mark, watermark)
      ensures IsQueued(chunks, Pending(prepare(at, chunks[at]), chunks[at], watermark), at)
    {
    }

    lemma QueuedIsRead(chunks: seq<seq<R>>, item: Pending<R, P>, at: nat)
      requires IsQueued(chunks, item, at)
      ensures at < |chunks|
    {
    }

    /** Writes what is queued once everything is read. */
    method WriteQueued(ghost chunks: seq<seq<R>>, queued: seq<Pending<R, P>>) returns (failure: Option<Failure>)
      requires HasWritten(chunks, |written|) && Queued(chunks, queued, |written|) && |written| + |queued| == |chunks|
      requires Reached(chunks, |written|) == |written|
      modifies this`written, this`rowCount, this`highWatermark
      ensures failure == (if Reached(chunks, |chunks|) < |chunks| then Blocked(chunks, Reached(chunks, |chunks|))
                          else None)
      ensures HasWritten(chunks, Reached(chunks, |chunks|))
    {
      hide IsHighest, Blocked;
      var pending := queued;
      while pending != []
        invariant HasWritten(chunks, |written|) && Queued(chunks, pending, |written|) &&
                  |written| + |pending| == |chunks|
        invariant Reached(chunks, |written|) == |written|
        decreases |pending|
      {
        ReachedStops(chunks, |written|, |chunks|);
        pending, failure := WriteOldest(chunks, pending);
        if failure.Some? {
          return;
        }
      }
      failure := None;
    }

    /** _streamChunks. */
    method StreamChunks(source: Source<R>, depth: nat) returns (failure: Option<Failure>)
      requires HasWritten([], 0) && mostHeld == 0
      modifies this
      ensures failure == Outcome(source, depth)
      ensures HasWritten(source.chunks, Reached(source.chunks, Due(source, depth)))
      ensures failure.None? ==> HasWritten(source.chunks, |source.chunks|)
      ensures mostHeld <= depth + 1
    {
      hide IsHighest, Blocked, HasWritten;
      if depth == 0 {
        failure := StreamInTurn(source);
        return;
      }
      var pending;
      pending, failure := ReadAhead(source, depth);
      if failure.Some? {
        ReachedFewer(source.chunks, if |source.chunks| <= depth then 0 else |source.chunks| - depth);
        return;
      }
      if source.fails {
        return Some(ReadFailed);
      }
      failure := WriteQueued(source.chunks, pending);
    }

    /** A chunk that is not written ends the load, however much more was due. */
    lemma {:induction false} ReachedFewer(chunks: seq<seq<R>>, due: nat)
      requires due <= |chunks| && Reached(chunks, due) < due
      ensures Reached(chunks, |chunks|) == Reached(chunks, due)
    {
      var count := Reached(chunks, due);
      ReachedPrefix(chunks, count, due);
      ReachedStops(chunks, count, |chunks|);
    }

    lemma {:induction false} ReachedPrefix(chunks: seq<seq<R>>, count: nat, due: nat)
      requires due <= |chunks| && count <= Reached(chunks, due)
      ensures Reached(chunks, count) == count
      decreases due
    {
      if due > count {
        ReachedPrefix(chunks, count, due - 1);
      }
    }

    /** What preparing has to say about a chunk, it says first. */
    lemma BlockedMeans(chunks: seq<seq<R>>, i: nat)
      requires i < |chunks|
      ensures prepare(i, chunks[i]).None? ==> Blocked(chunks, i) == Some(PrepareFailed(i))
    {
    }

    /** With the chunks before `k` written, whether `k` is says how far the load gets. */
    lemma {:induction false} ReachedStops(chunks: seq<seq<R>>, k: nat, due: nat)
      requires k < due <= |chunks| && Reached(chunks, k) == k
      ensures Blocked(chunks, k).None? ==> Reached(chunks, k + 1) == k + 1
      ensures Blocked(chunks, k).Some? ==> Reached(chunks, due) == k
      decreases due
    {
      if due > k + 1 {
        ReachedStops(chunks, k, due - 1);
      }
    }

    /** Read ahead as far as it may, a load that reads to the end comes to what it
        does one chunk at a time; and where a read fails, it has written the first of
        the chunks it would have, at most `depth` fewer. */
    lemma DepthChangesOnlyHowFar(source: Source<R>, depth: nat)
      ensures !source.fails ==> Outcome(source, depth) == Outcome(source, 0)
      ensures var ahead, inTurn := Reached(source.chunks, Due(source, depth)), Reached(source.chunks, Due(source, 0));
              ahead <= inTurn <= ahead + depth && (!source.fails ==> ahead == inTurn)
    {
      if source.fails {
        ReachedGrows(source.chunks, Due(source, depth), Due(source, 0));
      }
    }

    lemma {:induction false} ReachedGrows(chunks: seq<seq<R>>, less: nat, more: nat)
      requires less <= more <= |chunks|
      ensures Reached(chunks, less) <= Reached(chunks, more) <= Reached(chunks, less) + (more - less)
      decreases more
    {
      if less < more {
        ReachedGrows(chunks, less, more - 1);
      }
    }
  }

  // ---------- Retries ----------

  /** How an attempt ends: done, or with an error a retry may fix or can't. */
  datatype Attempt = Completed | Raised(permanent: bool)

  const MAXIMUM_RETRY_DELAY_SECONDS := 300

  function RetryDelay(seconds: nat, attemptNumber: nat): nat
    requires attemptNumber >= 1
  {
    var delay := seconds * Pow(2, if attemptNumber - 1 < 32 then attemptNumber - 1 else 32);
    if delay < MAXIMUM_RETRY_DELAY_SECONDS then delay else MAXIMUM_RETRY_DELAY_SECONDS
  }

  /** Each delay is the one before doubled, up to the most there is: waiting for k retries takes at most k times
      that. */
  lemma DelaysDouble(seconds: nat, attemptNumber: nat)
    requires attemptNumber >= 1
    ensures RetryDelay(seconds, attemptNumber) <= MAXIMUM_RETRY_DELAY_SECONDS
    ensures RetryDelay(seconds, attemptNumber) <= RetryDelay(seconds, attemptNumber + 1)
    ensures attemptNumber <= 32 && RetryDelay(seconds, attemptNumber + 1) < MAXIMUM_RETRY_DELAY_SECONDS ==>
              RetryDelay(seconds, attemptNumber + 1) == 2 * RetryDelay(seconds, attemptNumber)
  {
    hide Pow;
    if attemptNumber <= 32 {
      var power := Pow(2, attemptNumber - 1);
      PowNext(2, attemptNumber - 1);
      assert seconds * (2 * power) == 2 * (seconds * power);
    }
  }

  /** _executeWithRetries: the first attempt to complete or to fail for good, or the last one allowed. */
  method ExecuteWithRetries(retries: nat, seconds: nat, attempt: nat -> Attempt)
    returns (outcome: Attempt, attempts: nat, waited: nat)
    ensures 1 <= attempts <= retries + 1 && outcome == attempt(attempts)
    ensures forall k :: 1 <= k < attempts ==> attempt(k) == Raised(false)
    ensures outcome == Raised(false) ==> attempts == retries + 1
    ensures waited <= (attempts - 1) * MAXIMUM_RETRY_DELAY_SECONDS
  {
    hide RetryDelay;
    attempts, waited := 1, 0;
    while true
      invariant 1 <= attempts <= retries + 1
      invariant forall k :: 1 <= k < attempts ==> attempt(k) == Raised(false)
      invariant waited <= (attempts - 1) * MAXIMUM_RETRY_DELAY_SECONDS
      decreases retries + 1 - attempts
    {
      outcome := attempt(attempts);
      if outcome.Completed? || outcome.permanent || attempts > retries {
        return;
      }
      DelaysDouble(seconds, attempts);
      waited := waited + RetryDelay(seconds, attempts);
      attempts := attempts + 1;
    }
  }
}
