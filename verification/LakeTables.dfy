/**
 What one run leaves in a table of files: its parts (bauta/lake/formats.py) and,
 for an overwrite, the snapshots it keeps beside its own (bauta/lake/target.py).
 */
module LakeTables {
  import opened PartNames
  import opened Wrappers

  // ---------- Parts ----------

  datatype PartFile<Row> = PartFile(name: string, rows: seq<Row>)

  function RowsOf<Row>(parts: seq<PartFile<Row>>): seq<Row> {
    if parts == [] then [] else RowsOf(parts[..|parts| - 1]) + parts[|parts| - 1].rows
  }

  /** Numbered from 1, under the run's name. */
  ghost predicate Numbered<Row>(parts: seq<PartFile<Row>>, run: string, extension: string) {
    forall k :: 0 <= k < |parts| ==> parts[k].name == PartName(run, k + 1, extension)
  }

  lemma RowsOfMore<Row>(parts: seq<PartFile<Row>>, part: PartFile<Row>)
    ensures RowsOf(parts + [part]) == RowsOf(parts) + part.rows
  {
    assert (parts + [part])[..|parts|] == parts;
  }

  class Parts<Row> {
    const runId: string
    const extension: string
    const singleFile: bool
    const fileSize: nat
    /** The largest file publishing can move, or None for any. */
    const largestMove: Option<nat>
    var written: seq<PartFile<Row>>
    var writing: Option<PartFile<Row>>

    ghost predicate Valid()
      reads this
    {
      && Numbered(written, runId, extension)
      && (writing.Some? ==> writing.value.name == PartName(runId, |written| + 1, extension))
      && (singleFile ==> written == [])
    }

    /** Every row written so far, in order, whichever part it is in. */
    ghost function Contents(): seq<Row>
      reads this
    {
      RowsOf(written) + if writing.Some? then writing.value.rows else []
    }

    constructor (runId: string, format: Format, gzip: bool, singleFile: bool, fileSize: nat, largestMove: Option<nat>)
      ensures Valid() && Contents() == [] && written == [] && writing == None
      ensures this.runId == runId && this.extension == Extension(format, gzip)
      ensures this.singleFile == singleFile && this.fileSize == fileSize && this.largestMove == largestMove
    {
      this.runId, this.extension := runId, Extension(format, gzip);
      this.singleFile, this.fileSize, this.largestMove := singleFile, fileSize, largestMove;
      written, writing := [], None;
    }

    /** Whether a file of `size` can be published. */
    predicate CanBeMoved(size: nat) {
      !singleFile || largestMove.None? || size <= largestMove.value
    }

    /** write: one row group, with `size` what has reached the part's stream after it. */
    method Write(table: seq<Row>, size: nat) returns (ok: bool)
      requires Valid()
      modifies this
      ensures Valid() && Contents() == old(Contents()) + table
      ensures ok <==> CanBeMoved(size)
      ensures ok && !singleFile && size >= fileSize ==> writing == None && |written| == |old(written)| + 1
      ensures singleFile || size < fileSize ==> writing.Some? && written == old(written)
      ensures old(written) <= written
    {
      hide PartName, RowsOf, CanBeMoved;
      if writing.None? {
        writing := Some(PartFile(PartName(runId, |written| + 1, extension), []));
      }
      writing := Some(writing.value.(rows := writing.value.rows + table));
      if !CanBeMoved(size) {
        return false;
      }
      if !singleFile && size >= fileSize {
        ClosePart();
      }
      return true;
    }

    /** _close. */
    method ClosePart()
      requires Numbered(written, runId, extension) &&
               (writing.Some? ==> writing.value.name == PartName(runId, |written| + 1, extension))
      modifies this
      ensures writing == None && Contents() == old(Contents()) && Numbered(written, runId, extension)
      ensures written == old(written) + if old(writing).Some? then [old(writing).value] else []
    {
      hide PartName, RowsOf;
      if writing.None? {
        return;
      }
      RowsOfMore(written, writing.value);
      written := written + [writing.value];
      writing := None;
    }

    /** close: the parts, at least one, holding every row written once, in order; None where an
        empty table's one part is already too large to publish. */
    method Close(size: nat) returns (parts: Option<seq<PartFile<Row>>>)
      requires Valid()
      modifies this
      ensures parts.None? <==> old(written) == [] && old(writing).None? && !CanBeMoved(size)
      ensures parts.Some? ==> RowsOf(parts.value) == old(Contents()) && Numbered(parts.value, runId, extension)
      ensures parts.Some? ==> |parts.value| >= 1 && (singleFile ==> |parts.value| == 1)
    {
      if writing.None? && written == [] {
        var ok := Write([], size);
        if !ok {
          return None;
        }
      }
      ClosePart();
      return Some(written);
    }
  }

  // ---------- Snapshots ----------

  /** A snapshot directory: the run it is of, in the order runs began, and whether it has its _SUCCESS. */
  datatype Snapshot = Snapshot(run: nat, complete: bool)

  /** As the listing gives them: oldest first. */
  ghost predicate OldestFirst(snapshots: seq<Snapshot>) {
    forall i, j :: 0 <= i < j < |snapshots| ==> snapshots[i].run < snapshots[j].run
  }

  function Complete(snapshots: seq<Snapshot>): (complete: seq<Snapshot>)
    ensures |complete| <= |snapshots|
  {
    if snapshots == [] then []
    else if snapshots[0].complete then [snapshots[0]] + Complete(snapshots[1..])
    else Complete(snapshots[1..])
  }

  /** How many complete snapshots lie from the k-th on. */
  function CompleteFrom(snapshots: seq<Snapshot>, k: nat): nat
    requires k <= |snapshots|
  {
    |Complete(snapshots[k..])|
  }

  /** What pruning is to remove: a complete snapshot with `keep` complete newer ones, an
      incomplete one older than this run's. */
  predicate IsStale(snapshots: seq<Snapshot>, k: nat, current: nat, keep: nat)
    requires k < |snapshots|
  {
    if snapshots[k].complete then CompleteFrom(snapshots, k + 1) >= keep else snapshots[k].run < current
  }

  lemma {:induction false} CompleteHas(snapshots: seq<Snapshot>, snapshot: Snapshot)
    ensures snapshot in Complete(snapshots) <==> snapshot in snapshots && snapshot.complete
  {
    if snapshots != [] {
      CompleteHas(snapshots[1..], snapshot);
      assert snapshots == [snapshots[0]] + snapshots[1..];
    }
  }

  /** complete[:-keep] is the complete snapshots with `keep` newer. */
  lemma {:induction false} DroppingTheNewest(snapshots: seq<Snapshot>, k: nat, keep: nat)
    requires OldestFirst(snapshots) && k < |snapshots| && snapshots[k].complete && keep >= 1
    ensures snapshots[k] in AllButNewest(Complete(snapshots), keep) <==> CompleteFrom(snapshots, k + 1) >= keep
  {
    var complete := Complete(snapshots);
    if k == 0 {
      var rest := Complete(snapshots[1..]);
      assert complete[0] == snapshots[0];
      CompleteHas(snapshots[1..], snapshots[0]);
      forall i | 1 <= i < |complete| ensures complete[i] != snapshots[0] {
        assert complete[i] == rest[i - 1] && rest[i - 1] in rest;
        CompleteHas(snapshots[1..], rest[i - 1]);
      }
    } else {
      var tail := snapshots[1..];
      assert tail[k - 1] == snapshots[k] && tail[k..] == snapshots[k + 1..];
      DroppingTheNewest(tail, k - 1, keep);
      if snapshots[0].complete {
        assert complete == [snapshots[0]] + Complete(tail);
        OneMoreOldest(snapshots[0], Complete(tail), keep, snapshots[k]);
      }
    }
  }

  function AllButNewest(complete: seq<Snapshot>, keep: nat): seq<Snapshot> {
    if |complete| <= keep then [] else complete[..|complete| - keep]
  }

  lemma OneMoreOldest(oldest: Snapshot, rest: seq<Snapshot>, keep: nat, snapshot: Snapshot)
    requires snapshot != oldest
    ensures snapshot in AllButNewest([oldest] + rest, keep) <==> snapshot in AllButNewest(rest, keep)
  {
    var all := [oldest] + rest;
    if |all| > keep {
      var n := |all| - keep;
      assert all[..n] == [oldest] + rest[..n - 1];
    }
  }

  /** _pruneSnapshots: what is left, where some directories may refuse to be deleted. */
  method PruneSnapshots(snapshots: seq<Snapshot>, current: nat, keep: nat, refuses: nat -> bool)
    returns (left: seq<Snapshot>)
    requires OldestFirst(snapshots) && keep >= 1
    ensures forall k :: 0 <= k < |snapshots| ==>
              (snapshots[k] in left <==> !IsStale(snapshots, k, current, keep) || refuses(snapshots[k].run))
    ensures forall snapshot :: snapshot in left ==> snapshot in snapshots
  {
    hide Complete, AllButNewest;
    var oldest := AllButNewest(Complete(snapshots), keep);
    left := [];
    for k := 0 to |snapshots|
      invariant forall i :: 0 <= i < k ==>
                  (snapshots[i] in left <==> !IsStale(snapshots, i, current, keep) || refuses(snapshots[i].run))
      invariant forall snapshot :: snapshot in left ==> exists i :: 0 <= i < k && snapshots[i] == snapshot
    {
      var stale := if snapshots[k].complete then snapshots[k] in oldest else snapshots[k].run < current;
      if snapshots[k].complete {
        DroppingTheNewest(snapshots, k, keep);
      }
      ghost var before := left;
      if !stale || refuses(snapshots[k].run) {
        left := left + [snapshots[k]];
      }
      assert snapshots[k] !in before;
    }
  }

  /** The newest complete snapshot is never removed, nor a newer run's while it publishes; and of
      the complete ones, where none refuses, exactly the newest `keep` stay. */
  lemma NewestStay(snapshots: seq<Snapshot>, k: nat, current: nat, keep: nat)
    requires OldestFirst(snapshots) && k < |snapshots| && keep >= 1
    ensures snapshots[k].complete && Complete(snapshots[k + 1..]) == [] ==> !IsStale(snapshots, k, current, keep)
    ensures !snapshots[k].complete && snapshots[k].run >= current ==> !IsStale(snapshots, k, current, keep)
    ensures snapshots[k].complete ==> (IsStale(snapshots, k, current, keep) <==> |Complete(snapshots[k..])| > keep)
  {
    assert snapshots[k..] == [snapshots[k]] + snapshots[k + 1..];
    assert snapshots[k..][1..] == snapshots[k + 1..];
  }
}
