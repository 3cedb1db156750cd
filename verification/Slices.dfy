/**
 A job read as several slices at once (bauta/jobs/pipeline.py, _loadPartitions):
 whatever order the slices' chunks are written in, what is written is what one
 stream writes.
 */
module Slices {
  import opened Wrappers
  import opened NumeralStrings
  import opened Partitions
  import opened Pipeline

  // ---------- Interleavings ----------

  /** Whether `written` takes the chunks of the slices one at a time, each slice's in order, all of them. */
  ghost predicate IsInterleaving<C(!new)>(written: seq<C>, slices: seq<seq<C>>) {
    if written == [] then forall p :: 0 <= p < |slices| ==> slices[p] == []
    else exists p :: TakesFrom(written[0], slices, p) && IsInterleaving(written[1..], slices[p := slices[p][1..]])
  }

  predicate TakesFrom<C(==)>(chunk: C, slices: seq<seq<C>>, p: int) {
    0 <= p < |slices| && slices[p] != [] && slices[p][0] == chunk
  }

  function BagOfSlices<R>(slices: seq<seq<seq<R>>>): multiset<R> {
    if slices == [] then multiset{} else BagOfSlices(slices[..|slices| - 1]) + BagOf(slices[|slices| - 1])
  }

  lemma BagOfLast<R>(before: seq<seq<R>>, last: seq<R>)
    ensures BagOf(before + [last]) == BagOf(before) + multiset(last)
  {
    assert (before + [last])[..|before|] == before;
  }

  lemma {:induction false} BagOfFirst<R>(chunks: seq<seq<R>>)
    requires chunks != []
    ensures BagOf(chunks) == multiset(chunks[0]) + BagOf(chunks[1..])
  {
    hide BagOf;
    var n := |chunks| - 1;
    assert chunks == chunks[..n] + [chunks[n]];
    BagOfLast(chunks[..n], chunks[n]);
    if n == 0 {
      assert chunks[..0] == chunks[1..];
    } else {
      BagOfFirst(chunks[..n]);
      assert chunks[1..] == chunks[..n][1..] + [chunks[n]];
      BagOfLast(chunks[..n][1..], chunks[n]);
    }
  }

  lemma BagOfOneMore<R>(slices: seq<seq<seq<R>>>, last: seq<seq<R>>)
    ensures BagOfSlices(slices + [last]) == BagOfSlices(slices) + BagOf(last)
  {
    assert (slices + [last])[..|slices|] == slices;
  }

  lemma {:induction false} BagOfTaking<R>(slices: seq<seq<seq<R>>>, p: nat)
    requires p < |slices| && slices[p] != []
    ensures BagOfSlices(slices) == multiset(slices[p][0]) + BagOfSlices(slices[p := slices[p][1..]])
  {
    hide BagOf, BagOfSlices;
    var n := |slices| - 1;
    var before, last := slices[..n], slices[n];
    assert slices == before + [last];
    BagOfOneMore(before, last);
    if p == n {
      BagOfFirst(last);
      assert slices[p := last[1..]] == before + [last[1..]];
      BagOfOneMore(before, last[1..]);
    } else {
      BagOfTaking(before, p);
      var taken := before[p := before[p][1..]];
      assert slices[p := slices[p][1..]] == taken + [last];
      BagOfOneMore(taken, last);
    }
  }

  lemma {:induction false} NothingLeft<R>(slices: seq<seq<seq<R>>>)
    requires forall p :: 0 <= p < |slices| ==> slices[p] == []
    ensures BagOfSlices(slices) == multiset{}
  {
    if slices != [] {
      NothingLeft(slices[..|slices| - 1]);
    }
  }

  /** Whatever the order, every row of every slice is written, as often as it was read. */
  lemma {:induction false} InterleavingKeepsRows<R(!new)>(written: seq<seq<R>>, slices: seq<seq<seq<R>>>)
    requires IsInterleaving(written, slices)
    ensures BagOf(written) == BagOfSlices(slices)
    decreases written
  {
    if written == [] {
      NothingLeft(slices);
    } else {
      var p :| TakesFrom(written[0], slices, p) && IsInterleaving(written[1..], slices[p := slices[p][1..]]);
      InterleavingKeepsRows(written[1..], slices[p := slices[p][1..]]);
      BagOfTaking(slices, p);
      BagOfFirst(written);
    }
  }

  // ---------- What each slice reads ----------

  /** The rows a slice's predicate selects. */
  function Selected<R>(rows: seq<R>, selects: R -> bool): (selected: seq<R>) {
    if rows == [] then []
    else Selected(rows[..|rows| - 1], selects) + if selects(rows[|rows| - 1]) then [rows[|rows| - 1]] else []
  }

  lemma {:induction false} SelectedIsFor<R>(rows: seq<R>, a: R -> bool, b: R -> bool)
    requires forall k :: 0 <= k < |rows| ==> a(rows[k]) == b(rows[k])
    ensures Selected(rows, a) == Selected(rows, b)
  {
    if rows != [] {
      SelectedIsFor(rows[..|rows| - 1], a, b);
    }
  }

  lemma {:induction false} NoneSelected<R>(rows: seq<R>, selects: R -> bool)
    requires forall k :: 0 <= k < |rows| ==> !selects(rows[k])
    ensures Selected(rows, selects) == []
  {
    if rows != [] {
      NoneSelected(rows[..|rows| - 1], selects);
    }
  }

  lemma {:induction false} AllSelected<R>(rows: seq<R>, selects: R -> bool)
    requires forall k :: 0 <= k < |rows| ==> selects(rows[k])
    ensures Selected(rows, selects) == rows
  {
    if rows != [] {
      AllSelected(rows[..|rows| - 1], selects);
      assert rows == rows[..|rows| - 1] + [rows[|rows| - 1]];
    }
  }

  lemma {:induction false} SelectedAddUp<R>(rows: seq<R>, sliceOf: R -> nat, k: nat)
    ensures multiset(Selected(rows, r => sliceOf(r) < k + 1)) ==
            multiset(Selected(rows, r => sliceOf(r) < k)) + multiset(Selected(rows, r => sliceOf(r) == k))
  {
    if rows != [] {
      SelectedAddUp(rows[..|rows| - 1], sliceOf, k);
    }
  }

  /** Slice `p` reads the rows that are in it, in any order and any chunks. */
  ghost predicate ReadsItsOwn<R>(rows: seq<R>, sliceOf: R -> nat, slices: seq<seq<seq<R>>>, p: nat)
    requires p < |slices|
  {
    BagOf(slices[p]) == multiset(Selected(rows, r => sliceOf(r) == p))
  }

  lemma {:induction false} SlicesUpTo<R>(rows: seq<R>, sliceOf: R -> nat, slices: seq<seq<seq<R>>>)
    requires forall p :: 0 <= p < |slices| ==> ReadsItsOwn(rows, sliceOf, slices, p)
    ensures BagOfSlices(slices) == multiset(Selected(rows, r => sliceOf(r) < |slices|))
  {
    if slices == [] {
      NoneSelected(rows, r => sliceOf(r) < |slices|);
    } else {
      var n := |slices| - 1;
      forall p | 0 <= p < n ensures ReadsItsOwn(rows, sliceOf, slices[..n], p) {
        assert ReadsItsOwn(rows, sliceOf, slices, p);
      }
      SlicesUpTo(rows, sliceOf, slices[..n]);
      assert ReadsItsOwn(rows, sliceOf, slices, n);
      SelectedAddUp(rows, sliceOf, n);
    }
  }

  /** Slices that put every row in exactly one read every row once. */
  lemma SlicesReadEveryRow<R>(rows: seq<R>, sliceOf: R -> nat, slices: seq<seq<seq<R>>>)
    requires forall k :: 0 <= k < |rows| ==> sliceOf(rows[k]) < |slices|
    requires forall p :: 0 <= p < |slices| ==> ReadsItsOwn(rows, sliceOf, slices, p)
    ensures BagOfSlices(slices) == multiset(rows)
  {
    SlicesUpTo(rows, sliceOf, slices);
    AllSelected(rows, r => sliceOf(r) < |slices|);
  }

  // ---------- What is written ----------

  /** Every row prepared by itself, as every transform and mask but shuffle does. */
  function Prepared<R, P>(chunks: seq<seq<R>>, one: R -> P): (prepared: seq<seq<P>>)
    ensures |prepared| == |chunks|
    ensures forall i :: 0 <= i < |chunks| ==> prepared[i] == RowByRow(chunks[i], one)
  {
    seq(|chunks|, i requires 0 <= i < |chunks| => RowByRow(chunks[i], one))
  }

  function RowByRow<R, P>(rows: seq<R>, one: R -> P): (prepared: seq<P>)
    ensures |prepared| == |rows|
    ensures forall i :: 0 <= i < |rows| ==> prepared[i] == one(rows[i])
  {
    seq(|rows|, i requires 0 <= i < |rows| => one(rows[i]))
  }

  function Flat<R>(chunks: seq<seq<R>>): seq<R> {
    if chunks == [] then [] else Flat(chunks[..|chunks| - 1]) + chunks[|chunks| - 1]
  }

  lemma {:induction false} FlatKeepsRows<R>(chunks: seq<seq<R>>)
    ensures multiset(Flat(chunks)) == BagOf(chunks) && |Flat(chunks)| == RowsIn(chunks)
  {
    if chunks != [] {
      FlatKeepsRows(chunks[..|chunks| - 1]);
    }
  }

  lemma {:induction false} FlatPrepared<R, P>(chunks: seq<seq<R>>, one: R -> P)
    ensures Flat(Prepared(chunks, one)) == RowByRow(Flat(chunks), one)
  {
    if chunks != [] {
      var n := |chunks| - 1;
      FlatPrepared(chunks[..n], one);
      assert Prepared(chunks, one)[..n] == Prepared(chunks[..n], one);
    }
  }

  lemma Without<T>(s: seq<T>, at: nat)
    requires at < |s|
    ensures multiset(s) == multiset(s[..at] + s[at + 1..]) + multiset{s[at]}
  {
    assert s == s[..at] + [s[at]] + s[at + 1..];
  }

  lemma Cancel<T>(a: multiset<T>, b: multiset<T>, element: T)
    requires a + multiset{element} == b + multiset{element}
    ensures a == b
  {
    assert a == a + multiset{element} - multiset{element};
    assert b == b + multiset{element} - multiset{element};
  }

  lemma PreparedWithout<R, P>(rows: seq<R>, at: nat, one: R -> P)
    requires at < |rows|
    ensures multiset(RowByRow(rows, one)) == multiset(RowByRow(rows[..at] + rows[at + 1..], one)) +
            multiset{one(rows[at])}
  {
    var rest, prepared := rows[..at] + rows[at + 1..], RowByRow(rows, one);
    Without(prepared, at);
    assert prepared[..at] + prepared[at + 1..] == RowByRow(rest, one);
  }

  /** The same rows in another order are the same rows prepared, in another order. */
  lemma {:induction false} SameRowsPrepareAlike<R, P>(a: seq<R>, b: seq<R>, one: R -> P)
    requires multiset(a) == multiset(b)
    ensures multiset(RowByRow(a, one)) == multiset(RowByRow(b, one))
    decreases |a|
  {
    if a == [] {
      assert |multiset(a)| == |multiset(b)|;
    } else {
      hide RowByRow;
      var n := |a| - 1;
      Without(a, n);
      assert a[..n] + a[n + 1..] == a[..n];
      assert a[n] in multiset(b);
      var at :| 0 <= at < |b| && b[at] == a[n];
      var rest := b[..at] + b[at + 1..];
      Without(b, at);
      Cancel(multiset(a[..n]), multiset(rest), a[n]);
      SameRowsPrepareAlike(a[..n], rest, one);
      PreparedWithout(a, n, one);
      PreparedWithout(b, at, one);
    }
  }

  /** What one stream of `rows` writes, and how it counts them. */
  ghost predicate IsWhatOneStreamWrites<R(!new), P>(rows: seq<R>, mark: R -> Option<int>, one: R -> P,
                                                    written: seq<seq<P>>,
                                                    rowCount: nat, highest: Option<int>) {
    && BagOf(written) == multiset(RowByRow(rows, one))
    && rowCount == |rows|
    && IsHighest(multiset(rows), mark, highest)
  }

  /** What a slice comes to: the rows it wrote, and the highest watermark among them. */
  datatype Loaded = Loaded(rows: nat, watermark: Option<int>)

  ghost predicate IsLoaded<R(!new)>(chunks: seq<seq<R>>, mark: R -> Option<int>, loaded: Loaded) {
    loaded.rows == RowsIn(chunks) && IsHighest(BagOf(chunks), mark, loaded.watermark)
  }

  lemma {:induction false} BagSize<R>(chunks: seq<seq<R>>)
    ensures |BagOf(chunks)| == RowsIn(chunks)
  {
    if chunks != [] {
      BagSize(chunks[..|chunks| - 1]);
    }
  }

  /** How a slice ends: loaded, stopped because another failed, or failed. */
  datatype Ending = SliceLoaded(loaded: Loaded) | SliceStopped | SliceFailed(error: string)

  /** The wait of _loadPartitions: the job's error is the first slice's to fail, and it
      loaded only where every slice did, a slice being stopped only once another has failed. */
  method WaitForSlices(endings: seq<Ending>) returns (result: Result<seq<Loaded>, string>)
    requires SliceStopped in endings ==> exists k :: 0 <= k < |endings| && endings[k].SliceFailed?
    ensures result.Err? <==> exists k :: 0 <= k < |endings| && endings[k].SliceFailed?
    ensures result.Err? ==> exists k :: 0 <= k < |endings| && endings[k] == SliceFailed(result.error) &&
                                        forall i :: 0 <= i < k ==> !endings[i].SliceFailed?
    ensures result.Ok? ==> |result.value| == |endings| && forall k :: 0 <= k < |endings| ==>
              endings[k] == SliceLoaded(result.value[k])
  {
    var results: seq<Loaded> := [];
    var failure: Option<string> := None;
    for k := 0 to |endings|
      invariant failure.None? <==> forall i :: 0 <= i < k ==> !endings[i].SliceFailed?
      invariant failure.Some? ==> exists i :: 0 <= i < k && endings[i] == SliceFailed(failure.value) &&
                                              forall j :: 0 <= j < i ==> !endings[j].SliceFailed?
      invariant SliceStopped !in endings && failure.None? ==>
                  |results| == k && forall i :: 0 <= i < k ==> endings[i] == SliceLoaded(results[i])
    {
      match endings[k] {
        case SliceLoaded(loaded) => results := results + [loaded];
        case SliceStopped =>
        case SliceFailed(error) =>
          if failure.None? {
            failure := Some(error);
          }
      }
    }
    return if failure.Some? then Err(failure.value) else Ok(results);
  }

  /** The end of _loadPartitions: the slices' results, in the order they ended. */
  method Combine<R(!new)>(results: seq<Loaded>, ghost ended: seq<seq<seq<R>>>, ghost mark: R -> Option<int>)
    returns (loaded: Loaded)
    requires |results| == |ended| && forall p :: 0 <= p < |ended| ==> IsLoaded(ended[p], mark, results[p])
    ensures loaded.rows == |BagOfSlices(ended)|
    ensures IsHighest(BagOfSlices(ended), mark, loaded.watermark)
  {
    hide IsHighest;
    loaded := Loaded(0, None);
    EmptyHasNone(mark);
    for p := 0 to |results|
      invariant loaded.rows == |BagOfSlices(ended[..p])|
      invariant IsHighest(BagOfSlices(ended[..p]), mark, loaded.watermark)
    {
      assert ended[..p + 1][..p] == ended[..p];
      assert IsLoaded(ended[p], mark, results[p]);
      BagSize(ended[p]);
      HighestOfBoth(BagOfSlices(ended[..p]), BagOf(ended[p]), mark, loaded.watermark, results[p].watermark);
      loaded := Loaded(loaded.rows + results[p].rows, LargerOf(loaded.watermark, results[p].watermark));
    }
    assert ended[..|results|] == ended;
  }

  lemma EmptyHasNone<R(!new)>(mark: R -> Option<int>)
    ensures IsHighest(multiset{}, mark, None)
  {
  }

  lemma {:induction false} SlicesInAnyOrder<R>(slices: seq<seq<seq<R>>>, ended: seq<seq<seq<R>>>)
    requires multiset(slices) == multiset(ended)
    ensures BagOfSlices(slices) == BagOfSlices(ended)
    decreases |slices|
  {
    if slices == [] {
      assert |multiset(slices)| == |multiset(ended)|;
    } else {
      var n := |slices| - 1;
      Without(slices, n);
      assert slices[..n] + slices[n + 1..] == slices[..n];
      assert slices[n] in multiset(ended);
      var at :| 0 <= at < |ended| && ended[at] == slices[n];
      var rest := ended[..at] + ended[at + 1..];
      Without(ended, at);
      Cancel(multiset(slices[..n]), multiset(rest), slices[n]);
      SlicesInAnyOrder(slices[..n], rest);
      BagWithout(ended, at);
    }
  }

  lemma {:induction false} BagWithout<R>(slices: seq<seq<seq<R>>>, at: nat)
    requires at < |slices|
    ensures BagOfSlices(slices) == BagOfSlices(slices[..at] + slices[at + 1..]) + BagOf(slices[at])
  {
    hide BagOf, BagOfSlices;
    var n := |slices| - 1;
    var rest := slices[..at] + slices[at + 1..];
    assert slices == slices[..n] + [slices[n]];
    BagOfOneMore(slices[..n], slices[n]);
    if at == n {
      assert rest == slices[..n];
    } else {
      BagWithout(slices[..n], at);
      var shorter := slices[..n][..at] + slices[..n][at + 1..];
      assert rest == shorter + [slices[n]];
      BagOfOneMore(shorter, slices[n]);
    }
  }

  /** A load read as slices, all of which loaded: whatever order their chunks were written
      and the slices ended in, it writes, counts and records what one stream does. */
  lemma PartitionedIsOneStream<R(!new), P>(rows: seq<R>, sliceOf: R -> nat, slices: seq<seq<seq<R>>>,
                                           written: seq<seq<R>>, one: R -> P,
                                           mark: R -> Option<int>, ended: seq<seq<seq<R>>>, loaded: Loaded)
    requires forall k :: 0 <= k < |rows| ==> sliceOf(rows[k]) < |slices|
    requires forall p :: 0 <= p < |slices| ==> ReadsItsOwn(rows, sliceOf, slices, p)
    requires IsInterleaving(written, slices) && multiset(ended) == multiset(slices)
    requires loaded.rows == |BagOfSlices(ended)| && IsHighest(BagOfSlices(ended), mark, loaded.watermark)
    ensures IsWhatOneStreamWrites(rows, mark, one, Prepared(written, one), loaded.rows, loaded.watermark)
  {
    hide IsHighest, IsInterleaving, ReadsItsOwn;
    SlicesReadEveryRow(rows, sliceOf, slices);
    InterleavingKeepsRows(written, slices);
    SlicesInAnyOrder(slices, ended);
    FlatKeepsRows(written);
    FlatKeepsRows(Prepared(written, one));
    FlatPrepared(written, one);
    SameRowsPrepareAlike(Flat(written), rows, one);
  }

  /** How a slice's load prepares its rows: each by itself. */
  ghost predicate PreparesRowByRow<R(!new), P>(load: Load<R, P>, one: R -> P) {
    forall i: nat, rows: seq<R> :: load.prepare(i, rows) == Some(RowByRow(rows, one))
  }

  /** A load that wrote all of its slice. */
  ghost predicate HasLoaded<R(!new), P>(load: Load<R, P>, chunks: seq<seq<R>>, mark: R -> Option<int>, one: R -> P)
    reads load
  {
    load.mark == mark && PreparesRowByRow(load, one) && load.HasWritten(chunks, |chunks|)
  }

  /** It wrote the slice's rows prepared, and counted and kept the watermark of those. */
  lemma LoadIsLoaded<R(!new), P>(load: Load<R, P>, chunks: seq<seq<R>>, mark: R -> Option<int>, one: R -> P)
    requires HasLoaded(load, chunks, mark, one)
    ensures load.written == Prepared(chunks, one)
    ensures IsLoaded(chunks, mark, Loaded(load.rowCount, load.highWatermark))
  {
    hide IsHighest;
    assert chunks[..|chunks|] == chunks;
    FlatPrepared(chunks, one);
    FlatKeepsRows(chunks);
    FlatKeepsRows(Prepared(chunks, one));
  }

  lemma RowByRowOfBoth<R, P>(a: seq<R>, b: seq<R>, one: R -> P)
    ensures RowByRow(a + b, one) == RowByRow(a, one) + RowByRow(b, one)
  {
  }

  /** The slices' rows in one sequence, and what preparing them comes to. */
  lemma {:induction false} PreparedSlices<R, P>(slices: seq<seq<seq<R>>>, outputs: seq<seq<seq<P>>>, one: R -> P)
    returns (rows: seq<R>)
    requires |outputs| == |slices| && forall p :: 0 <= p < |slices| ==> outputs[p] == Prepared(slices[p], one)
    ensures multiset(rows) == BagOfSlices(slices) && multiset(RowByRow(rows, one)) == BagOfSlices(outputs)
  {
    hide BagOf, Flat, Prepared, RowByRow;
    if slices == [] {
      rows := [];
      assert |RowByRow(rows, one)| == 0;
    } else {
      var n := |slices| - 1;
      var before := PreparedSlices(slices[..n], outputs[..n], one);
      var last := Flat(slices[n]);
      rows := before + last;
      FlatKeepsRows(slices[n]);
      FlatPrepared(slices[n], one);
      FlatKeepsRows(outputs[n]);
      RowByRowOfBoth(before, last, one);
    }
  }

  function Indices(n: nat): (indices: seq<nat>)
    ensures |indices| == n && forall i :: 0 <= i < n ==> indices[i] == i
  {
    seq(n, i requires 0 <= i < n => i)
  }

  /** In whatever order the slices ended, they are the slices. */
  lemma EndedAreSlices<T>(slices: seq<T>, order: seq<nat>, ended: seq<T>, any: T)
    requires multiset(order) == multiset(Indices(|slices|)) && |ended| == |order|
    requires forall k :: 0 <= k < |order| ==> order[k] < |slices| && ended[k] == slices[order[k]]
    ensures multiset(ended) == multiset(slices)
  {
    var at := (i: nat) => if i < |slices| then slices[i] else any;
    SameRowsPrepareAlike(order, Indices(|slices|), at);
    assert RowByRow(order, at) == ended;
    assert RowByRow(Indices(|slices|), at) == slices;
  }

  lemma OrderIsOfSlices(order: seq<nat>, n: nat, k: nat)
    requires multiset(order) == multiset(Indices(n)) && k < |order|
    ensures order[k] < n
  {
    assert order[k] in multiset(Indices(n));
  }

  /** _loadPartitions once every slice has loaded, from the slices' own loads: whatever order they
      ended in and however their writes came between each other's, the table got what one stream
      of the rows writes, and the job records what it would. */
  method CombineLoads<R(!new), P(!new)>(loads: seq<Load<R, P>>, order: seq<nat>, ghost rows: seq<R>,
                                        ghost sliceOf: R -> nat, ghost slices: seq<seq<seq<R>>>,
                                        ghost mark: R -> Option<int>, ghost one: R -> P,
                                        ghost outputs: seq<seq<seq<P>>>, ghost written: seq<seq<P>>)
    returns (loaded: Loaded)
    requires |loads| == |slices| == |outputs| && multiset(order) == multiset(Indices(|slices|))
    requires forall p :: 0 <= p < |slices| ==> HasLoaded(loads[p], slices[p], mark, one)
    requires forall p :: 0 <= p < |slices| ==> outputs[p] == loads[p].written
    requires forall k :: 0 <= k < |rows| ==> sliceOf(rows[k]) < |slices|
    requires forall p :: 0 <= p < |slices| ==> ReadsItsOwn(rows, sliceOf, slices, p)
    requires IsInterleaving(written, outputs)
    ensures IsWhatOneStreamWrites(rows, mark, one, written, loaded.rows, loaded.watermark)
  {
    hide IsHighest, IsInterleaving, ReadsItsOwn, HasLoaded, IsLoaded, Prepared;
    var results: seq<Loaded> := [];
    ghost var ended: seq<seq<seq<R>>> := [];
    for k := 0 to |order|
      invariant |results| == |ended| == k
      invariant forall i :: 0 <= i < k ==> order[i] < |slices| && ended[i] == slices[order[i]]
      invariant forall i :: 0 <= i < k ==> IsLoaded(ended[i], mark, results[i])
    {
      OrderIsOfSlices(order, |slices|, k);
      var load := loads[order[k]];
      LoadIsLoaded(load, slices[order[k]], mark, one);
      results, ended := results + [Loaded(load.rowCount, load.highWatermark)], ended + [slices[order[k]]];
    }
    loaded := Combine(results, ended, mark);
    EndedAreSlices(slices, order, ended, []);
    SlicesInAnyOrder(slices, ended);
    SlicesReadEveryRow(rows, sliceOf, slices);
    forall p | 0 <= p < |slices| ensures outputs[p] == Prepared(slices[p], one) {
      LoadIsLoaded(loads[p], slices[p], mark, one);
    }
    ghost var all := PreparedSlices(slices, outputs, one);
    SameRowsPrepareAlike(all, rows, one);
    InterleavingKeepsRows(written, outputs);
  }

  /** Slices of a number, which is what partitions.column is where it is one. */
  lemma NumberSlicesAreOneStream<R(!new), P>(rows: seq<R>, column: R -> Value, points: seq<int>,
                                             slices: seq<seq<seq<R>>>,
                                             written: seq<seq<R>>, one: R -> P, mark: R -> Option<int>,
                                             ended: seq<seq<seq<R>>>, loaded: Loaded)
    requires Increasing(points) && |slices| == |points| + 1
    requires forall p :: 0 <= p <= |points| ==>
               BagOf(slices[p]) == multiset(Selected(rows, r => Selects(PredicatesFor(points)[p], column(r))))
    requires IsInterleaving(written, slices) && multiset(ended) == multiset(slices)
    requires loaded.rows == |BagOfSlices(ended)| && IsHighest(BagOfSlices(ended), mark, loaded.watermark)
    ensures IsWhatOneStreamWrites(rows, mark, one, Prepared(written, one), loaded.rows, loaded.watermark)
  {
    hide IsHighest, IsInterleaving, Selects, PredicatesFor, SliceOf, Increasing, IsWhatOneStreamWrites;
    var sliceOf := (r: R) => SliceOf(points, column(r));
    forall p | 0 <= p < |slices| ensures ReadsItsOwn(rows, sliceOf, slices, p) {
      var predicate' := PredicatesFor(points)[p];
      forall k | 0 <= k < |rows| ensures Selects(predicate', column(rows[k])) == (sliceOf(rows[k]) == p) {
        ExactlyOneSlice(points, column(rows[k]), p);
      }
      SelectedIsFor(rows, r => Selects(PredicatesFor(points)[p], column(r)), r => sliceOf(r) == p);
    }
    PartitionedIsOneStream(rows, sliceOf, slices, written, one, mark, ended, loaded);
  }

  /** Slices of any other column, at the values its rows divide evenly at. */
  lemma RangeSlicesAreOneStream<R(!new), T(!new), P>(
    rows: seq<R>, column: R -> Option<T>, maxima: seq<T>, same: (T, T) -> bool, atMost: (T, T) -> bool,
        slices: seq<seq<seq<R>>>,
    written: seq<seq<R>>, one: R -> P, mark: R -> Option<int>, ended: seq<seq<seq<R>>>, loaded: Loaded)
    requires TotalOrder(atMost) && NonDecreasing(maxima, atMost) && |slices| == |KeptBounds(maxima, same)| + 1
    requires forall p :: 0 <= p < |slices| ==>
               BagOf(slices[p]) == multiset(Selected(rows, r =>
                                                     InRange(RangesFor(KeptBounds(maxima, same))[p], atMost,
                                                             column(r))))
    requires IsInterleaving(written, slices) && multiset(ended) == multiset(slices)
    requires loaded.rows == |BagOfSlices(ended)| && IsHighest(BagOfSlices(ended), mark, loaded.watermark)
    ensures IsWhatOneStreamWrites(rows, mark, one, Prepared(written, one), loaded.rows, loaded.watermark)
  {
    hide IsHighest, IsInterleaving, InRange, RangesFor, RangeOf, KeptBounds, TotalOrder, NonDecreasing,
        IsWhatOneStreamWrites;
    var bounds := KeptBounds(maxima, same);
    var sliceOf := (r: R) => RangeOf(bounds, atMost, column(r));
    forall p | 0 <= p < |slices| ensures ReadsItsOwn(rows, sliceOf, slices, p) {
      forall k | 0 <= k < |rows|
        ensures InRange(RangesFor(bounds)[p], atMost, column(rows[k])) == (sliceOf(rows[k]) == p)
      {
        ExactlyOneRange(maxima, same, atMost, column(rows[k]), p);
      }
      SelectedIsFor(rows, r => InRange(RangesFor(KeptBounds(maxima, same))[p], atMost, column(r)),
                    r => sliceOf(r) == p);
    }
    PartitionedIsOneStream(rows, sliceOf, slices, written, one, mark, ended, loaded);
  }

  // ---------- Chunk numbers ----------

  /** The number _preparer gives the n-th chunk of partition p. */
  function ChunkNumber(n: nat, partition: nat, partitions: nat): nat {
    n * partitions + partition
  }

  /** No two chunks of a job share a number; read as one stream, a chunk's number is its position. */
  lemma ChunkNumbersAreApart(n: nat, p: nat, n': nat, p': nat, partitions: nat)
    requires p < partitions && p' < partitions
    ensures ChunkNumber(n, p, partitions) == ChunkNumber(n', p', partitions) <==> n == n' && p == p'
    ensures partitions == 1 ==> ChunkNumber(n, p, partitions) == n
  {
    assert n * partitions == partitions * n && n' * partitions == partitions * n';
    if ChunkNumber(n, p, partitions) == ChunkNumber(n', p', partitions) {
      QuotientIsUnique(partitions, n, p, n', p');
    }
  }
}
