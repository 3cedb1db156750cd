/**
 The rows a planned subset copies, against the closure its documentation
 promises (planSubset in bauta/generate/subset.py): the least rows that hold
 what is selected on the way down and whatever a copied row references.
 */
module SubsetClosure {
  import opened SubsetQueries
  import opened SubsetPlan

  /** One row of the source: a table and the row's place in it. */
  datatype RowId = RowId(table: string, position: nat)

  ghost predicate InDatabase(database: Database, id: RowId) {
    id.position < |database(id.table)|
  }

  ghost function RowAt(database: Database, id: RowId): (row: Row)
    requires InDatabase(database, id)
    ensures row in database(id.table)
  {
    database(id.table)[id.position]
  }

  /** `child` references `parent` by `key`. */
  ghost predicate Points(database: Database, key: ForeignKey, child: RowId, parent: RowId) {
    && InDatabase(database, child) && InDatabase(database, parent)
    && child.table == key.table && parent.table == key.parent
    && References(key, RowAt(database, child), RowAt(database, parent))
  }

  /** The root's rows meeting the filter are in, and, following children, whatever references a row that is. */
  ghost predicate DownClosed(keys: seq<ForeignKey>, root: string, followChildren: bool,
                             database: Database, filter: Row -> Truth, rows: set<RowId>) {
    && (forall id :: InDatabase(database, id) && id.table == root && filter(RowAt(database, id)) == True ==> id in rows)
    && (followChildren ==>
          forall key, child, parent :: key in keys && parent in rows && Points(database, key, child, parent) ==>
              child in rows)
  }

  ghost predicate IsSelectedDown(keys: seq<ForeignKey>, root: string, followChildren: bool,
                                 database: Database, filter: Row -> Truth, rows: set<RowId>) {
    && DownClosed(keys, root, followChildren, database, filter, rows)
    && forall other :: DownClosed(keys, root, followChildren, database, filter, other) ==> rows <= other
  }

  /** Whatever a row of the set references, where the source has it, is in the set. */
  ghost predicate KeptClosed(keys: seq<ForeignKey>, database: Database, rows: set<RowId>) {
    forall key, child, parent :: key in keys && child in rows && Points(database, key, child, parent) ==> parent in rows
  }

  /** The least set holding `down` and closed under following the keys. */
  ghost predicate IsClosureOf(keys: seq<ForeignKey>, database: Database, down: set<RowId>, rows: set<RowId>) {
    && down <= rows && KeptClosed(keys, database, rows)
    && forall other :: down <= other && KeptClosed(keys, database, other) ==> rows <= other
  }

  ghost function DownRows(s: Subset, database: Database, filter: Row -> Truth): (rows: set<RowId>)
    requires ValidSubset(s)
    ensures forall id :: id in rows <==> id.table in s.down && InDatabase(database, id) &&
                                         DownHolds(s, database, filter, id.table, RowAt(database, id))
  {
    set t, i | t in s.down && 0 <= i < |database(t)| && DownHolds(s, database, filter, t, database(t)[i]) :: RowId(t, i)
  }

  ghost function KeptRows(s: Subset, database: Database, filter: Row -> Truth): (rows: set<RowId>)
    requires ValidSubset(s)
    ensures forall id :: id in rows <==> id.table in s.included && InDatabase(database, id) &&
                                         KeptHolds(s, database, filter, id.table, RowAt(database, id))
  {
    set t, i | t in s.included && 0 <= i < |database(t)| && KeptHolds(s, database, filter, t, database(t)[i]) ::
        RowId(t, i)
  }

  /** The root comes before every other table followed down, so nothing selected there references it. */
  lemma {:induction false} RootRanksLowest(s: Subset, table: string)
    requires ValidSubset(s) && table in s.down
    ensures Rank(s.order, s.root) <= Rank(s.order, table)
    decreases Rank(s.order, table)
  {
    if table != s.root {
      assert HasParent(s.keys, table, s.down);
      var key :| key in s.keys && key.table == table && key.parent in s.down;
      RootRanksLowest(s, key.parent);
    }
  }

  lemma PositionOf(database: Database, table: string, row: Row) returns (id: RowId)
    requires row in database(table)
    ensures id.table == table && InDatabase(database, id) && RowAt(database, id) == row
  {
    var i :| 0 <= i < |database(table)| && database(table)[i] == row;
    id := RowId(table, i);
  }

  lemma DownRowsClosed(s: Subset, database: Database, filter: Row -> Truth)
    requires ValidSubset(s)
    ensures DownClosed(s.keys, s.root, s.followChildren, database, filter, DownRows(s, database, filter))
  {
    hide DownHolds, KeptHolds, References;
    var rows := DownRows(s, database, filter);
    forall id | InDatabase(database, id) && id.table == s.root && filter(RowAt(database, id)) == True
      ensures id in rows
    {
      RootHolds(s, database, filter, RowAt(database, id));
    }
    if s.followChildren {
      forall key, child, parent | key in s.keys && parent in rows && Points(database, key, child, parent)
        ensures child in rows
      {
        assert key.table in s.down;
        RootRanksLowest(s, key.parent);
        DownFrom(s, database, filter, key, RowAt(database, child), RowAt(database, parent));
      }
    }
  }

  /** A selected row of another table than the root's is there for a selected row it references. */
  lemma DownRowWhy(s: Subset, database: Database, filter: Row -> Truth, id: RowId)
    returns (key: ForeignKey, parent: RowId)
    requires ValidSubset(s) && id in DownRows(s, database, filter) && id.table != s.root
    ensures s.followChildren && key in s.keys && Points(database, key, id, parent)
    ensures parent in DownRows(s, database, filter) && Rank(s.order, parent.table) < Rank(s.order, id.table)
  {
    hide DownHolds, References;
    var parentRow;
    key, parentRow := DownWhy(s, database, filter, id.table, RowAt(database, id));
    parent := PositionOf(database, key.parent, parentRow);
  }

  lemma {:induction false} DownRowsLeast(s: Subset, database: Database, filter: Row -> Truth, other: set<RowId>,
                                         id: RowId)
    requires ValidSubset(s)
    requires DownClosed(s.keys, s.root, s.followChildren, database, filter, other)
    requires id in DownRows(s, database, filter)
    ensures id in other
    decreases Rank(s.order, id.table)
  {
    hide ValidSubset, DownHolds, Points, Rank;
    if id.table == s.root {
      RootHolds(s, database, filter, RowAt(database, id));
    } else {
      var key, parent := DownRowWhy(s, database, filter, id);
      DownRowsLeast(s, database, filter, other, parent);
    }
  }

  lemma KeptRowsClosed(s: Subset, database: Database, filter: Row -> Truth)
    requires ValidSubset(s)
    ensures KeptClosed(s.keys, database, KeptRows(s, database, filter))
  {
    hide DownHolds, KeptHolds, References;
    var rows := KeptRows(s, database, filter);
    forall key, child, parent | key in s.keys && child in rows && Points(database, key, child, parent)
      ensures parent in rows
    {
      KeptFrom(s, database, filter, key, RowAt(database, child), RowAt(database, parent));
    }
  }

  lemma {:induction false} KeptRowsLeast(s: Subset, database: Database, filter: Row -> Truth, other: set<RowId>,
                                         id: RowId)
    requires ValidSubset(s)
    requires DownRows(s, database, filter) <= other && KeptClosed(s.keys, database, other)
    requires id in KeptRows(s, database, filter)
    ensures id in other
    decreases |s.order| - Rank(s.order, id.table)
  {
    hide DownHolds, KeptHolds, References;
    var row := RowAt(database, id);
    if !(id.table in s.down && DownHolds(s, database, filter, id.table, row)) {
      var key, child := KeptWhy(s, database, filter, id.table, row);
      var childId := PositionOf(database, key.table, child);
      KeptRowsLeast(s, database, filter, other, childId);
      assert Points(database, key, childId, id);
    }
  }

  /** The rows the kept queries mean are exactly the closure of what the root selects. */
  lemma KeptRowsAreTheClosure(s: Subset, database: Database, filter: Row -> Truth)
    requires ValidSubset(s)
    ensures IsSelectedDown(s.keys, s.root, s.followChildren, database, filter, DownRows(s, database, filter))
    ensures IsClosureOf(s.keys, database, DownRows(s, database, filter), KeptRows(s, database, filter))
  {
    var down, kept := DownRows(s, database, filter), KeptRows(s, database, filter);
    DownRowsClosed(s, database, filter);
    KeptRowsClosed(s, database, filter);
    forall other | DownClosed(s.keys, s.root, s.followChildren, database, filter, other) ensures down <= other {
      forall id | id in down ensures id in other {
        DownRowsLeast(s, database, filter, other, id);
      }
    }
    forall other | down <= other && KeptClosed(s.keys, database, other) ensures kept <= other {
      forall id | id in kept ensures id in other {
        KeptRowsLeast(s, database, filter, other, id);
      }
    }
  }

  /** A table's rows at the places a set holds, from the k-th on. */
  ghost function RowsIn(rows: seq<Row>, table: string, ids: set<RowId>, k: nat): seq<Row>
    requires k <= |rows|
    decreases |rows| - k
  {
    if k == |rows| then []
    else (if RowId(table, k) in ids then [rows[k]] else []) + RowsIn(rows, table, ids, k + 1)
  }

  lemma {:induction false} PlacesAndTests(rows: seq<Row>, table: string, ids: set<RowId>, keep: Row -> bool, k: nat)
    requires k <= |rows|
    requires forall i :: 0 <= i < |rows| ==> (RowId(table, i) in ids <==> keep(rows[i]))
    ensures RowsIn(rows, table, ids, k) == Where(rows[k..], keep)
    decreases |rows| - k
  {
    if k < |rows| {
      PlacesAndTests(rows, table, ids, keep, k + 1);
      assert rows[k..][1..] == rows[k + 1..];
    }
  }

  /** What one table's query copies: as a bag, the table's rows at the closure's places, each once. */
  ghost predicate CopiesClosure(keys: seq<ForeignKey>, root: string, followChildren: bool, query: Query, table: string,
                                database: Database, filter: Row -> Truth) {
    exists down, kept ::
      && IsSelectedDown(keys, root, followChildren, database, filter, down)
      && IsClosureOf(keys, database, down, kept)
      && multiset(EvaluateQuery(query, database, filter)) == multiset(RowsIn(database(table), table, kept, 0))
  }

  /** Every table's query, whichever encoding, copies exactly the closure's rows of that table. */
  lemma QueryCopiesClosure(s: Subset, materialize: bool, query: Query, table: string, database: Database,
                           filter: Row -> Truth)
    requires ValidSubset(s) && table in s.included
    requires InOrder(s, materialize, query.definitions, {})
    requires query.result == Kept(table) && query.result in Defined(query.definitions)
    ensures CopiesClosure(s.keys, s.root, s.followChildren, query, table, database, filter)
  {
    hide ValidSubset, InOrder, IsSelectedDown, IsClosureOf, EvaluateQuery;
    QueryMeans(s, materialize, query, database, filter);
    KeptRowsAreTheClosure(s, database, filter);
    var rows, kept, keep := database(table), KeptRows(s, database, filter), Holds(s, database, filter, Kept(table));
    forall i | 0 <= i < |rows| ensures RowId(table, i) in kept <==> keep(rows[i]) {
      var id := RowId(table, i);
      assert InDatabase(database, id) && RowAt(database, id) == rows[i];
    }
    PlacesAndTests(rows, table, kept, keep, 0);
    assert rows[0..] == rows;
  }

  /** A table's rows at the places a set holds are those rows. */
  lemma {:induction false} RowsInMembers(rows: seq<Row>, table: string, ids: set<RowId>, k: nat, row: Row)
    requires k <= |rows|
    ensures row in RowsIn(rows, table, ids, k) <==> exists i ::
              k <= i < |rows| && rows[i] == row && RowId(table, i) in ids
    decreases |rows| - k
  {
    if k < |rows| {
      RowsInMembers(rows, table, ids, k + 1, row);
    }
  }

  /** The closure two queries copy is one. */
  lemma SharedClosure(keys: seq<ForeignKey>, root: string, followChildren: bool, a: Query, tableA: string, b: Query,
                      tableB: string,
                      database: Database, filter: Row -> Truth) returns (down: set<RowId>, kept: set<RowId>)
    requires CopiesClosure(keys, root, followChildren, a, tableA, database, filter)
    requires CopiesClosure(keys, root, followChildren, b, tableB, database, filter)
    ensures IsClosureOf(keys, database, down, kept)
    ensures multiset(EvaluateQuery(a, database, filter)) == multiset(RowsIn(database(tableA), tableA, kept, 0))
    ensures multiset(EvaluateQuery(b, database, filter)) == multiset(RowsIn(database(tableB), tableB, kept, 0))
  {
    hide DownClosed, KeptClosed, EvaluateQuery, RowsIn;
    down, kept :| IsSelectedDown(keys, root, followChildren, database, filter, down) &&
                  IsClosureOf(keys, database, down, kept) &&
                  multiset(EvaluateQuery(a, database, filter)) == multiset(RowsIn(database(tableA), tableA, kept, 0));
    var down', kept' :| IsSelectedDown(keys, root, followChildren, database, filter, down') &&
                        IsClosureOf(keys, database, down', kept') &&
                        multiset(EvaluateQuery(b, database, filter)) ==
                            multiset(RowsIn(database(tableB), tableB, kept', 0));
    assert down <= down' && down' <= down;
    assert down == down';
    assert kept <= kept' && kept' <= kept;
    assert kept == kept';
  }

  /** Two queries that copy the closure copy the same bag of a table's rows: OR or UNION ALL, pruned or not. */
  lemma ClosureIsUnique(keys: seq<ForeignKey>, root: string, followChildren: bool, a: Query, b: Query, table: string,
                        database: Database, filter: Row -> Truth)
    requires CopiesClosure(keys, root, followChildren, a, table, database, filter)
    requires CopiesClosure(keys, root, followChildren, b, table, database, filter)
    ensures multiset(EvaluateQuery(a, database, filter)) == multiset(EvaluateQuery(b, database, filter))
  {
    hide EvaluateQuery, RowsIn, CopiesClosure, IsClosureOf;
    var down, kept := SharedClosure(keys, root, followChildren, a, table, b, table, database, filter);
  }

  /** A row the child's query returns references no row of the source that the parent's query leaves out. */
  lemma CopiedReferencesAreCopied(keys: seq<ForeignKey>, root: string, followChildren: bool, children: Query,
                                  parents: Query,
                                  database: Database, filter: Row -> Truth, key: ForeignKey, child: Row, parent: Row)
    requires CopiesClosure(keys, root, followChildren, children, key.table, database, filter)
    requires CopiesClosure(keys, root, followChildren, parents, key.parent, database, filter)
    requires key in keys && child in EvaluateQuery(children, database, filter)
    requires parent in database(key.parent) && References(key, child, parent)
    ensures parent in EvaluateQuery(parents, database, filter)
  {
    hide EvaluateQuery, RowsIn, CopiesClosure, References;
    var down, kept := SharedClosure(keys, root, followChildren, children, key.table, parents, key.parent, database,
                                    filter);
    var childRows, parentRows := database(key.table), database(key.parent);
    SameMembers(EvaluateQuery(children, database, filter), RowsIn(childRows, key.table, kept, 0), child);
    RowsInMembers(childRows, key.table, kept, 0, child);
    var i :| 0 <= i < |childRows| && childRows[i] == child && RowId(key.table, i) in kept;
    var id := PositionOf(database, key.parent, parent);
    assert Points(database, key, RowId(key.table, i), id);
    RowsInMembers(parentRows, key.parent, kept, 0, parent);
    SameMembers(EvaluateQuery(parents, database, filter), RowsIn(parentRows, key.parent, kept, 0), parent);
  }
}
