/**
 What a planned subset selects (planSubset in bauta/generate/subset.py): the
 conditions of every selection, the rows they mean, and the closure those
 rows are.
 */
module SubsetPlan {
  import opened Wrappers
  import opened SubsetQueries
  import opened Cycles

  /** What planning settles before it writes queries: the active keys, the
      tables followed down and all those included, and their load order. */
  datatype Subset = Subset(keys: seq<ForeignKey>, root: string, followChildren: bool,
                           down: set<string>, included: set<string>, order: seq<string>)

  function Rank(order: seq<string>, table: string): nat {
    if table in order then IndexOf(order, table) else |order|
  }

  ghost predicate ParentsRankLower(s: Subset) {
    forall key :: key in s.keys && key.table in s.included ==>
      key.parent in s.included && Rank(s.order, key.parent) < Rank(s.order, key.table)
  }

  ghost predicate HasParent(keys: seq<ForeignKey>, table: string, among: set<string>) {
    exists key :: key in keys && key.table == table && key.parent in among
  }

  ghost predicate HasChild(keys: seq<ForeignKey>, table: string, among: set<string>) {
    exists key :: key in keys && key.parent == table && key.table in among
  }

  /** The tables are the ones reachable from the root, and parents come first. */
  ghost predicate ValidSubset(s: Subset) {
    && s.root in s.down && s.down <= s.included
    && Distinct(s.order) && (forall table :: table in s.order <==> table in s.included)
    && ParentsRankLower(s)
    && (s.followChildren ==> forall key :: key in s.keys && key.parent in s.down ==> key.table in s.down)
    && (!s.followChildren ==> s.down == {s.root})
    && (forall table :: table in s.down && table != s.root ==> HasParent(s.keys, table, s.down))
    && (forall table :: table in s.included - s.down ==> HasChild(s.keys, table, s.included))
  }

  // ---------- The conditions of each selection ----------

  /** zip, which stops at the shorter. */
  function Zip(a: seq<string>, b: seq<string>): (pairs: seq<(string, string)>)
    ensures |pairs| == Min(|a|, |b|)
    ensures forall k :: 0 <= k < |pairs| ==> pairs[k] == (a[k], b[k])
  {
    if a == [] || b == [] then [] else [(a[0], b[0])] + Zip(a[1..], b[1..])
  }

  function ToParent(key: ForeignKey): Condition {
    Exists(Down(key.parent), Zip(key.parentColumns, key.columns))
  }

  function ToChild(key: ForeignKey): Condition {
    Exists(Kept(key.table), Zip(key.columns, key.parentColumns))
  }

  /** One EXISTS per key of the table's whose parent is followed down. */
  function ParentConditions(keys: seq<ForeignKey>, table: string, down: set<string>): (r: seq<Condition>)
    ensures forall c :: c in r <==> exists key ::
              key in keys && key.table == table && key.parent in down && c == ToParent(key)
  {
    if keys == [] then []
    else
      assert keys == [keys[0]] + keys[1..];
      (if keys[0].table == table && keys[0].parent in down then [ToParent(keys[0])] else []) +
      ParentConditions(keys[1..], table, down)
  }

  /** One EXISTS per key that references the table from an included one. */
  function ChildConditions(keys: seq<ForeignKey>, table: string, included: set<string>): (r: seq<Condition>)
    ensures forall c :: c in r <==> exists key ::
              key in keys && key.parent == table && key.table in included && c == ToChild(key)
  {
    if keys == [] then []
    else
      assert keys == [keys[0]] + keys[1..];
      (if keys[0].parent == table && keys[0].table in included then [ToChild(keys[0])] else []) +
      ChildConditions(keys[1..], table, included)
  }

  /** downConditions. */
  function DownConditions(s: Subset, table: string): seq<Condition> {
    if table == s.root then [Filter] else ParentConditions(s.keys, table, s.down)
  }

  function KeptConditions(s: Subset, table: string): seq<Condition> {
    (if table in s.down then DownConditions(s, table) else []) + ChildConditions(s.keys, table, s.included)
  }

  function Conditions(s: Subset, selection: Selection): seq<Condition> {
    match selection
    case Down(table) => DownConditions(s, table)
    case Kept(table) => KeptConditions(s, table)
  }

  ghost predicate IsSelection(s: Subset, selection: Selection) {
    match selection
    case Down(table) => table in s.down
    case Kept(table) => table in s.included
  }

  lemma ConditionsExist(s: Subset, selection: Selection)
    requires ValidSubset(s) && IsSelection(s, selection)
    ensures Conditions(s, selection) != []
  {
    var table := selection.table;
    if table in s.down && table != s.root {
      assert HasParent(s.keys, table, s.down);
      var key :| key in s.keys && key.table == table && key.parent in s.down;
      assert ToParent(key) in ParentConditions(s.keys, table, s.down);
    } else if table !in s.down {
      assert HasChild(s.keys, table, s.included);
      var key :| key in s.keys && key.parent == table && key.table in s.included;
      assert ToChild(key) in ChildConditions(s.keys, table, s.included);
    }
  }

  // ---------- The rows each selection means ----------

  ghost predicate ReferencesDown(s: Subset, database: Database, filter: Row -> Truth, key: ForeignKey, row: Row,
                                 parent: Row)
    requires ValidSubset(s) && key in s.keys && key.table in s.included && key.parent in s.down
    decreases Rank(s.order, key.table), 0
  {
    parent in database(key.parent) && References(key, row, parent) && DownHolds(s, database, filter, key.parent, parent)
  }

  ghost predicate SomeParentDown(s: Subset, database: Database, filter: Row -> Truth, key: ForeignKey, row: Row)
    requires ValidSubset(s) && key in s.keys && key.table in s.included && key.parent in s.down
    decreases Rank(s.order, key.table), 1
  {
    exists parent :: ReferencesDown(s, database, filter, key, row, parent)
  }

  /** A row is selected on the way down: the root's by the filter, another's for a selected row it references. */
  ghost predicate DownHolds(s: Subset, database: Database, filter: Row -> Truth, table: string, row: Row)
    requires ValidSubset(s) && table in s.down
    decreases Rank(s.order, table), 2
  {
    if table == s.root then filter(row) == True
    else exists key ::
           key in s.keys && key.table == table && key.parent in s.down && SomeParentDown(s, database, filter, key, row)
  }

  ghost predicate ReferencedKept(s: Subset, database: Database, filter: Row -> Truth, key: ForeignKey, child: Row,
                                 row: Row)
    requires ValidSubset(s) && key in s.keys && key.table in s.included
    decreases |s.order| - Rank(s.order, key.parent), 0
  {
    child in database(key.table) && References(key, child, row) && KeptHolds(s, database, filter, key.table, child)
  }

  ghost predicate SomeChildKept(s: Subset, database: Database, filter: Row -> Truth, key: ForeignKey, row: Row)
    requires ValidSubset(s) && key in s.keys && key.table in s.included
    decreases |s.order| - Rank(s.order, key.parent), 1
  {
    exists child :: ReferencedKept(s, database, filter, key, child, row)
  }

  ghost predicate ReferencedFromKept(s: Subset, database: Database, filter: Row -> Truth, table: string, row: Row)
    requires ValidSubset(s) && table in s.included
    decreases |s.order| - Rank(s.order, table), 2
  {
    exists key :: key in s.keys && key.parent == table && key.table in s.included &&
        SomeChildKept(s, database, filter, key, row)
  }

  /** A row is kept: selected on the way down, or referenced from a kept row. */
  ghost predicate KeptHolds(s: Subset, database: Database, filter: Row -> Truth, table: string, row: Row)
    requires ValidSubset(s) && table in s.included
    decreases |s.order| - Rank(s.order, table), 3
  {
    || (table in s.down && DownHolds(s, database, filter, table, row))
    || ReferencedFromKept(s, database, filter, table, row)
  }

  ghost function Holds(s: Subset, database: Database, filter: Row -> Truth, selection: Selection): Row -> bool
    requires ValidSubset(s) && IsSelection(s, selection)
  {
    match selection
    case Down(table) => row => DownHolds(s, database, filter, table, row)
    case Kept(table) => row => KeptHolds(s, database, filter, table, row)
  }

  lemma DownWhy(s: Subset, database: Database, filter: Row -> Truth, table: string, row: Row)
    returns (key: ForeignKey, parent: Row)
    requires ValidSubset(s) && table in s.down && table != s.root
    requires DownHolds(s, database, filter, table, row)
    ensures key in s.keys && key.table == table && key.parent in s.down
    ensures parent in database(key.parent) && References(key, row, parent) &&
            DownHolds(s, database, filter, key.parent, parent)
  {
    hide ParentsRankLower, HasParent, HasChild, References, Distinct;
    key :| key in s.keys && key.table == table && key.parent in s.down && SomeParentDown(s, database, filter, key, row);
    parent := SomeParent(s, database, filter, key, row);
  }

  lemma SomeParent(s: Subset, database: Database, filter: Row -> Truth, key: ForeignKey, row: Row) returns (parent: Row)
    requires ValidSubset(s) && key in s.keys && key.table in s.included && key.parent in s.down
    requires SomeParentDown(s, database, filter, key, row)
    ensures parent in database(key.parent) && References(key, row, parent) &&
            DownHolds(s, database, filter, key.parent, parent)
  {
    hide ValidSubset, References, DownHolds;
    parent :| ReferencesDown(s, database, filter, key, row, parent);
  }

  lemma RootHolds(s: Subset, database: Database, filter: Row -> Truth, row: Row)
    requires ValidSubset(s)
    ensures DownHolds(s, database, filter, s.root, row) <==> filter(row) == True
  {
  }

  lemma DownFrom(s: Subset, database: Database, filter: Row -> Truth, key: ForeignKey, row: Row, parent: Row)
    requires ValidSubset(s) && key in s.keys && key.table in s.down && key.table != s.root && key.parent in s.down
    requires parent in database(key.parent) && References(key, row, parent) &&
             DownHolds(s, database, filter, key.parent, parent)
    ensures DownHolds(s, database, filter, key.table, row)
  {
    assert ReferencesDown(s, database, filter, key, row, parent);
    assert SomeParentDown(s, database, filter, key, row);
  }

  lemma KeptWhy(s: Subset, database: Database, filter: Row -> Truth, table: string, row: Row)
    returns (key: ForeignKey, child: Row)
    requires ValidSubset(s) && table in s.included && KeptHolds(s, database, filter, table, row)
    requires !(table in s.down && DownHolds(s, database, filter, table, row))
    ensures key in s.keys && key.parent == table && key.table in s.included
    ensures child in database(key.table) && References(key, child, row) &&
            KeptHolds(s, database, filter, key.table, child)
  {
    hide ParentsRankLower, HasParent, HasChild, References, Distinct, DownHolds, SomeChildKept;
    assert ReferencedFromKept(s, database, filter, table, row);
    key :| key in s.keys && key.parent == table && key.table in s.included &&
        SomeChildKept(s, database, filter, key, row);
    child := SomeChild(s, database, filter, key, row);
  }

  lemma SomeChild(s: Subset, database: Database, filter: Row -> Truth, key: ForeignKey, row: Row) returns (child: Row)
    requires ValidSubset(s) && key in s.keys && key.table in s.included
    requires SomeChildKept(s, database, filter, key, row)
    ensures child in database(key.table) && References(key, child, row) &&
            KeptHolds(s, database, filter, key.table, child)
  {
    hide ValidSubset, References, KeptHolds;
    child :| ReferencedKept(s, database, filter, key, child, row);
  }

  lemma KeptFrom(s: Subset, database: Database, filter: Row -> Truth, key: ForeignKey, child: Row, row: Row)
    requires ValidSubset(s) && key in s.keys && key.table in s.included
    requires child in database(key.table) && References(key, child, row) &&
             KeptHolds(s, database, filter, key.table, child)
    ensures key.parent in s.included && KeptHolds(s, database, filter, key.parent, row)
  {
    hide DownHolds, References;
    assert ReferencedKept(s, database, filter, key, child, row);
    assert SomeChildKept(s, database, filter, key, row);
    assert ReferencedFromKept(s, database, filter, key.parent, row);
  }

  // ---------- The selections mean those rows ----------

  lemma {:induction false} PairsMatch(a: seq<string>, b: seq<string>, inner: Row, outer: Row)
    ensures AllEqual(Zip(a, b), inner, outer) == True <==>
            forall k :: 0 <= k < Min(|a|, |b|) ==> Get(inner, a[k]).Datum? && Get(inner, a[k]) == Get(outer, b[k])
  {
    if a != [] && b != [] {
      PairsMatch(a[1..], b[1..], inner, outer);
      var pairs := Zip(a, b);
      assert pairs[0] == (a[0], b[0]) && pairs[1..] == Zip(a[1..], b[1..]);
      forall k | 0 < k < Min(|a|, |b|) ensures a[k] == a[1..][k - 1] && b[k] == b[1..][k - 1] {
      }
    }
  }

  lemma ParentPairs(key: ForeignKey, child: Row, parent: Row)
    ensures AllEqual(Zip(key.parentColumns, key.columns), parent, child) == True <==> References(key, child, parent)
    ensures AllEqual(Zip(key.columns, key.parentColumns), child, parent) == True <==> References(key, child, parent)
  {
    PairsMatch(key.parentColumns, key.columns, parent, child);
    PairsMatch(key.columns, key.parentColumns, child, parent);
  }

  /** Every selection evaluated so far returns the rows it means, each as often as its table holds it. */
  ghost predicate Right(s: Subset, database: Database, filter: Row -> Truth, results: Results)
    requires ValidSubset(s)
  {
    forall selection :: selection in results ==>
      IsSelection(s, selection) && IsRight(s, database, filter, selection, results[selection])
  }

  ghost predicate IsRight(s: Subset, database: Database, filter: Row -> Truth, selection: Selection, rows: seq<Row>)
    requires ValidSubset(s) && IsSelection(s, selection)
  {
    multiset(rows) == multiset(Where(database(selection.table), Holds(s, database, filter, selection)))
  }

  lemma SameMembers(a: seq<Row>, b: seq<Row>, row: Row)
    requires multiset(a) == multiset(b)
    ensures row in a <==> row in b
  {
    assert row in a <==> row in multiset(a);
    assert row in b <==> row in multiset(b);
  }

  lemma RightMembers(s: Subset, database: Database, filter: Row -> Truth, results: Results, selection: Selection,
                     row: Row)
    requires ValidSubset(s) && Right(s, database, filter, results) && selection in results
    ensures IsSelection(s, selection)
    ensures row in results[selection] <==>
              row in database(selection.table) && Holds(s, database, filter, selection)(row)
  {
    assert IsRight(s, database, filter, selection, results[selection]);
    SameMembers(results[selection], Where(database(selection.table), Holds(s, database, filter, selection)), row);
  }

  lemma ToParentMeans(s: Subset, database: Database, filter: Row -> Truth, results: Results, key: ForeignKey, row: Row)
    requires ValidSubset(s) && Right(s, database, filter, results)
    requires key in s.keys && key.table in s.included && key.parent in s.down && Down(key.parent) in results
    ensures Evaluate(ToParent(key), filter, results, row) == True <==> SomeParentDown(s, database, filter, key, row)
  {
    hide ValidSubset, Right, DownHolds, References, AllEqual, Zip, Where;
    var pairs := Zip(key.parentColumns, key.columns);
    if parent :| parent in results[Down(key.parent)] && AllEqual(pairs, parent, row) == True {
      RightMembers(s, database, filter, results, Down(key.parent), parent);
      ParentPairs(key, row, parent);
      assert ReferencesDown(s, database, filter, key, row, parent);
    }
    if parent :| ReferencesDown(s, database, filter, key, row, parent) {
      RightMembers(s, database, filter, results, Down(key.parent), parent);
      ParentPairs(key, row, parent);
      assert SomeMatch(results[Down(key.parent)], pairs, row);
    }
  }

  lemma ToChildMeans(s: Subset, database: Database, filter: Row -> Truth, results: Results, key: ForeignKey, row: Row)
    requires ValidSubset(s) && Right(s, database, filter, results)
    requires key in s.keys && key.table in s.included && Kept(key.table) in results
    ensures Evaluate(ToChild(key), filter, results, row) == True <==> SomeChildKept(s, database, filter, key, row)
  {
    hide ValidSubset, Right, KeptHolds, References, AllEqual, Zip, Where;
    var pairs := Zip(key.columns, key.parentColumns);
    if child :| child in results[Kept(key.table)] && AllEqual(pairs, child, row) == True {
      RightMembers(s, database, filter, results, Kept(key.table), child);
      ParentPairs(key, child, row);
      assert ReferencedKept(s, database, filter, key, child, row);
    }
    if child :| ReferencedKept(s, database, filter, key, child, row) {
      RightMembers(s, database, filter, results, Kept(key.table), child);
      ParentPairs(key, child, row);
      assert SomeMatch(results[Kept(key.table)], pairs, row);
    }
  }

  ghost predicate Refers(conditions: seq<Condition>, selections: set<Selection>) {
    forall c :: c in conditions && c.Exists? ==> c.selection in selections
  }

  lemma FilterMeans(filter: Row -> Truth, results: Results, row: Row)
    ensures Evaluate(Filter, filter, results, row) == filter(row)
  {
  }

  lemma DownConditionsMean(s: Subset, database: Database, filter: Row -> Truth, results: Results, table: string,
                           row: Row)
    requires ValidSubset(s) && table in s.down && Right(s, database, filter, results)
    requires Refers(DownConditions(s, table), results.Keys)
    ensures Meets(DownConditions(s, table), filter, results, row) <==> DownHolds(s, database, filter, table, row)
  {
    hide Right, SomeParentDown, Evaluate, Zip, ParentsRankLower, HasParent, HasChild;
    if table == s.root {
      assert [Filter][0] in [Filter];
      FilterMeans(filter, results, row);
    } else {
      forall key | key in s.keys && key.table == table && key.parent in s.down
        ensures ToParent(key) in DownConditions(s, table)
        ensures Evaluate(ToParent(key), filter, results, row) == True <==> SomeParentDown(s, database, filter, key, row)
      {
        assert ToParent(key) in ParentConditions(s.keys, table, s.down);
        ToParentMeans(s, database, filter, results, key, row);
      }
    }
  }

  lemma ChildConditionsMean(s: Subset, database: Database, filter: Row -> Truth, results: Results, table: string,
                            row: Row)
    requires ValidSubset(s) && table in s.included && Right(s, database, filter, results)
    requires Refers(ChildConditions(s.keys, table, s.included), results.Keys)
    ensures Meets(ChildConditions(s.keys, table, s.included), filter, results, row) <==>
            ReferencedFromKept(s, database, filter, table, row)
  {
    hide ValidSubset, Right, SomeChildKept, Evaluate, Zip;
    forall key | key in s.keys && key.parent == table && key.table in s.included
      ensures ToChild(key) in ChildConditions(s.keys, table, s.included)
      ensures Evaluate(ToChild(key), filter, results, row) == True <==> SomeChildKept(s, database, filter, key, row)
    {
      assert ToChild(key) in ChildConditions(s.keys, table, s.included);
      ToChildMeans(s, database, filter, results, key, row);
    }
  }

  lemma MeetsConcat(a: seq<Condition>, b: seq<Condition>, filter: Row -> Truth, results: Results, row: Row)
    ensures Meets(a + b, filter, results, row) <==> Meets(a, filter, results, row) || Meets(b, filter, results, row)
  {
  }

  lemma ConditionsMean(s: Subset, database: Database, filter: Row -> Truth, results: Results, selection: Selection,
                       row: Row)
    requires ValidSubset(s) && IsSelection(s, selection) && Right(s, database, filter, results)
    requires Refers(Conditions(s, selection), results.Keys)
    ensures Meets(Conditions(s, selection), filter, results, row) <==> Holds(s, database, filter, selection)(row)
  {
    hide Meets, Right, References;
    var table := selection.table;
    if selection.Down? {
      DownConditionsMean(s, database, filter, results, table, row);
    } else {
      var down := if table in s.down then DownConditions(s, table) else [];
      var children := ChildConditions(s.keys, table, s.included);
      assert Refers(down, results.Keys) && Refers(children, results.Keys) by {
        assert forall c :: c in down || c in children ==> c in down + children;
      }
      MeetsConcat(down, children, filter, results, row);
      ChildConditionsMean(s, database, filter, results, table, row);
      if table in s.down {
        DownConditionsMean(s, database, filter, results, table, row);
      } else {
        MeetsNothing(filter, results, row);
      }
    }
  }

  lemma MeetsNothing(filter: Row -> Truth, results: Results, row: Row)
    ensures !Meets([], filter, results, row)
  {
  }

  // ---------- A query returns what its result means ----------

  ghost predicate Names(definitions: seq<Definition>, selections: set<Selection>) {
    forall k :: 0 <= k < |definitions| ==> definitions[k].selection in selections
  }

  ghost function Defined(definitions: seq<Definition>): set<Selection> {
    set k | 0 <= k < |definitions| :: definitions[k].selection
  }

  /** One of the plan's definitions, given what is defined before it: its own
      body, referring only to selections already defined. */
  ghost predicate Follows(s: Subset, materialize: bool, definition: Definition, before: set<Selection>)
    requires ValidSubset(s)
  {
    && IsSelection(s, definition.selection)
    && Conditions(s, definition.selection) != []
    && definition.body == BodyFor(definition.selection.table, Conditions(s, definition.selection), materialize)
    && Refers(Conditions(s, definition.selection), before)
  }

  /** Each selection is defined before its first use. */
  ghost predicate InOrder(s: Subset, materialize: bool, definitions: seq<Definition>, before: set<Selection>)
    requires ValidSubset(s)
  {
    forall k :: 0 <= k < |definitions| ==> Follows(s, materialize, definitions[k], before + Defined(definitions[..k]))
  }

  lemma InOrderTail(s: Subset, materialize: bool, definitions: seq<Definition>, before: set<Selection>)
    requires ValidSubset(s) && InOrder(s, materialize, definitions, before) && definitions != []
    ensures Follows(s, materialize, definitions[0], before)
    ensures InOrder(s, materialize, definitions[1..], before + {definitions[0].selection})
  {
    hide Conditions, BodyFor;
    assert before + Defined(definitions[..0]) == before;
    forall k | 0 <= k < |definitions[1..]|
      ensures Follows(s, materialize, definitions[1..][k],
                      before + {definitions[0].selection} + Defined(definitions[1..][..k]))
    {
      assert Follows(s, materialize, definitions[k + 1], before + Defined(definitions[..k + 1]));
      assert definitions[..k + 1] == [definitions[0]] + definitions[1..][..k];
      DefinedConcat([definitions[0]], definitions[1..][..k]);
      assert Defined([definitions[0]]) == {definitions[0].selection} by {
        assert [definitions[0]][0].selection in Defined([definitions[0]]);
      }
      assert before + Defined(definitions[..k + 1]) == before + {definitions[0].selection} +
             Defined(definitions[1..][..k]);
    }
  }

  lemma DefinedConcat(a: seq<Definition>, b: seq<Definition>)
    ensures Defined(a + b) == Defined(a) + Defined(b)
  {
    forall selection | selection in Defined(a) + Defined(b) ensures selection in Defined(a + b) {
      if selection in Defined(a) {
        var k :| 0 <= k < |a| && a[k].selection == selection;
        assert (a + b)[k].selection == selection;
      } else {
        var k :| 0 <= k < |b| && b[k].selection == selection;
        assert (a + b)[|a| + k].selection == selection;
      }
    }
  }

  lemma DefinitionMeans(s: Subset, materialize: bool, definition: Definition, database: Database, filter: Row -> Truth,
                        results: Results)
    requires ValidSubset(s) && Right(s, database, filter, results)
    requires Follows(s, materialize, definition, results.Keys)
    ensures IsRight(s, database, filter, definition.selection, EvaluateBody(definition.body, database, filter, results))
  {
    var selection := definition.selection;
    var conditions, rows := Conditions(s, selection), database(selection.table);
    BodyMeans(selection.table, conditions, materialize, database, filter, results);
    var meets, holds := MeetsAny(conditions, filter, results), Holds(s, database, filter, selection);
    forall row | row in rows ensures meets(row) == holds(row) {
      ConditionsMean(s, database, filter, results, selection, row);
    }
    WhereAgrees(rows, meets, holds);
  }

  lemma {:induction false} DefinitionsMean(s: Subset, materialize: bool, definitions: seq<Definition>,
                                           database: Database, filter: Row -> Truth, results: Results)
    requires ValidSubset(s) && Right(s, database, filter, results)
    requires InOrder(s, materialize, definitions, results.Keys)
    ensures Right(s, database, filter, EvaluateDefinitions(definitions, database, filter, results))
    decreases |definitions|
  {
    hide Follows, IsRight, InOrder, EvaluateBody;
    if definitions != [] {
      InOrderTail(s, materialize, definitions, results.Keys);
      DefinitionMeans(s, materialize, definitions[0], database, filter, results);
      var next := results[definitions[0].selection := EvaluateBody(definitions[0].body, database, filter, results)];
      assert next.Keys == results.Keys + {definitions[0].selection};
      assert IsSelection(s, definitions[0].selection) by {
        FollowsNames(s, materialize, definitions[0], results.Keys);
      }
      DefinitionsMean(s, materialize, definitions[1..], database, filter, next);
    }
  }

  lemma FollowsNames(s: Subset, materialize: bool, definition: Definition, before: set<Selection>)
    requires ValidSubset(s) && Follows(s, materialize, definition, before)
    ensures IsSelection(s, definition.selection)
  {
  }

  /** A query over the plan's definitions in order returns just the rows its
      result means, as a bag: each as often as its table holds it. */
  lemma QueryMeans(s: Subset, materialize: bool, query: Query, database: Database, filter: Row -> Truth)
    requires ValidSubset(s) && InOrder(s, materialize, query.definitions, {}) &&
             query.result in Defined(query.definitions)
    ensures IsSelection(s, query.result)
    ensures multiset(EvaluateQuery(query, database, filter)) ==
            multiset(Where(database(query.result.table), Holds(s, database, filter, query.result)))
  {
    hide InOrder;
    var none: Results := map[];
    assert none.Keys == {};
    DefinitionsMean(s, materialize, query.definitions, database, filter, none);
    var results := EvaluateDefinitions(query.definitions, database, filter, map[]);
    assert query.result in results;
    assert IsRight(s, database, filter, query.result, results[query.result]);
  }
}
