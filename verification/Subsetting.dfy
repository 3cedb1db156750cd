/**
 Planning a subset from foreign keys, a root table and a filter: _traverse and
 planSubset of bauta/generate/subset.py. Tables are named by the upper-cased
 names they are matched by.
 */
module Subsetting {
  import opened Wrappers
  import opened Names
  import opened Cycles
  import opened SubsetQueries
  import opened SubsetPlan
  import opened SubsetClosure
  import opened SubsetBuilder

  // ---------- The tables a subset reaches ----------

  function From(key: ForeignKey, up: bool): string { if up then key.table else key.parent }

  function To(key: ForeignKey, up: bool): string { if up then key.parent else key.table }

  ghost predicate EdgeClosed(keys: seq<ForeignKey>, up: bool, tables: set<string>) {
    forall key :: key in keys && From(key, up) in tables ==> To(key, up) in tables
  }

  /** The tables reached from some by following keys one way: the least closed set. */
  ghost predicate IsReach(keys: seq<ForeignKey>, up: bool, start: set<string>, tables: set<string>) {
    && start <= tables && EdgeClosed(keys, up, tables)
    && forall other :: start <= other && EdgeClosed(keys, up, other) ==> tables <= other
  }

  /** The tables a subset includes: the roots and, following children, what references them; then all that those
      reference. */
  ghost predicate AreTables(keys: seq<ForeignKey>, roots: set<string>, followChildren: bool, down: set<string>,
                            included: set<string>) {
    && (if followChildren then IsReach(keys, false, roots, down) else down == roots)
    && IsReach(keys, true, down, included)
  }

  ghost predicate Reachable(keys: seq<ForeignKey>, up: bool, start: set<string>, table: string) {
    forall other :: start <= other && EdgeClosed(keys, up, other) ==> table in other
  }

  lemma ReachableNext(keys: seq<ForeignKey>, up: bool, start: set<string>, key: ForeignKey)
    requires key in keys && Reachable(keys, up, start, From(key, up))
    ensures Reachable(keys, up, start, To(key, up))
  {
  }

  /** Of a worklist's reach so far: every table is reachable, and only the waiting ones' keys may lead out. */
  ghost predicate Reaching(keys: seq<ForeignKey>, up: bool, start: set<string>, tables: set<string>,
                           waiting: set<string>) {
    && start <= tables && waiting <= tables
    && (forall table :: table in tables ==> Reachable(keys, up, start, table))
    && (forall key :: key in keys && From(key, up) in tables && From(key, up) !in waiting ==> To(key, up) in tables)
  }

  /** The same while `table`'s own keys are followed, the first `k` of all of them by now. */
  ghost predicate Expanding(keys: seq<ForeignKey>, up: bool, start: set<string>, tables: set<string>,
                            waiting: set<string>,
                            table: string, k: nat) {
    && k <= |keys| && table in tables
    && Reaching(keys, up, start, tables, waiting + {table})
    && (forall i :: 0 <= i < k && From(keys[i], up) == table ==> To(keys[i], up) in tables)
  }

  lemma ReachingStarts(keys: seq<ForeignKey>, up: bool, start: set<string>)
    ensures Reaching(keys, up, start, start, start)
  {
  }

  lemma ExpandingAdds(keys: seq<ForeignKey>, up: bool, start: set<string>, tables: set<string>, waiting: set<string>,
                      table: string, k: nat)
    requires Expanding(keys, up, start, tables, waiting, table, k) && k < |keys| && From(keys[k], up) == table
    ensures Expanding(keys, up, start, tables + {To(keys[k], up)}, waiting + {To(keys[k], up)}, table, k + 1)
  {
    hide Reachable;
    ReachableNext(keys, up, start, keys[k]);
  }

  lemma ExpandingSkips(keys: seq<ForeignKey>, up: bool, start: set<string>, tables: set<string>, waiting: set<string>,
                       table: string, k: nat)
    requires Expanding(keys, up, start, tables, waiting, table, k) && k < |keys|
    requires From(keys[k], up) != table || To(keys[k], up) in tables
    ensures Expanding(keys, up, start, tables, waiting, table, k + 1)
  {
    hide Reachable;
  }

  lemma ExpandingEnds(keys: seq<ForeignKey>, up: bool, start: set<string>, tables: set<string>, waiting: set<string>,
                      table: string)
    requires Expanding(keys, up, start, tables, waiting, table, |keys|) && waiting <= tables
    ensures Reaching(keys, up, start, tables, waiting)
  {
    hide Reachable;
    forall key | key in keys && From(key, up) in tables && From(key, up) !in waiting ensures To(key, up) in tables {
      var i :| 0 <= i < |keys| && keys[i] == key;
    }
  }

  lemma ReachingEnds(keys: seq<ForeignKey>, up: bool, start: set<string>, tables: set<string>)
    requires Reaching(keys, up, start, tables, {})
    ensures IsReach(keys, up, start, tables)
  {
    forall other | start <= other && EdgeClosed(keys, up, other) ensures tables <= other {
      forall table | table in tables ensures table in other {
        assert Reachable(keys, up, start, table);
      }
    }
  }

  lemma MembersAppend(names: seq<string>, name: string)
    ensures Members(names + [name]) == Members(names) + {name}
  {
  }

  ghost function Universe(keys: seq<ForeignKey>, up: bool, start: set<string>): set<string> {
    start + set key | key in keys :: To(key, up)
  }

  lemma KeysInUniverse(keys: seq<ForeignKey>, up: bool, start: set<string>)
    ensures start <= Universe(keys, up, start)
    ensures forall k :: 0 <= k < |keys| ==> To(keys[k], up) in Universe(keys, up, start)
  {
  }

  lemma RoomShrinks(universe: set<string>, tables: set<string>, added: string)
    requires added in universe && added !in tables
    ensures |universe - (tables + {added})| < |universe - tables|
  {
    assert universe - tables == (universe - (tables + {added})) + {added};
  }

  /** One of _traverse's loops: tables are added until no waiting one's keys lead out. */
  method Reach(keys: seq<ForeignKey>, up: bool, start: set<string>) returns (tables: set<string>)
    ensures IsReach(keys, up, start, tables)
  {
    hide Reaching, Expanding, IsReach, Members, Universe, Sorted;
    tables := start;
    var frontier := Sorted(start);
    ghost var universe := Universe(keys, up, start);
    KeysInUniverse(keys, up, start);
    assert Members(frontier) == start by {
      SortedMembers(start);
    }
    ReachingStarts(keys, up, start);
    while frontier != []
      invariant Reaching(keys, up, start, tables, Members(frontier))
      invariant tables <= universe
      decreases |universe - tables|, |frontier|
    {
      var table := frontier[|frontier| - 1];
      assert frontier == frontier[..|frontier| - 1] + [table];
      MembersAppend(frontier[..|frontier| - 1], table);
      frontier := frontier[..|frontier| - 1];
      ExpandingStarts(keys, up, start, tables, Members(frontier), table);
      ghost var before, waited := tables, |frontier|;
      var k := 0;
      while k < |keys|
        invariant 0 <= k <= |keys|
        invariant Expanding(keys, up, start, tables, Members(frontier), table, k)
        invariant tables <= universe
        invariant (tables == before && |frontier| == waited) || |universe - tables| < |universe - before|
      {
        if From(keys[k], up) == table && To(keys[k], up) !in tables {
          ExpandingAdds(keys, up, start, tables, Members(frontier), table, k);
          MembersAppend(frontier, To(keys[k], up));
          RoomShrinks(universe, tables, To(keys[k], up));
          tables := tables + {To(keys[k], up)};
          frontier := frontier + [To(keys[k], up)];
        } else {
          ExpandingSkips(keys, up, start, tables, Members(frontier), table, k);
        }
        k := k + 1;
      }
      ExpandingWaits(keys, up, start, tables, Members(frontier), table);
      ExpandingEnds(keys, up, start, tables, Members(frontier), table);
    }
    assert Members([]) == {} by {
      NoMembers();
    }
    ReachingEnds(keys, up, start, tables);
  }

  /** _traverse: the tables on the way down, and all those included. */
  method Traverse(keys: seq<ForeignKey>, roots: set<string>, followChildren: bool)
    returns (down: set<string>, included: set<string>)
    ensures AreTables(keys, roots, followChildren, down, included)
  {
    hide IsReach;
    down := roots;
    if followChildren {
      down := Reach(keys, false, roots);
    }
    included := Reach(keys, true, down);
  }

  lemma NoMembers()
    ensures Members([]) == {}
  {
  }

  lemma SortedMembers(names: set<string>)
    ensures Members(Sorted(names)) == names
  {
  }

  lemma ExpandingStarts(keys: seq<ForeignKey>, up: bool, start: set<string>, tables: set<string>, waiting: set<string>,
                        table: string)
    requires Reaching(keys, up, start, tables, waiting + {table})
    ensures Expanding(keys, up, start, tables, waiting, table, 0)
  {
    hide Reachable;
  }

  lemma ExpandingWaits(keys: seq<ForeignKey>, up: bool, start: set<string>, tables: set<string>, waiting: set<string>,
                       table: string)
    requires Expanding(keys, up, start, tables, waiting, table, |keys|)
    ensures waiting <= tables
  {
  }

  // ---------- The plan ----------

  datatype PlanError = CycleFound(path: seq<string>) | TooDeep(depth: nat)

  datatype Plan = Plan(tables: seq<string>, queries: map<string, Query>, parents: map<string, seq<string>>,
                       ignored: seq<ForeignKey>)

  /** _ignored: any of a key's columns is named to be left out. */
  predicate Ignored(key: ForeignKey, ignore: set<(string, string)>) {
    exists k :: 0 <= k < |key.columns| && (key.table, key.columns[k]) in ignore
  }

  function KeysWhere(keys: seq<ForeignKey>, ignore: set<(string, string)>, ignored: bool): (r: seq<ForeignKey>)
    ensures forall key :: key in r <==> key in keys && Ignored(key, ignore) == ignored
  {
    if keys == [] then []
    else
      assert keys == [keys[0]] + keys[1..];
      (if Ignored(keys[0], ignore) == ignored then [keys[0]] else []) + KeysWhere(keys[1..], ignore, ignored)
  }

  function ParentsOf(keys: seq<ForeignKey>, table: string): (parents: seq<string>)
    ensures forall parent :: parent in parents <==> exists key ::
              key in keys && key.table == table && key.parent == parent
  {
    if keys == [] then []
    else
      assert keys == [keys[0]] + keys[1..];
      (if keys[0].table == table then [keys[0].parent] else []) + ParentsOf(keys[1..], table)
  }

  /** The graph a cycle is looked for in. */
  function IncludedGraph(keys: seq<ForeignKey>, included: set<string>): (graph: Graph)
    ensures graph.Keys == included
  {
    map table | table in included :: ParentsOf(keys, table)
  }

  ghost function PlanDependencies(s: Subset): (dependencies: Dependencies)
    ensures forall name :: name in dependencies <==> IsSelection(s, name)
    ensures forall name :: name in dependencies ==> dependencies[name] == Uses(Conditions(s, name))
  {
    var names := (set table | table in s.down :: Down(table)) + (set table | table in s.included :: Kept(table));
    map name | name in names :: Uses(Conditions(s, name))
  }

  /** One table's query: its kept rows, over exactly the selections they are built on, each defined before its use. */
  ghost predicate IsQueryOf(s: Subset, materialize: bool, table: string, query: Query)
    requires ValidSubset(s)
  {
    && query.result == Kept(table)
    && InOrder(s, materialize, query.definitions, {})
    && IsNeeded(PlanDependencies(s), Kept(table), Defined(query.definitions))
  }

  // ---------- Planning is valid ----------

  lemma ReachHasWay(keys: seq<ForeignKey>, up: bool, start: set<string>, tables: set<string>, table: string)
    requires IsReach(keys, up, start, tables) && table in tables - start
    ensures exists key :: key in keys && To(key, up) == table && From(key, up) in tables
  {
    var smaller := tables - {table};
    assert start <= smaller && !(tables <= smaller);
    if forall key :: key in keys && From(key, up) in tables ==> To(key, up) != table {
      assert EdgeClosed(keys, up, smaller);
    }
  }

  lemma OrderRanks(keys: seq<ForeignKey>, included: set<string>, order: seq<string>, key: ForeignKey)
    requires PredecessorsFirst(IncludedGraph(keys, included), order)
    requires forall table :: table in order <==> table in included
    requires key in keys && key.table in included && key.parent in included
    ensures Rank(order, key.parent) < Rank(order, key.table)
  {
    var i := IndexOf(order, key.table);
    assert Edge(IncludedGraph(keys, included), order[i], key.parent);
    var j :| 0 <= j < i && order[j] == key.parent;
    assert order[IndexOf(order, key.parent)] == order[j];
  }

  lemma PlanIsValid(s: Subset)
    requires AreTables(s.keys, {s.root}, s.followChildren, s.down, s.included)
    requires PredecessorsFirst(IncludedGraph(s.keys, s.included), s.order)
    requires forall table :: table in s.order <==> table in s.included
    ensures ValidSubset(s)
  {
    forall key | key in s.keys && key.table in s.included
      ensures key.parent in s.included && Rank(s.order, key.parent) < Rank(s.order, key.table)
    {
      assert From(key, true) in s.included && To(key, true) == key.parent;
      OrderRanks(s.keys, s.included, s.order, key);
    }
    if s.followChildren {
      forall key | key in s.keys && key.parent in s.down ensures key.table in s.down {
        assert From(key, false) in s.down && To(key, false) == key.table;
      }
    }
    forall table | table in s.down && table != s.root ensures HasParent(s.keys, table, s.down) {
      ReachHasWay(s.keys, false, {s.root}, s.down, table);
      var key :| key in s.keys && To(key, false) == table && From(key, false) in s.down;
    }
    forall table | table in s.included - s.down ensures HasChild(s.keys, table, s.included) {
      ReachHasWay(s.keys, true, s.down, s.included, table);
      var key :| key in s.keys && To(key, true) == table && From(key, true) in s.included;
    }
    assert s.root in {s.root};
  }

  // ---------- Chains are short ----------

  /** How long a chain of selections from here can be. */
  ghost function Level(s: Subset, name: Selection): int {
    match name
    case Down(table) => Rank(s.order, table) + 1
    case Kept(table) => 2 * |s.order| - 1 - Rank(s.order, table)
  }

  /** Where a selection's EXISTS comes from: a key to a parent followed down, or a key from an included child. */
  lemma Origin(s: Subset, name: Selection, c: Condition) returns (key: ForeignKey)
    requires ValidSubset(s) && IsSelection(s, name) && c in Conditions(s, name) && c.Exists?
    ensures key in s.keys && key.table in s.included
    ensures if c.selection.Down? then key.table == name.table && name.table in s.down && key.parent in s.down &&
            c == ToParent(key)
            else name.Kept? && key.parent == name.table && c == ToChild(key)
  {
    hide ParentsRankLower, HasParent, HasChild, Distinct;
    var table := name.table;
    if table in s.down && c in DownConditions(s, table) {
      key :| key in s.keys && key.table == table && key.parent in s.down && c == ToParent(key);
    } else {
      key :| key in s.keys && key.parent == table && key.table in s.included && c == ToChild(key);
    }
  }

  lemma UsesLower(s: Subset, name: Selection, used: Selection)
    requires ValidSubset(s) && IsSelection(s, name) && used in Uses(Conditions(s, name))
    ensures IsSelection(s, used) && 1 <= Level(s, used) < Level(s, name)
  {
    hide Conditions, HasParent, HasChild, Distinct;
    var c :| c in Conditions(s, name) && c.Exists? && c.selection == used;
    var key := Origin(s, name, c);
  }

  lemma {:induction false} ChainsAreShort(s: Subset, dependencies: Dependencies, chain: seq<Selection>)
    requires ValidSubset(s) && IsChain(dependencies, chain) && chain[0] in dependencies
    requires forall name :: name in dependencies ==>
               IsSelection(s, name) && dependencies[name] == Uses(Conditions(s, name))
    requires forall name, used :: name in dependencies && used in dependencies[name] ==> used in dependencies
    ensures |chain| <= Level(s, chain[0]) <= 2 * |s.order| - 1
    decreases |chain|
  {
    hide ValidSubset, Conditions;
    LevelBounds(s, chain[0]);
    if |chain| > 1 {
      assert chain[0 + 1] in dependencies[chain[0]];
      ChainTail(dependencies, chain);
      UsesLower(s, chain[0], chain[1]);
      ChainsAreShort(s, dependencies, chain[1..]);
    }
  }

  lemma LevelBounds(s: Subset, name: Selection)
    requires ValidSubset(s) && IsSelection(s, name)
    ensures 1 <= Level(s, name) <= 2 * |s.order| - 1
  {
  }

  // ---------- What is defined as planning goes on ----------

  ghost function DownNames(s: Subset, k: nat): set<Selection>
    requires k <= |s.order|
  {
    set i | 0 <= i < k && s.order[i] in s.down :: Down(s.order[i])
  }

  ghost function KeptNames(s: Subset, k: nat): set<Selection>
    requires k <= |s.order|
  {
    set i | k <= i < |s.order| :: Kept(s.order[i])
  }

  lemma ParentDefined(s: Subset, k: nat)
    requires ValidSubset(s) && k < |s.order| && s.order[k] in s.down
    ensures Refers(Conditions(s, Down(s.order[k])), DownNames(s, k))
  {
    var table := s.order[k];
    forall c | c in DownConditions(s, table) && c.Exists? ensures c.selection in DownNames(s, k) {
      assert c in Conditions(s, Down(table));
      var key := Origin(s, Down(table), c);
      assert Rank(s.order, table) == k;
      assert s.order[Rank(s.order, key.parent)] == key.parent;
    }
  }

  lemma ChildDefined(s: Subset, k: nat)
    requires ValidSubset(s) && k < |s.order|
    ensures Refers(Conditions(s, Kept(s.order[k])), DownNames(s, |s.order|) + KeptNames(s, k + 1))
  {
    var table := s.order[k];
    assert Rank(s.order, table) == k;
    forall c | c in KeptConditions(s, table) && c.Exists?
      ensures c.selection in DownNames(s, |s.order|) + KeptNames(s, k + 1)
    {
      assert c in Conditions(s, Kept(table));
      var key := Origin(s, Kept(table), c);
      assert s.order[Rank(s.order, c.selection.table)] == c.selection.table;
    }
  }

  /** The builder holds just the plan's definitions of some selections, in order. */
  ghost predicate Built(s: Subset, materialize: bool, bodies: seq<Definition>, dependencies: Dependencies,
                        names: set<Selection>)
    requires ValidSubset(s)
  {
    && InOrder(s, materialize, bodies, {})
    && dependencies.Keys == names == Defined(bodies)
    && forall name :: name in dependencies ==> IsSelection(s, name) && dependencies[name] == Uses(Conditions(s, name))
  }

  lemma BuiltNext(s: Subset, materialize: bool, bodies: seq<Definition>, dependencies: Dependencies,
                  names: set<Selection>, name: Selection)
    requires ValidSubset(s) && Built(s, materialize, bodies, dependencies, names)
    requires IsSelection(s, name) && Refers(Conditions(s, name), names)
    ensures Conditions(s, name) != []
    ensures Built(s, materialize, bodies + [Definition(name, BodyFor(name.table, Conditions(s, name), materialize))],
                  dependencies[name := Uses(Conditions(s, name))], names + {name})
  {
    hide ValidSubset, InOrder, Conditions, BodyFor;
    ConditionsExist(s, name);
    var definition := Definition(name, BodyFor(name.table, Conditions(s, name), materialize));
    assert Follows(s, materialize, definition, Defined(bodies));
    AppendedInOrder(s, materialize, bodies, definition);
    DefinedConcat(bodies, [definition]);
    assert Defined([definition]) == {name} by {
      assert [definition][0].selection in Defined([definition]);
    }
  }

  lemma DownNamesNext(s: Subset, k: nat)
    requires ValidSubset(s) && k < |s.order|
    ensures s.order[k] in s.down ==>
              DownNames(s, k + 1) == DownNames(s, k) + {Down(s.order[k])} && Down(s.order[k]) !in DownNames(s, k)
    ensures s.order[k] !in s.down ==> DownNames(s, k + 1) == DownNames(s, k)
  {
  }

  lemma KeptNamesNext(s: Subset, k: nat)
    requires ValidSubset(s) && k < |s.order|
    ensures KeptNames(s, k) == KeptNames(s, k + 1) + {Kept(s.order[k])}
    ensures Kept(s.order[k]) !in KeptNames(s, k + 1) && Kept(s.order[k]) !in DownNames(s, |s.order|)
  {
  }

  /** The first loop: parents first on the way down. */
  method DefineDown(builder: Builder, s: Subset)
    requires ValidSubset(s) && builder.Valid() &&
             Built(s, builder.materialize, builder.bodies, builder.dependencies, {})
    modifies builder
    ensures builder.Valid()
    ensures Built(s, builder.materialize, builder.bodies, builder.dependencies, DownNames(s, |s.order|))
  {
    hide InOrder, BodyFor, ValidBuild, DownNames, Conditions, Refers, ValidSubset;
    assert DownNames(s, 0) == {} by {
      NoDownNames(s);
    }
    for k := 0 to |s.order|
      invariant builder.Valid()
      invariant Built(s, builder.materialize, builder.bodies, builder.dependencies, DownNames(s, k))
    {
      DownNamesNext(s, k);
      if s.order[k] in s.down {
        assert IsSelection(s, Down(s.order[k]));
        ParentDefined(s, k);
        BuiltNext(s, builder.materialize, builder.bodies, builder.dependencies, DownNames(s, k), Down(s.order[k]));
        builder.Define(Down(s.order[k]), Conditions(s, Down(s.order[k])));
      }
    }
  }

  lemma NoDownNames(s: Subset)
    ensures DownNames(s, 0) == {}
  {
  }

  lemma NoKeptNames(s: Subset)
    ensures KeptNames(s, |s.order|) == {}
  {
  }

  lemma OrderIncluded(s: Subset, k: nat)
    requires ValidSubset(s) && k < |s.order|
    ensures s.order[k] in s.included
  {
  }

  /** The second loop: children before parents for what is kept. */
  method DefineKept(builder: Builder, s: Subset)
    requires ValidSubset(s) && builder.Valid()
    requires Built(s, builder.materialize, builder.bodies, builder.dependencies, DownNames(s, |s.order|))
    modifies builder
    ensures builder.Valid()
    ensures Built(s, builder.materialize, builder.bodies, builder.dependencies,
                  DownNames(s, |s.order|) + KeptNames(s, 0))
  {
    hide InOrder, BodyFor, ValidBuild, DownNames, KeptNames, Conditions, Refers, ValidSubset;
    var k := |s.order|;
    ghost var down := DownNames(s, |s.order|);
    NoKeptNames(s);
    assert down + {} == down;
    while k > 0
      invariant 0 <= k <= |s.order|
      invariant builder.Valid()
      invariant Built(s, builder.materialize, builder.bodies, builder.dependencies, down + KeptNames(s, k))
    {
      k := k - 1;
      KeptNamesNext(s, k);
      ChildDefined(s, k);
      var name := Kept(s.order[k]);
      assert IsSelection(s, name) by {
        OrderIncluded(s, k);
      }
      BuiltNext(s, builder.materialize, builder.bodies, builder.dependencies, down + KeptNames(s, k + 1), name);
      assert down + KeptNames(s, k) == down + KeptNames(s, k + 1) + {name};
      builder.Define(name, Conditions(s, name));
    }
  }

  lemma AllNames(s: Subset, dependencies: Dependencies)
    requires ValidSubset(s)
    requires dependencies.Keys == DownNames(s, |s.order|) + KeptNames(s, 0)
    requires forall name :: name in dependencies ==>
               IsSelection(s, name) && dependencies[name] == Uses(Conditions(s, name))
    ensures dependencies == PlanDependencies(s)
  {
    forall name | IsSelection(s, name) ensures name in dependencies {
      assert s.order[Rank(s.order, name.table)] == name.table;
    }
  }

  /** A pruned query holds exactly what its result is built on, still in order. */
  lemma QueryIsPruned(s: Subset, materialize: bool, bodies: seq<Definition>, dependencies: Dependencies, table: string,
                      needed: set<Selection>)
    requires ValidSubset(s) && table in s.included && dependencies == PlanDependencies(s)
    requires Built(s, materialize, bodies, dependencies, dependencies.Keys)
    requires IsNeeded(dependencies, Kept(table), needed) && needed <= dependencies.Keys
    ensures IsQueryOf(s, materialize, table, Query(Only(bodies, needed), Kept(table)))
  {
    hide ValidSubset, InOrder, Conditions;
    forall k | 0 <= k < |bodies| && bodies[k].selection in needed
      ensures Refers(Conditions(s, bodies[k].selection), needed)
    {
      var name := bodies[k].selection;
      forall c | c in Conditions(s, name) && c.Exists? ensures c.selection in needed {
        assert c.selection in Uses(Conditions(s, name));
      }
    }
    PruningKeepsOrder(s, materialize, bodies, needed);
    OnlyDefines(bodies, needed);
    assert Defined(bodies) * needed == needed;
  }

  lemma OrderIsIncluded(s: Subset)
    requires ValidSubset(s)
    ensures forall table :: table in s.order <==> table in s.included
  {
  }

  lemma KeptIsPlanned(s: Subset, table: string)
    requires table in s.included
    ensures Kept(table) in PlanDependencies(s)
  {
  }

  method WriteQueries(builder: Builder, s: Subset) returns (queries: map<string, Query>)
    requires ValidSubset(s) && builder.Valid() && builder.dependencies == PlanDependencies(s)
    requires Built(s, builder.materialize, builder.bodies, builder.dependencies, builder.dependencies.Keys)
    ensures queries.Keys == s.included
    ensures forall table :: table in queries ==> IsQueryOf(s, builder.materialize, table, queries[table])
  {
    hide *;
    OrderIsIncluded(s);
    queries := map[];
    for k := 0 to |s.order|
      invariant forall table :: table in queries <==> table in s.order[..k]
      invariant forall table :: table in queries ==> IsQueryOf(s, builder.materialize, table, queries[table])
    {
      var table := s.order[k];
      assert s.order[..k + 1] == s.order[..k] + [table];
      assert table in s.order;
      KeptIsPlanned(s, table);
      var query, needed := builder.QueryFor(Kept(table));
      QueryIsPruned(s, builder.materialize, builder.bodies, builder.dependencies, table, needed);
      queries := queries[table := query];
    }
    assert s.order[..|s.order|] == s.order;
  }

  /** The parents a table's job waits for, in alphabetical order. */
  function PlannedParents(s: Subset, table: string): seq<string> {
    Sorted(set parent | parent in ParentsOf(s.keys, table) && parent in s.included)
  }

  ghost predicate HasChain(dependencies: Dependencies, length: nat) {
    exists chain :: IsChain(dependencies, chain) && chain[0] in dependencies && |chain| == length
  }

  ghost predicate ChainsWithin(dependencies: Dependencies, length: nat) {
    forall chain :: IsChain(dependencies, chain) && chain[0] in dependencies ==> |chain| <= length
  }

  /** Every included table once, in load order, each with its query and the parents its job waits for. */
  ghost predicate IsPlan(s: Subset, materialize: bool, plan: Plan)
    requires ValidSubset(s)
  {
    && plan.tables == s.order
    && plan.queries.Keys == plan.parents.Keys == s.included
    && (forall table :: table in plan.queries ==> IsQueryOf(s, materialize, table, plan.queries[table]))
    && (forall table :: table in plan.parents ==> plan.parents[table] == PlannedParents(s, table))
  }

  /** The queries of a subset that has an order, or how deep its chains go past the limit. */
  method BuildPlan(s: Subset, materialize: bool, ignored: seq<ForeignKey>) returns (result: Result<Plan, nat>)
    requires ValidSubset(s)
    ensures result.Ok? ==> IsPlan(s, materialize, result.value) && result.value.ignored == ignored
    ensures result.Ok? ==> ChainsWithin(PlanDependencies(s), MAX_SELECTION_DEPTH)
    ensures result.Err? ==> HasChain(PlanDependencies(s), result.error)
    ensures result.Err? ==> MAX_SELECTION_DEPTH < result.error <= 2 * |s.included| - 1
  {
    hide ValidSubset, IsQueryOf, Built, InOrder, IsChain, PlanDependencies, PlannedParents, DownNames, KeptNames,
        ValidBuild;
    var builder := new Builder(materialize);
    NothingBuilt(s, materialize);
    DefineDown(builder, s);
    DefineKept(builder, s);
    EverythingBuilt(s, materialize, builder.bodies, builder.dependencies);
    var depth := builder.Depth();
    DepthIsBounded(s, builder.dependencies, depth);
    if depth > MAX_SELECTION_DEPTH {
      return Err(depth);
    }
    var queries := WriteQueries(builder, s);
    var parents := map table | table in s.included :: PlannedParents(s, table);
    return Ok(Plan(s.order, queries, parents, ignored));
  }

  /** For every source and root filter, each planned query copies exactly its table's rows of the closure. */
  lemma PlanCopiesClosure(s: Subset, materialize: bool, table: string, query: Query, database: Database,
                          filter: Row -> Truth)
    requires ValidSubset(s) && table in s.included && IsQueryOf(s, materialize, table, query)
    ensures CopiesClosure(s.keys, s.root, s.followChildren, query, table, database, filter)
  {
    hide ValidSubset, InOrder;
    QueryCopiesClosure(s, materialize, query, table, database, filter);
  }

  /** For every source and filter, each query copies exactly its table's rows of the closure. */
  ghost predicate QueriesCopyClosure(keys: seq<ForeignKey>, root: string, followChildren: bool,
                                     queries: map<string, Query>) {
    forall table, database, filter :: table in queries ==>
        CopiesClosure(keys, root, followChildren, queries[table], table, database, filter)
  }

  lemma PlanQueriesCopyClosure(s: Subset, materialize: bool, plan: Plan)
    requires ValidSubset(s) && IsPlan(s, materialize, plan)
    ensures QueriesCopyClosure(s.keys, s.root, s.followChildren, plan.queries)
  {
    hide ValidSubset, IsQueryOf, CopiesClosure;
    forall table, database, filter | table in plan.queries
      ensures CopiesClosure(s.keys, s.root, s.followChildren, plan.queries[table], table, database, filter)
    {
      PlanCopiesClosure(s, materialize, table, plan.queries[table], database, filter);
    }
  }

  /** Whatever a copied row references by a key, where the source has it, is copied by its own table's query. */
  ghost predicate ReferencesAreCopied(keys: seq<ForeignKey>, queries: map<string, Query>, database: Database,
                                      filter: Row -> Truth) {
    forall key, child, parent ::
      key in keys && key.table in queries && child in EvaluateQuery(queries[key.table], database, filter) &&
      parent in database(key.parent) && References(key, child, parent) ==>
        key.parent in queries && parent in EvaluateQuery(queries[key.parent], database, filter)
  }

  ghost predicate NoReferenceIsBroken(keys: seq<ForeignKey>, queries: map<string, Query>) {
    forall database, filter :: ReferencesAreCopied(keys, queries, database, filter)
  }

  lemma PlanBreaksNoReference(s: Subset, materialize: bool, plan: Plan)
    requires ValidSubset(s) && IsPlan(s, materialize, plan)
    ensures NoReferenceIsBroken(s.keys, plan.queries)
  {
    hide ValidSubset, IsQueryOf, CopiesClosure, EvaluateQuery, References;
    PlanQueriesCopyClosure(s, materialize, plan);
    forall database, filter ensures ReferencesAreCopied(s.keys, plan.queries, database, filter) {
      forall key, child, parent |
        key in s.keys && key.table in plan.queries &&
            child in EvaluateQuery(plan.queries[key.table], database, filter) &&
        parent in database(key.parent) && References(key, child, parent)
        ensures key.parent in plan.queries && parent in EvaluateQuery(plan.queries[key.parent], database, filter)
      {
        ParentIsIncluded(s, key);
        CopiedReferencesAreCopied(s.keys, s.root, s.followChildren, plan.queries[key.table], plan.queries[key.parent],
                                  database, filter, key, child, parent);
      }
    }
  }

  lemma ParentIsIncluded(s: Subset, key: ForeignKey)
    requires ValidSubset(s) && key in s.keys && key.table in s.included
    ensures key.parent in s.included
  {
  }

  /** planSubset, with what it settled on the way. */
  method PlanSubset(foreignKeys: seq<ForeignKey>, root: string, followChildren: bool, ignore: set<(string, string)>,
                    materialize: bool)
    returns (result: Result<Plan, PlanError>, s: Subset)
    ensures s.keys == KeysWhere(foreignKeys, ignore, false) && s.root == root && s.followChildren == followChildren
    ensures AreTables(s.keys, {root}, followChildren, s.down, s.included)
    // Refused for a cycle exactly where the included tables have one, and otherwise only for a chain too deep.
    ensures result.Err? && result.error.CycleFound? <==> !Acyclic(IncludedGraph(s.keys, s.included))
    ensures result.Err? && result.error.CycleFound? ==> IsCycle(IncludedGraph(s.keys, s.included), result.error.path)
    ensures result.Err? && result.error.TooDeep? ==>
              HasChain(PlanDependencies(s), result.error.depth) &&
                  MAX_SELECTION_DEPTH < result.error.depth <= 2 * |s.included| - 1
    ensures result.Ok? ==> ValidSubset(s) && PredecessorsFirst(IncludedGraph(s.keys, s.included), s.order)
    ensures result.Ok? ==> IsPlan(s, materialize, result.value)
    ensures result.Ok? ==> result.value.ignored == KeysWhere(foreignKeys, ignore, true)
    ensures result.Ok? ==> ChainsWithin(PlanDependencies(s), MAX_SELECTION_DEPTH)
    // What a subset is for: whatever is in the source and whatever the filter says of it.
    ensures result.Ok? ==> QueriesCopyClosure(s.keys, root, followChildren, result.value.queries)
    ensures result.Ok? ==> NoReferenceIsBroken(s.keys, result.value.queries)
  {
    hide *;
    var keys := KeysWhere(foreignKeys, ignore, false);
    var down, included := Traverse(keys, {root}, followChildren);
    var graph := IncludedGraph(keys, included);
    s := Subset(keys, root, followChildren, down, included, []);
    var found := FindCycle(graph);
    if found.Some? {
      CycleIsNotAcyclic(graph, found.value);
      return Err(CycleFound(found.value)), s;
    }
    LayersStopExactlyAtCycles(graph);
    var order, left := TakeLayers(graph, included);
    var subset := Subset(keys, root, followChildren, down, included, order);
    s := subset;
    PlanIsValid(s);
    var built := BuildPlan(subset, materialize, KeysWhere(foreignKeys, ignore, true));
    if built.Ok? {
      PlanQueriesCopyClosure(s, materialize, built.value);
      PlanBreaksNoReference(s, materialize, built.value);
    }
    return if built.Ok? then Ok(built.value) else Err(TooDeep(built.error)), s;
  }

  lemma NothingBuilt(s: Subset, materialize: bool)
    requires ValidSubset(s)
    ensures Built(s, materialize, [], map[], {})
  {
  }

  lemma EverythingBuilt(s: Subset, materialize: bool, bodies: seq<Definition>, dependencies: Dependencies)
    requires ValidSubset(s) && Built(s, materialize, bodies, dependencies, DownNames(s, |s.order|) + KeptNames(s, 0))
    ensures dependencies == PlanDependencies(s) && Built(s, materialize, bodies, dependencies, dependencies.Keys)
    ensures bodies != []
  {
    hide ValidSubset, InOrder, Conditions;
    AllNames(s, dependencies);
    assert Kept(s.root) in dependencies by {
      assert s.root in s.included by {
        RootIncluded(s);
      }
    }
  }

  lemma RootIncluded(s: Subset)
    requires ValidSubset(s)
    ensures s.root in s.included && |s.order| == |s.included|
  {
    OrderSize(s.order, s.included);
  }

  lemma {:induction false} OrderSize(order: seq<string>, names: set<string>)
    requires Distinct(order) && forall name :: name in order <==> name in names
    ensures |order| == |names|
  {
    if order == [] {
      assert names == {};
    } else {
      var rest := order[1..];
      assert order == [order[0]] + rest;
      assert forall i :: 0 <= i < |rest| ==> rest[i] == order[i + 1];
      OrderSize(rest, names - {order[0]});
    }
  }

  lemma DepthIsBounded(s: Subset, dependencies: Dependencies, depth: nat)
    requires ValidSubset(s) && dependencies == PlanDependencies(s)
    requires exists chain :: IsChain(dependencies, chain) && chain[0] in dependencies && |chain| == depth
    ensures depth <= 2 * |s.included| - 1
  {
    hide ValidSubset, Conditions;
    RootIncluded(s);
    var chain :| IsChain(dependencies, chain) && chain[0] in dependencies && |chain| == depth;
    forall name, used | name in dependencies && used in dependencies[name] ensures used in dependencies {
      UsesLower(s, name, used);
    }
    ChainsAreShort(s, dependencies, chain);
  }

  /** Planned with selections materialized or not -- UNION ALL branches or OR -- a table's query copies the same bag. */
  lemma EncodingsCopyTheSame(s: Subset, table: string, unions: Query, ors: Query, database: Database,
                             filter: Row -> Truth)
    requires ValidSubset(s) && table in s.included
    requires IsQueryOf(s, true, table, unions) && IsQueryOf(s, false, table, ors)
    ensures multiset(EvaluateQuery(unions, database, filter)) == multiset(EvaluateQuery(ors, database, filter))
  {
    hide ValidSubset, IsQueryOf, EvaluateQuery, CopiesClosure;
    PlanCopiesClosure(s, true, table, unions, database, filter);
    PlanCopiesClosure(s, false, table, ors, database, filter);
    ClosureIsUnique(s.keys, s.root, s.followChildren, unions, ors, table, database, filter);
  }
}
