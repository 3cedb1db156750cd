/** The order tables are created and cleared in: orderParentsFirst in bauta/generate/schema.py. */
module SchemaOrder {
  import opened Wrappers
  import opened Cycles

  /** A table and one it references, by the keys tables are matched by. */
  datatype Reference = Reference(child: string, parent: string)

  /** Every reference between tables of the set, a table's to itself included. */
  ghost function References(tables: set<string>, references: seq<Reference>): (graph: Graph)
    ensures graph.Keys == tables
    ensures forall a, b :: Edge(graph, a, b) <==> a in tables && b in tables && Reference(a, b) in references
  {
    map table | table in tables :: Targets(table, references)
  }

  function Targets(table: string, references: seq<Reference>): (targets: seq<string>)
    ensures forall b :: b in targets <==> Reference(table, b) in references
  {
    if references == [] then []
    else
      var rest := Targets(table, references[1..]);
      assert references == [references[0]] + references[1..];
      if references[0].child == table then [references[0].parent] + rest else rest
  }

  /** Two or more tables form a cycle: some closed path of references visits two different ones. */
  ghost predicate TwoTablesFormACycle(tables: set<string>, references: seq<Reference>) {
    exists path :: IsCycle(References(tables, references), path) && VisitsTwo(path)
  }

  ghost predicate VisitsTwo(path: seq<string>) {
    exists i, j :: 0 <= i < j < |path| && path[i] != path[j]
  }

  /** The graph the order is taken from: what the loop over the keys collects. */
  ghost predicate IsParents(graph: Graph, tables: set<string>, references: seq<Reference>) {
    && graph.Keys == tables
    && forall a, b :: a in graph ==>
         (b in graph[a] <==> a != b && b in tables && Reference(a, b) in references)
  }

  function Unstuttered(path: seq<string>): seq<string>
  {
    if |path| < 2 then path
    else if path[0] == path[1] then Unstuttered(path[1..])
    else [path[0]] + Unstuttered(path[1..])
  }

  lemma {:induction false} UnstutteredWalks(graph: Graph, tables: set<string>, references: seq<Reference>,
                                            path: seq<string>)
    requires IsParents(graph, tables, references)
    requires IsWalk(References(tables, references), path) && path != []
    ensures var shorter := Unstuttered(path);
            && IsWalk(graph, shorter) && shorter != []
            && shorter[0] == path[0] && shorter[|shorter| - 1] == path[|path| - 1]
            && forall name :: name in path ==> name in shorter
  {
    if |path| >= 2 {
      var full := References(tables, references);
      assert Edge(full, path[1 - 1], path[1]);
      forall i | 0 < i < |path[1..]| ensures Edge(full, path[1..][i - 1], path[1..][i]) {
        assert path[1..][i] == path[i + 1];
      }
      UnstutteredWalks(graph, tables, references, path[1..]);
      assert path == [path[0]] + path[1..];
      var rest := Unstuttered(path[1..]);
      if path[0] != path[1] {
        forall i | 0 < i < |[path[0]] + rest| ensures Edge(graph, ([path[0]] + rest)[i - 1], ([path[0]] + rest)[i]) {
          if i > 1 {
            assert Edge(graph, rest[i - 1 - 1], rest[i - 1]);
          }
        }
      }
    }
  }

  /** Leaving out self-references leaves the cycles of two or more tables. */
  lemma CyclesOfTwo(graph: Graph, tables: set<string>, references: seq<Reference>)
    requires IsParents(graph, tables, references)
    ensures Acyclic(graph) <==> !TwoTablesFormACycle(tables, references)
  {
    var full := References(tables, references);
    forall path | IsCycle(graph, path) ensures IsCycle(full, path) && VisitsTwo(path) {
      forall i | 0 < i < |path| ensures Edge(full, path[i - 1], path[i]) {
        assert Edge(graph, path[i - 1], path[i]);
      }
      assert Edge(graph, path[1 - 1], path[1]);
      assert path[0] != path[1];
    }
    forall path | IsCycle(full, path) && VisitsTwo(path) ensures !Acyclic(graph) {
      UnstutteredWalks(graph, tables, references, path);
      var shorter := Unstuttered(path);
      var i, j :| 0 <= i < j < |path| && path[i] != path[j];
      assert path[i] in shorter && path[j] in shorter;
      assert IsCycle(graph, shorter);
    }
  }

  /** Each table once, after every other table it references. */
  ghost predicate IsParentsFirst(order: seq<string>, tables: set<string>, references: seq<Reference>) {
    && Distinct(order)
    && (forall name :: name in order <==> name in tables)
    && forall i, b :: 0 <= i < |order| && b in tables && b != order[i] && Reference(order[i], b) in references ==>
        b in order[..i]
  }

  /** orderParentsFirst: an error names the tables no order is left for. */
  method OrderParentsFirst(tables: set<string>, references: seq<Reference>)
    returns (result: Result<seq<string>, set<string>>)
    ensures result.Err? <==> TwoTablesFormACycle(tables, references)
    ensures result.Ok? ==> IsParentsFirst(result.value, tables, references)
    ensures result.Err? ==> result.error != {} && result.error <= tables
  {
    var parents: Graph := map table | table in tables :: [];
    for k := 0 to |references|
      invariant parents.Keys == tables
      invariant forall a, b :: a in parents ==>
                  (b in parents[a] <==> a != b && b in tables && Reference(a, b) in references[..k])
    {
      var child, parent := references[k].child, references[k].parent;
      assert references[..k + 1] == references[..k] + [Reference(child, parent)];
      if child in tables && parent in tables && child != parent {
        parents := parents[child := parents[child] + [parent]];
      }
    }
    assert references[..|references|] == references;
    CyclesOfTwo(parents, tables, references);
    LayersStopExactlyAtCycles(parents);
    LayersAreOrdered(parents, tables);
    var order, left := TakeLayers(parents, tables);
    if left != {} {
      return Err(left);
    }
    forall i, b | 0 <= i < |order| && b in tables && b != order[i] && Reference(order[i], b) in references
      ensures b in order[..i]
    {
      assert order[i] in order && Edge(parents, order[i], b);
    }
    return Ok(order);
  }
}
