/**
 Finding a cycle among jobs, tables or whatever else waits for another
 (findCycle in bauta/configuration/models.py), and the orders an acyclic
 graph has.
 */
module Cycles {
  import opened Wrappers
  import opened Names

  /** What each name waits for; a predecessor that is no key is ignored. */
  type Graph = map<string, seq<string>>

  predicate Edge(graph: Graph, a: string, b: string) {
    a in graph && b in graph && b in graph[a]
  }

  ghost predicate IsWalk(graph: Graph, path: seq<string>) {
    forall i {:trigger path[i]} :: 0 < i < |path| ==> Edge(graph, path[i - 1], path[i])
  }

  /** A path of predecessor edges that ends where it starts. */
  ghost predicate IsCycle(graph: Graph, path: seq<string>) {
    |path| >= 2 && path[0] == path[|path| - 1] && IsWalk(graph, path)
  }

  ghost predicate Acyclic(graph: Graph) {
    forall path :: !IsCycle(graph, path)
  }

  ghost predicate Distinct(names: seq<string>) {
    forall i, j :: 0 <= i < j < |names| ==> names[i] != names[j]
  }

  /** Everything an element of `order` waits for comes before it. */
  ghost predicate PredecessorsFirst(graph: Graph, order: seq<string>) {
    && Distinct(order)
    && forall i, b :: 0 <= i < |order| && Edge(graph, order[i], b) ==> b in order[..i]
  }

  lemma {:induction false} WalkGoesBack(graph: Graph, order: seq<string>, path: seq<string>, start: nat)
    requires PredecessorsFirst(graph, order) && IsWalk(graph, path) && |path| >= 1
    requires start < |order| && path[0] == order[start]
    ensures path[|path| - 1] in order[..start + 1]
    ensures |path| >= 2 ==> path[|path| - 1] in order[..start]
    decreases |path|
  {
    if |path| >= 2 {
      assert Edge(graph, path[1 - 1], path[1]);
      var next :| 0 <= next < start && order[next] == path[1];
      forall i | 0 < i < |path[1..]| ensures Edge(graph, path[1..][i - 1], path[1..][i]) {
        assert path[1..][i] == path[i + 1];
      }
      WalkGoesBack(graph, order, path[1..], next);
    }
  }

  lemma OrderedIsAcyclic(graph: Graph, order: seq<string>)
    requires PredecessorsFirst(graph, order)
    requires forall name :: name in graph ==> name in order
    ensures Acyclic(graph)
  {
    forall path | IsCycle(graph, path) ensures false {
      assert Edge(graph, path[1 - 1], path[1]);
      var start :| 0 <= start < |order| && order[start] == path[0];
      WalkGoesBack(graph, order, path, start);
    }
  }

  /** The search's bookkeeping: names being visited are on the path, and
      whatever a visited name waits for was visited before it. */
  ghost predicate ValidSearch(graph: Graph, state: map<string, int>, path: seq<string>, ended: seq<string>) {
    && state.Keys <= graph.Keys
    && (forall name :: name in state ==> state[name] == 1 || state[name] == 2)
    && (forall name :: name in path <==> name in state && state[name] == 1)
    && (forall name :: name in ended <==> name in state && state[name] == 2)
    && Distinct(path)
    && IsWalk(graph, path)
    && PredecessorsFirst(graph, ended)
  }

  lemma EnteringKeepsSearch(graph: Graph, state: map<string, int>, path: seq<string>, ended: seq<string>, job: string)
    requires ValidSearch(graph, state, path, ended)
    requires job in graph && job !in state
    requires path != [] ==> Edge(graph, path[|path| - 1], job)
    ensures ValidSearch(graph, state[job := 1], path + [job], ended)
  {
  }

  lemma EndedKeepsOrder(graph: Graph, ended: seq<string>, job: string)
    requires PredecessorsFirst(graph, ended) && job !in ended
    requires forall b :: Edge(graph, job, b) ==> b in ended
    ensures PredecessorsFirst(graph, ended + [job])
  {
    var all := ended + [job];
    forall i, b | 0 <= i < |all| && Edge(graph, all[i], b) ensures b in all[..i] {
      assert all[..i] == ended[..i];
    }
  }

  lemma PathShortens(graph: Graph, path: seq<string>, job: string)
    requires Distinct(path + [job]) && IsWalk(graph, path + [job])
    ensures Distinct(path) && IsWalk(graph, path) && job !in path
    ensures forall name :: name in path + [job] <==> name in path || name == job
  {
    var longer := path + [job];
    assert longer[|path|] == job;
    forall i | 0 <= i < |path| ensures path[i] != job {
      assert longer[i] == path[i];
    }
    forall i | 0 < i < |path| ensures Edge(graph, path[i - 1], path[i]) {
      assert longer[i] == path[i] && longer[i - 1] == path[i - 1];
    }
    forall i, j | 0 <= i < j < |path| ensures path[i] != path[j] {
      assert longer[i] == path[i] && longer[j] == path[j];
    }
  }

  lemma LeavingKeepsSearch(graph: Graph, state: map<string, int>, path: seq<string>, ended: seq<string>, job: string)
    requires ValidSearch(graph, state, path + [job], ended)
    requires forall b :: Edge(graph, job, b) ==> b in ended
    ensures ValidSearch(graph, state[job := 2], path, ended + [job])
  {
    hide Distinct, IsWalk, PredecessorsFirst, Edge;
    PathShortens(graph, path, job);
    assert job in path + [job];
    EndedKeepsOrder(graph, ended, job);
  }

  /** What a name's state says of it. */
  lemma SearchSays(graph: Graph, state: map<string, int>, path: seq<string>, ended: seq<string>, name: string)
    requires ValidSearch(graph, state, path, ended)
    ensures IsWalk(graph, path)
    ensures name in state ==> if state[name] == 1 then name in path else name in ended
    ensures name in path ==> name in state && state[name] == 1
  {
  }

  lemma SearchOrders(graph: Graph, state: map<string, int>, path: seq<string>, ended: seq<string>)
    requires ValidSearch(graph, state, path, ended)
    ensures PredecessorsFirst(graph, ended)
  {
  }

  lemma PathCloses(graph: Graph, path: seq<string>, index: nat, predecessor: string)
    requires IsWalk(graph, path) && index < |path| && path[index] == predecessor
    requires Edge(graph, path[|path| - 1], predecessor)
    ensures IsCycle(graph, path[index..] + [predecessor])
  {
    var closed := path[index..] + [predecessor];
    forall i | 0 < i < |closed| ensures Edge(graph, closed[i - 1], closed[i]) {
      if i < |closed| - 1 {
        assert closed[i] == path[index + i];
      }
    }
  }

  lemma FewerUnseen(graph: Graph, before: set<string>, now: set<string>, job: string)
    requires before + {job} <= now && job in graph && job !in before
    ensures |graph.Keys - now| < |graph.Keys - before|
  {
    var larger, smaller := graph.Keys - before, graph.Keys - now;
    assert larger == (larger - smaller) + smaller;
    assert job in larger - smaller;
  }

  class CycleFinder {
    const graph: Graph
    // 1 while a name is being visited, 2 once it has been.
    var state: map<string, int>
    var path: seq<string>
    // The names visited, in the order their visits ended.
    ghost var ended: seq<string>

    ghost predicate Valid()
      reads this
    {
      ValidSearch(graph, state, path, ended)
    }

    constructor (graph: Graph)
      ensures Valid() && this.graph == graph && state == map[] && path == [] && ended == []
    {
      this.graph := graph;
      state, path, ended := map[], [], [];
    }

    method Visit(job: string) returns (found: Option<seq<string>>)
      requires Valid()
      requires job in graph && job !in state
      requires path != [] ==> Edge(graph, path[|path| - 1], job)
      modifies this
      ensures found.Some? ==> IsCycle(graph, found.value)
      ensures found.None? ==> Valid() && path == old(path) && old(ended) <= ended && job in ended
      ensures found.None? ==> old(state).Keys <= state.Keys
      decreases |graph.Keys - state.Keys|
    {
      hide ValidSearch, IsWalk, IsCycle;
      EnteringKeepsSearch(graph, state, path, ended, job);
      state := state[job := 1];
      path := path + [job];
      var k := 0;
      while k < |graph[job]|
        invariant 0 <= k <= |graph[job]|
        invariant Valid() && path == old(path) + [job] && old(ended) <= ended
        invariant old(state).Keys + {job} <= state.Keys
        invariant forall i :: 0 <= i < k && graph[job][i] in graph ==> graph[job][i] in ended
      {
        var predecessor := graph[job][k];
        k := k + 1;
        if predecessor !in graph {
          continue;
        }
        SearchSays(graph, state, path, ended, predecessor);
        if predecessor in state && state[predecessor] == 1 {
          var index := IndexOf(path, predecessor);
          PathCloses(graph, path, index, predecessor);
          return Some(path[index..] + [predecessor]);
        }
        if predecessor !in state {
          FewerUnseen(graph, old(state).Keys, state.Keys, job);
          found := Visit(predecessor);
          if found.Some? {
            return;
          }
        }
      }
      LeavingKeepsSearch(graph, state, old(path), ended, job);
      path := path[..|path| - 1];
      assert path == old(path);
      state := state[job := 2];
      ended := ended + [job];
      return None;
    }
  }

  function IndexOf(names: seq<string>, name: string): (index: nat)
    requires name in names
    ensures index < |names| && names[index] == name && name !in names[..index]
  {
    if names[0] == name then 0 else 1 + IndexOf(names[1..], name)
  }

  /** One turn of findCycle's loop: a name not seen yet is visited. */
  method VisitOnce(finder: CycleFinder, job: string) returns (found: Option<seq<string>>)
    requires finder.Valid() && finder.path == [] && job in finder.graph
    modifies finder
    ensures found.Some? ==> IsCycle(finder.graph, found.value)
    ensures found.None? ==> finder.Valid() && finder.path == [] && job in finder.ended
    ensures found.None? ==> old(finder.ended) <= finder.ended
  {
    hide ValidSearch, IsCycle, Edge;
    SearchSays(finder.graph, finder.state, finder.path, finder.ended, job);
    found := None;
    if job !in finder.state {
      found := finder.Visit(job);
    }
  }

  lemma CycleIsNotAcyclic(graph: Graph, path: seq<string>)
    requires IsCycle(graph, path)
    ensures !Acyclic(graph)
  {
  }

  lemma KeepsMembers(before: seq<string>, after: seq<string>, names: seq<string>)
    requires before <= after && forall i :: 0 <= i < |names| ==> names[i] in before
    ensures forall i :: 0 <= i < |names| ==> names[i] in after
  {
    forall i | 0 <= i < |names| ensures names[i] in after {
      var k :| 0 <= k < |before| && before[k] == names[i];
      assert after[k] == names[i];
    }
  }

  /** findCycle: a cycle among the graph's keys, or None exactly where there is none. */
  method FindCycle(graph: Graph) returns (found: Option<seq<string>>)
    ensures found.Some? ==> IsCycle(graph, found.value)
    ensures found.None? <==> Acyclic(graph)
  {
    hide ValidSearch, IsWalk, PredecessorsFirst, IsCycle, Edge, IsLeast, AtMost, Acyclic, Sorted;
    var finder := new CycleFinder(graph);
    var names := Sorted(graph.Keys);
    for k := 0 to |names|
      invariant finder.Valid() && finder.path == [] && finder.graph == graph
      invariant forall i :: 0 <= i < k ==> names[i] in finder.ended
    {
      assert names[k] in graph.Keys;
      ghost var before := finder.ended;
      found := VisitOnce(finder, names[k]);
      if found.Some? {
        CycleIsNotAcyclic(graph, found.value);
        return;
      }
      KeepsMembers(before, finder.ended, names[..k]);
    }
    assert PredecessorsFirst(graph, finder.ended) by {
      SearchOrders(graph, finder.state, finder.path, finder.ended);
    }
    OrderedIsAcyclic(graph, finder.ended);
    return None;
  }

  // ---------- Orders with predecessors first ----------

  /** The names that wait for nothing that remains. */
  function Ready(graph: Graph, remaining: set<string>): set<string> {
    set name | name in remaining && (name in graph ==> forall b :: b in graph[name] ==> b !in remaining)
  }

  lemma {:induction false} DistinctFit(names: seq<string>, within: set<string>)
    requires Distinct(names) && forall name :: name in names ==> name in within
    ensures |names| <= |within|
  {
    if names != [] {
      var rest := names[1..];
      forall name | name in rest ensures name in within - {names[0]} {
        var k :| 0 <= k < |rest| && rest[k] == name;
        assert names[k + 1] == name;
      }
      DistinctFit(rest, within - {names[0]});
    }
  }

  lemma WalkExtends(graph: Graph, path: seq<string>, next: string)
    requires path != [] && Distinct(path) && IsWalk(graph, path)
    requires next !in path && Edge(graph, path[|path| - 1], next)
    ensures Distinct(path + [next]) && IsWalk(graph, path + [next])
  {
  }

  ghost predicate GoesOn(graph: Graph, within: set<string>, name: string) {
    exists b :: b in within && Edge(graph, name, b)
  }

  ghost predicate Endless(graph: Graph, within: set<string>) {
    forall name {:trigger GoesOn(graph, within, name)} :: name in within ==> GoesOn(graph, within, name)
  }

  ghost predicate Within(path: seq<string>, within: set<string>) {
    forall name :: name in path ==> name in within
  }

  lemma StepFrom(graph: Graph, within: set<string>, path: seq<string>) returns (next: string)
    requires path != [] && Within(path, within) && Endless(graph, within)
    ensures next in within && Edge(graph, path[|path| - 1], next) && Within(path + [next], within)
  {
    assert GoesOn(graph, within, path[|path| - 1]);
    next :| next in within && Edge(graph, path[|path| - 1], next);
  }

  /** A walk that can always go on inside a finite set comes back to where it was. */
  lemma {:induction false} EndlessWalkCloses(graph: Graph, within: set<string>, path: seq<string>)
    returns (cycle: seq<string>)
    requires path != [] && Distinct(path) && IsWalk(graph, path)
    requires Within(path, within) && Endless(graph, within)
    ensures IsCycle(graph, cycle)
    decreases |within| - |path|
  {
    hide Distinct, IsWalk, Edge, IsCycle, Endless;
    var next := StepFrom(graph, within, path);
    if next in path {
      var index := IndexOf(path, next);
      PathCloses(graph, path, index, next);
      cycle := path[index..] + [next];
    } else {
      WalkExtends(graph, path, next);
      DistinctFit(path + [next], within);
      cycle := EndlessWalkCloses(graph, within, path + [next]);
    }
  }

  lemma AcyclicHasReady(graph: Graph, remaining: set<string>)
    requires Acyclic(graph) && remaining <= graph.Keys && remaining != {}
    ensures Ready(graph, remaining) != {}
  {
    if Ready(graph, remaining) == {} {
      forall name | name in remaining ensures GoesOn(graph, remaining, name) {
        assert name !in Ready(graph, remaining);
        var b :| b in graph[name] && b in remaining;
        assert Edge(graph, name, b);
      }
      var name :| name in remaining;
      assert Within([name], remaining);
      var cycle := EndlessWalkCloses(graph, remaining, [name]);
    }
  }

  lemma ReadyLeavesFewer(graph: Graph, remaining: set<string>)
    requires Ready(graph, remaining) != {}
    ensures |remaining - Ready(graph, remaining)| < |remaining|
  {
    var ready := Ready(graph, remaining);
    assert remaining == (remaining - ready) + ready;
  }

  /** Layer after layer of what is ready, each in alphabetical order. */
  function LayerOrder(graph: Graph, remaining: set<string>): seq<string>
    decreases |remaining|
  {
    var ready := Ready(graph, remaining);
    if ready == {} then []
    else
      ReadyLeavesFewer(graph, remaining);
      Sorted(ready) + LayerOrder(graph, remaining - ready)
  }

  /** What is left once nothing more is ready. */
  function Unordered(graph: Graph, remaining: set<string>): set<string>
    decreases |remaining|
  {
    var ready := Ready(graph, remaining);
    if ready == {} then remaining
    else
      ReadyLeavesFewer(graph, remaining);
      Unordered(graph, remaining - ready)
  }

  /** Each name is listed once, after everything it waits for among `names`. */
  ghost predicate IsLayered(graph: Graph, names: set<string>, order: seq<string>, left: set<string>) {
    && Distinct(order)
    && left <= names
    && (forall name :: name in order <==> name in names - left)
    && forall i, b :: 0 <= i < |order| && Edge(graph, order[i], b) && b in names ==> b in order[..i]
  }

  /** What a name of a later layer waits for is in the first layer or listed before it. */
  lemma LaterLayer(graph: Graph, names: set<string>, order: seq<string>, left: set<string>, i: nat, b: string)
    requires IsLayered(graph, names - Ready(graph, names), order, left)
    requires i < |order| && Edge(graph, order[i], b) && b in names
    ensures b in Ready(graph, names) || b in order[..i]
  {
    hide Ready;
    if b !in Ready(graph, names) {
      assert b in names - Ready(graph, names);
    }
  }

  /** What is ready waits for nothing of what remains. */
  lemma FirstLayer(graph: Graph, names: set<string>)
    ensures Ready(graph, names) <= names
    ensures forall name, b :: name in Ready(graph, names) && Edge(graph, name, b) ==> b !in names
  {
  }

  lemma LayerPrepended(graph: Graph, names: set<string>, order: seq<string>, left: set<string>)
    requires IsLayered(graph, names - Ready(graph, names), order, left)
    ensures IsLayered(graph, names, Sorted(Ready(graph, names)) + order, left)
  {
    hide AtMost, Sorted, Ready;
    var first := Sorted(Ready(graph, names));
    var all := first + order;
    FirstLayer(graph, names);
    assert forall name :: name in all <==> name in first || name in order;
    assert forall k :: 0 <= k < |first| ==> first[k] in Ready(graph, names);
    forall i, b | 0 <= i < |all| && Edge(graph, all[i], b) && b in names ensures b in all[..i] {
      if |first| <= i {
        LaterLayer(graph, names, order, left, i - |first|, b);
        assert all[..i] == first + order[..i - |first|];
      }
    }
    forall i, j | 0 <= i < j < |all| ensures all[i] != all[j] {
      if i < |first| <= j {
        assert order[j - |first|] in order;
      }
    }
  }

  lemma {:induction false} LayersAreOrdered(graph: Graph, names: set<string>)
    ensures IsLayered(graph, names, LayerOrder(graph, names), Unordered(graph, names))
    ensures Ready(graph, Unordered(graph, names)) == {}
    decreases |names|
  {
    var ready := Ready(graph, names);
    if ready != {} {
      ReadyLeavesFewer(graph, names);
      LayersAreOrdered(graph, names - ready);
      LayerPrepended(graph, names, LayerOrder(graph, names - ready), Unordered(graph, names - ready));
    }
  }

  /** Layering lists every name exactly where none of them form a cycle. */
  lemma LayersStopExactlyAtCycles(graph: Graph)
    ensures Unordered(graph, graph.Keys) == {} <==> Acyclic(graph)
    ensures Acyclic(graph) ==> PredecessorsFirst(graph, LayerOrder(graph, graph.Keys))
    ensures Acyclic(graph) ==> forall name :: name in LayerOrder(graph, graph.Keys) <==> name in graph
  {
    LayersAreOrdered(graph, graph.Keys);
    var order, left := LayerOrder(graph, graph.Keys), Unordered(graph, graph.Keys);
    if left == {} {
      OrderedIsAcyclic(graph, order);
    } else if Acyclic(graph) {
      AcyclicHasReady(graph, left);
    }
  }

  lemma NextLayer(graph: Graph, order: seq<string>, left: set<string>)
    requires Ready(graph, left) != {}
    ensures var ready := Ready(graph, left);
            && |left - ready| < |left|
            && order + Sorted(ready) + LayerOrder(graph, left - ready) == order + LayerOrder(graph, left)
            && Unordered(graph, left - ready) == Unordered(graph, left)
  {
    hide Sorted;
    ReadyLeavesFewer(graph, left);
    var ready := Ready(graph, left);
    assert order + Sorted(ready) + LayerOrder(graph, left - ready) == order +
           (Sorted(ready) + LayerOrder(graph, left - ready));
  }

  lemma LastLayer(graph: Graph, left: set<string>)
    requires Ready(graph, left) == {}
    ensures LayerOrder(graph, left) == [] && Unordered(graph, left) == left
  {
  }

  /** The loop both orders share: layer after layer until nothing is ready. */
  method TakeLayers(graph: Graph, names: set<string>) returns (order: seq<string>, left: set<string>)
    ensures order == LayerOrder(graph, names) && left == Unordered(graph, names)
  {
    hide Ready, LayerOrder, Unordered, Sorted;
    order, left := [], names;
    var ready := Ready(graph, left);
    assert [] + LayerOrder(graph, names) == LayerOrder(graph, names);
    while ready != {}
      invariant ready == Ready(graph, left)
      invariant order + LayerOrder(graph, left) == LayerOrder(graph, names)
      invariant Unordered(graph, left) == Unordered(graph, names)
      decreases |left|
    {
      NextLayer(graph, order, left);
      order := order + Sorted(ready);
      left := left - ready;
      ready := Ready(graph, left);
    }
    LastLayer(graph, left);
    assert order + [] == order;
  }
}
