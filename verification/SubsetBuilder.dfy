/**
 Building a subset's queries (_Builder in bauta/generate/subset.py): each
 selection defined once, each query pruned to what it needs, and the longest
 chain of selections measured.
 */
module SubsetBuilder {
  import opened SubsetPlan
  import opened SubsetQueries

  const MAX_SELECTION_DEPTH := 32

  // ---------- Dependencies ----------

  type Dependencies = map<Selection, seq<Selection>>

  /** The selections a selection's conditions name, in the order exists() wrote them. */
  function Uses(conditions: seq<Condition>): (uses: seq<Selection>)
    ensures forall u :: u in uses <==> exists c :: c in conditions && c.Exists? && c.selection == u
  {
    if conditions == [] then []
    else
      assert conditions == [conditions[0]] + conditions[1..];
      (if conditions[0].Exists? then [conditions[0].selection] else []) + Uses(conditions[1..])
  }

  ghost predicate UseClosed(dependencies: Dependencies, selections: set<Selection>) {
    forall name :: name in selections && name in dependencies ==> forall d :: d in dependencies[name] ==>
        d in selections
  }

  /** The selections a result is built on: the least set that holds it and what each of its members uses. */
  ghost predicate IsNeeded(dependencies: Dependencies, result: Selection, needed: set<Selection>) {
    && result in needed && UseClosed(dependencies, needed)
    && forall other :: result in other && UseClosed(dependencies, other) ==> needed <= other
  }

  /** The definitions of some selections, in the order they were defined. */
  function Only(bodies: seq<Definition>, needed: set<Selection>): (r: seq<Definition>)
  {
    if bodies == [] then []
    else
      var n := |bodies| - 1;
      Only(bodies[..n], needed) + if bodies[n].selection in needed then [bodies[n]] else []
  }

  /** A chain of references, each selection built on the next. */
  ghost predicate IsChain(dependencies: Dependencies, chain: seq<Selection>) {
    && chain != []
    && forall i :: 0 <= i < |chain| - 1 ==> chain[i] in dependencies && chain[i + 1] in dependencies[chain[i]]
  }

  /** `length` is that of the longest chain from `name`. */
  ghost predicate IsLongest(dependencies: Dependencies, name: Selection, length: nat) {
    && (exists chain :: IsChain(dependencies, chain) && chain[0] == name && |chain| == length)
    && forall chain :: IsChain(dependencies, chain) && chain[0] == name ==> |chain| <= length
  }

  /** Names are distinct, and each uses only names defined before it. */
  ghost predicate ValidBuild(bodies: seq<Definition>, dependencies: Dependencies) {
    && (forall i, j :: 0 <= i < j < |bodies| ==> bodies[i].selection != bodies[j].selection)
    && dependencies.Keys == Defined(bodies)
    && forall k :: 0 <= k < |bodies| ==> bodies[k].selection in dependencies && UsesEarlier(bodies, dependencies, k)
  }

  ghost predicate UsesEarlier(bodies: seq<Definition>, dependencies: Dependencies, k: nat)
    requires k < |bodies| && bodies[k].selection in dependencies
  {
    forall d :: d in dependencies[bodies[k].selection] ==> d in Defined(bodies[..k])
  }

  lemma {:induction false} OnlyDefines(bodies: seq<Definition>, needed: set<Selection>)
    ensures Defined(Only(bodies, needed)) == Defined(bodies) * needed
  {
    if bodies != [] {
      var n := |bodies| - 1;
      OnlyDefines(bodies[..n], needed);
      DefinedConcat(bodies[..n], [bodies[n]]);
      assert bodies == bodies[..n] + [bodies[n]];
      assert Defined([bodies[n]]) == {bodies[n].selection} by {
        assert [bodies[n]][0].selection in Defined([bodies[n]]);
      }
      if bodies[n].selection in needed {
        DefinedConcat(Only(bodies[..n], needed), [bodies[n]]);
      } else {
        assert Only(bodies, needed) == Only(bodies[..n], needed);
      }
    }
  }

  /** Whatever a needed selection's conditions name is needed too. */
  ghost predicate NeedsMet(s: Subset, bodies: seq<Definition>, needed: set<Selection>) {
    forall k :: 0 <= k < |bodies| && bodies[k].selection in needed ==>
        Refers(Conditions(s, bodies[k].selection), needed)
  }

  lemma FollowsWithin(s: Subset, materialize: bool, definition: Definition, before: set<Selection>,
                      needed: set<Selection>)
    requires ValidSubset(s) && Follows(s, materialize, definition, before)
    requires Refers(Conditions(s, definition.selection), needed)
    ensures Follows(s, materialize, definition, before * needed)
  {
  }

  lemma AppendedInOrder(s: Subset, materialize: bool, definitions: seq<Definition>, last: Definition)
    requires ValidSubset(s) && InOrder(s, materialize, definitions, {})
    requires Follows(s, materialize, last, Defined(definitions))
    ensures InOrder(s, materialize, definitions + [last], {})
  {
    hide ValidSubset, Follows, Defined;
    var all := definitions + [last];
    forall k | 0 <= k < |all| ensures Follows(s, materialize, all[k], {} + Defined(all[..k])) {
      if k < |definitions| {
        assert all[..k] == definitions[..k];
      } else {
        assert all[..k] == definitions;
        assert {} + Defined(definitions) == Defined(definitions);
      }
    }
  }

  lemma FrontInOrder(s: Subset, materialize: bool, definitions: seq<Definition>, n: nat)
    requires ValidSubset(s) && InOrder(s, materialize, definitions, {}) && n < |definitions|
    ensures InOrder(s, materialize, definitions[..n], {})
    ensures Follows(s, materialize, definitions[n], Defined(definitions[..n]))
  {
    hide ValidSubset, Follows, Defined;
    assert {} + Defined(definitions[..n]) == Defined(definitions[..n]);
    assert Follows(s, materialize, definitions[n], {} + Defined(definitions[..n]));
    forall k | 0 <= k < n ensures Follows(s, materialize, definitions[..n][k], {} + Defined(definitions[..n][..k])) {
      assert definitions[..n][..k] == definitions[..k];
      assert Follows(s, materialize, definitions[k], {} + Defined(definitions[..k]));
    }
  }

  /** Pruning keeps the plan's definitions in order: each is still defined before its first use. */
  lemma {:induction false} PruningKeepsOrder(s: Subset, materialize: bool, bodies: seq<Definition>,
                                             needed: set<Selection>)
    requires ValidSubset(s) && InOrder(s, materialize, bodies, {}) && NeedsMet(s, bodies, needed)
    ensures InOrder(s, materialize, Only(bodies, needed), {})
  {
    hide ValidSubset, InOrder, Follows, Conditions;
    if bodies != [] {
      var n := |bodies| - 1;
      FrontInOrder(s, materialize, bodies, n);
      PruningKeepsOrder(s, materialize, bodies[..n], needed);
      if bodies[n].selection in needed {
        OnlyDefines(bodies[..n], needed);
        FollowsWithin(s, materialize, bodies[n], Defined(bodies[..n]), needed);
        AppendedInOrder(s, materialize, Only(bodies[..n], needed), bodies[n]);
      } else {
        assert Only(bodies, needed) == Only(bodies[..n], needed);
      }
    } else {
      InOrderNothing(s, materialize);
    }
  }

  lemma InOrderNothing(s: Subset, materialize: bool)
    requires ValidSubset(s)
    ensures InOrder(s, materialize, [], {})
  {
  }

  // ---------- The builder ----------

  ghost predicate Measured(dependencies: Dependencies, depths: map<Selection, nat>) {
    forall name :: name in depths ==> name in dependencies && IsLongest(dependencies, name, depths[name])
  }

  /** The longest chain from a name is one longer than the longest from what it uses. */
  lemma LongestStep(dependencies: Dependencies, name: Selection, depths: map<Selection, nat>, longest: nat)
    requires name in dependencies && Measured(dependencies, depths)
    requires forall d :: d in dependencies[name] ==> d in depths && depths[d] <= longest
    requires if dependencies[name] == [] then longest == 0 else exists d ::
               d in dependencies[name] && d in depths && depths[d] == longest
    ensures IsLongest(dependencies, name, longest + 1)
  {
    if dependencies[name] == [] {
      assert IsChain(dependencies, [name]);
    } else {
      var d :| d in dependencies[name] && d in depths && depths[d] == longest;
      var chain :| IsChain(dependencies, chain) && chain[0] == d && |chain| == longest;
      ChainGrows(dependencies, name, chain);
    }
    forall chain | IsChain(dependencies, chain) && chain[0] == name ensures |chain| <= longest + 1 {
      if |chain| > 1 {
        assert chain[0 + 1] in dependencies[chain[0]];
        ChainTail(dependencies, chain);
        assert IsLongest(dependencies, chain[1], depths[chain[1]]);
      }
    }
  }

  lemma ChainGrows(dependencies: Dependencies, name: Selection, chain: seq<Selection>)
    requires IsChain(dependencies, chain) && name in dependencies && chain[0] in dependencies[name]
    ensures IsChain(dependencies, [name] + chain)
  {
    var longer := [name] + chain;
    forall i | 0 <= i < |longer| - 1 ensures longer[i] in dependencies && longer[i + 1] in dependencies[longer[i]] {
      if i > 0 {
        assert longer[i] == chain[i - 1] && longer[i + 1] == chain[i - 1 + 1];
      }
    }
  }

  lemma ChainTail(dependencies: Dependencies, chain: seq<Selection>)
    requires IsChain(dependencies, chain) && |chain| > 1
    ensures IsChain(dependencies, chain[1..])
  {
    var rest := chain[1..];
    forall i | 0 <= i < |rest| - 1 ensures rest[i] in dependencies && rest[i + 1] in dependencies[rest[i]] {
      assert chain[i + 1] in dependencies && chain[i + 1 + 1] in dependencies[chain[i + 1]];
    }
  }

  /** Every closed set holding the result holds the name. */
  ghost predicate Forced(dependencies: Dependencies, result: Selection, name: Selection) {
    forall other :: result in other && UseClosed(dependencies, other) ==> name in other
  }

  lemma UsedIsForced(dependencies: Dependencies, result: Selection, name: Selection)
    requires Forced(dependencies, result, name) && name in dependencies
    ensures forall d :: d in dependencies[name] ==> Forced(dependencies, result, d)
  {
  }

  function PositionIn(bodies: seq<Definition>, name: Selection): (k: nat)
    requires name in Defined(bodies)
    ensures k < |bodies| && bodies[k].selection == name
  {
    if bodies[0].selection == name then 0
    else
      assert name in Defined(bodies[1..]) by {
        var k :| 0 <= k < |bodies| && bodies[k].selection == name;
        assert bodies[1..][k - 1].selection == name;
      }
      1 + PositionIn(bodies[1..], name)
  }

  lemma UsedIsEarlier(bodies: seq<Definition>, dependencies: Dependencies, name: Selection, d: Selection)
    requires ValidBuild(bodies, dependencies) && name in dependencies && d in dependencies[name]
    ensures d in dependencies && PositionIn(bodies, d) < PositionIn(bodies, name)
  {
    var k := PositionIn(bodies, name);
    assert UsesEarlier(bodies, dependencies, k);
    var j :| 0 <= j < |bodies[..k]| && bodies[..k][j].selection == d;
    assert bodies[j].selection == d;
  }

  /** The worklist's bookkeeping: what was found and what waits is needed, and
      whatever a found selection uses was found or waits. */
  ghost predicate Collecting(dependencies: Dependencies, result: Selection, found: set<Selection>,
                             pending: seq<Selection>) {
    && (forall name :: name in found || name in pending ==> name in dependencies && Forced(dependencies, result, name))
    && (result in found || result in pending)
    && (forall name, d :: name in found && name in dependencies && d in dependencies[name] ==>
        d in found || d in pending)
  }

  lemma CollectingStarts(dependencies: Dependencies, result: Selection)
    requires result in dependencies
    ensures Collecting(dependencies, result, {}, [result])
  {
    hide Forced;
    ResultIsForced(dependencies, result);
  }

  lemma CollectingSkips(dependencies: Dependencies, result: Selection, found: set<Selection>, rest: seq<Selection>,
                        name: Selection)
    requires Collecting(dependencies, result, found, rest + [name]) && name in found
    ensures Collecting(dependencies, result, found, rest)
  {
    hide Forced;
    assert forall n :: n in rest + [name] <==> n in rest || n == name;
  }

  lemma CollectingTakes(bodies: seq<Definition>, dependencies: Dependencies, result: Selection,
                        found: set<Selection>, rest: seq<Selection>, name: Selection)
    requires ValidBuild(bodies, dependencies)
    requires Collecting(dependencies, result, found, rest + [name]) && name !in found
    ensures name in dependencies && |dependencies.Keys - (found + {name})| < |dependencies.Keys - found|
    ensures Collecting(dependencies, result, found + {name}, rest + dependencies[name])
  {
    hide Forced, ValidBuild, PositionIn;
    assert forall n :: n in rest + [name] <==> n in rest || n == name;
    UsedIsForced(dependencies, result, name);
    forall d | d in dependencies[name] ensures d in dependencies {
      UsedIsEarlier(bodies, dependencies, name, d);
    }
    Shrinks(dependencies.Keys - found, dependencies.Keys - (found + {name}), name);
  }

  lemma CollectingEnds(dependencies: Dependencies, result: Selection, found: set<Selection>)
    requires Collecting(dependencies, result, found, [])
    ensures IsNeeded(dependencies, result, found)
  {
    NeededSuffices(dependencies, result, found);
  }

  class Builder {
    const materialize: bool
    var bodies: seq<Definition>
    var dependencies: Dependencies

    ghost predicate Valid()
      reads this
    {
      ValidBuild(bodies, dependencies)
    }

    constructor (materialize: bool)
      ensures Valid() && this.materialize == materialize && bodies == [] && dependencies == map[]
    {
      this.materialize := materialize;
      bodies, dependencies := [], map[];
    }

    method Define(selection: Selection, conditions: seq<Condition>)
      requires Valid() && selection !in dependencies
      requires conditions != [] && Refers(conditions, dependencies.Keys)
      modifies this
      ensures Valid()
      ensures bodies == old(bodies) + [Definition(selection, BodyFor(selection.table, conditions, materialize))]
      ensures dependencies == old(dependencies)[selection := Uses(conditions)]
    {
      hide BodyFor;
      var definition := Definition(selection, BodyFor(selection.table, conditions, materialize));
      DefiningKeepsBuild(bodies, dependencies, definition, Uses(conditions));
      dependencies := dependencies[selection := Uses(conditions)];
      bodies := bodies + [definition];
    }

    /** Just the definitions the result needs, in the order they were made. */
    method QueryFor(result: Selection) returns (query: Query, needed: set<Selection>)
      requires Valid() && result in dependencies
      ensures IsNeeded(dependencies, result, needed)
      ensures needed <= dependencies.Keys
      ensures query == Query(Only(bodies, needed), result)
    {
      hide Collecting, ValidBuild, Forced;
      var found: set<Selection> := {};
      var pending := [result];
      CollectingStarts(dependencies, result);
      while pending != []
        invariant Collecting(dependencies, result, found, pending)
        invariant found <= dependencies.Keys
        decreases |dependencies.Keys - found|, |pending|
      {
        var name := pending[|pending| - 1];
        assert pending == pending[..|pending| - 1] + [name];
        pending := pending[..|pending| - 1];
        if name in found {
          CollectingSkips(dependencies, result, found, pending, name);
        } else {
          CollectingTakes(bodies, dependencies, result, found, pending, name);
          found := found + {name};
          pending := pending + dependencies[name];
        }
      }
      CollectingEnds(dependencies, result, found);
      needed := found;
      query := Query(Only(bodies, found), result);
    }

    /** depth's visit, which remembers each name's longest chain. */
    method Visit(name: Selection, depths: map<Selection, nat>) returns (r: map<Selection, nat>)
      requires Valid() && name in dependencies && Measured(dependencies, depths)
      ensures Measured(dependencies, r) && name in r && depths.Keys <= r.Keys
      ensures forall n :: n in depths ==> r[n] == depths[n]
      decreases PositionIn(bodies, name)
    {
      hide IsLongest, ValidBuild, PositionIn;
      r := depths;
      if name in r {
        return;
      }
      var longest := 0;
      var k := 0;
      while k < |dependencies[name]|
        invariant 0 <= k <= |dependencies[name]|
        invariant Measured(dependencies, r) && depths.Keys <= r.Keys
        invariant forall n :: n in depths ==> r[n] == depths[n]
        invariant forall i :: 0 <= i < k ==> dependencies[name][i] in r && r[dependencies[name][i]] <= longest
        invariant k == 0 ==> longest == 0
        invariant k > 0 ==> exists i :: 0 <= i < k && dependencies[name][i] in r && r[dependencies[name][i]] == longest
      {
        var d := dependencies[name][k];
        UsedIsEarlier(bodies, dependencies, name, d);
        r := Visit(d, r);
        if k == 0 || r[d] > longest {
          longest := r[d];
        }
        k := k + 1;
      }
      LongestStep(dependencies, name, r, longest);
      if name in r {
        LongestIsUnique(dependencies, name, r[name], longest + 1);
      }
      r := r[name := longest + 1];
    }

    method Depth() returns (depth: nat)
      requires Valid()
      ensures bodies == [] ==> depth == 0
      ensures bodies != [] ==> exists chain ::
                IsChain(dependencies, chain) && chain[0] in dependencies && |chain| == depth
      ensures forall chain :: IsChain(dependencies, chain) && chain[0] in dependencies ==> |chain| <= depth
    {
      var depths: map<Selection, nat> := map[];
      depth := 0;
      for k := 0 to |bodies|
        invariant Measured(dependencies, depths)
        invariant forall i :: 0 <= i < k ==> bodies[i].selection in depths && depths[bodies[i].selection] <= depth
        invariant k == 0 ==> depth == 0
        invariant k > 0 ==> exists name :: name in depths && depths[name] == depth
      {
        var name := bodies[k].selection;
        depths := Visit(name, depths);
        if k == 0 || depths[name] > depth {
          depth := depths[name];
        }
      }
      forall chain | IsChain(dependencies, chain) && chain[0] in dependencies ensures |chain| <= depth {
        var k := PositionIn(bodies, chain[0]);
        assert IsLongest(dependencies, bodies[k].selection, depths[bodies[k].selection]);
      }
      if bodies != [] {
        var name :| name in depths && depths[name] == depth;
        assert IsLongest(dependencies, name, depth);
      }
    }
  }

  lemma ResultIsForced(dependencies: Dependencies, result: Selection)
    ensures Forced(dependencies, result, result)
  {
  }

  lemma NeededSuffices(dependencies: Dependencies, result: Selection, needed: set<Selection>)
    requires result in needed && UseClosed(dependencies, needed)
    requires forall name :: name in needed ==> Forced(dependencies, result, name)
    ensures IsNeeded(dependencies, result, needed)
  {
  }

  lemma Shrinks(larger: set<Selection>, smaller: set<Selection>, name: Selection)
    requires name in larger && smaller == larger - {name}
    ensures |smaller| < |larger|
  {
  }

  lemma LongestIsUnique(dependencies: Dependencies, name: Selection, a: nat, b: nat)
    requires IsLongest(dependencies, name, a) && IsLongest(dependencies, name, b)
    ensures a == b
  {
  }

  lemma DefiningKeepsBuild(bodies: seq<Definition>, dependencies: Dependencies, definition: Definition,
                           uses: seq<Selection>)
    requires ValidBuild(bodies, dependencies) && definition.selection !in dependencies
    requires forall u :: u in uses ==> u in dependencies
    ensures ValidBuild(bodies + [definition], dependencies[definition.selection := uses])
  {
    var all, extended := bodies + [definition], dependencies[definition.selection := uses];
    DefinedConcat(bodies, [definition]);
    assert Defined([definition]) == {definition.selection} by {
      assert [definition][0].selection in Defined([definition]);
    }
    forall k | 0 <= k < |all| ensures all[k].selection in extended && UsesEarlier(all, extended, k) {
      if k < |bodies| {
        assert bodies[k].selection in dependencies && UsesEarlier(bodies, dependencies, k);
        assert all[..k] == bodies[..k];
        assert bodies[k].selection in Defined(bodies);
      } else {
        assert all[..k] == bodies;
      }
    }
    forall i, j | 0 <= i < j < |all| ensures all[i].selection != all[j].selection {
      if j == |bodies| {
        assert bodies[i].selection in Defined(bodies);
      }
    }
  }
}
