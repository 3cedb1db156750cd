/**
 The queries a subset is copied with, as bauta/generate/subset.py writes them:
 selections named in a WITH clause, each a table's rows meeting conditions,
 under SQL's three-valued logic and on bags of rows.
 */
module SubsetQueries {
  import opened Wrappers

  // ---------- Rows and foreign keys ----------

  datatype Cell = Null | Datum(value: int)

  type Row = map<string, Cell>

  /** Every table's rows, in whatever order it keeps them; rows may repeat. */
  type Database = string -> seq<Row>

  function Get(row: Row, column: string): Cell {
    if column in row then row[column] else Null
  }

  /** `columns` of `table` reference `parentColumns` of `parent`, one for one. */
  datatype ForeignKey = ForeignKey(table: string, columns: seq<string>, parent: string, parentColumns: seq<string>)

  /** A child row references a parent row: every column holds the parent's value, and none is NULL. */
  ghost predicate References(key: ForeignKey, child: Row, parent: Row) {
    forall k :: 0 <= k < Min(|key.columns|, |key.parentColumns|) ==>
      Get(child, key.columns[k]).Datum? && Get(child, key.columns[k]) == Get(parent, key.parentColumns[k])
  }

  // ---------- Queries ----------

  datatype Selection = Down(table: string) | Kept(table: string)

  /** Filter is the root's own, the user's SQL; an EXISTS pairs the selection's columns with the outer row's. */
  datatype Condition =
    | Filter
    | Exists(selection: Selection, pairs: seq<(string, string)>)
    | Or(left: Condition, right: Condition)
    | And(left: Condition, right: Condition)
    | Not(condition: Condition)

  /** SELECT * FROM table WHERE condition; a body is a UNION ALL of one or more. */
  datatype Branch = Branch(table: string, where: Condition)

  type Body = seq<Branch>

  datatype Definition = Definition(selection: Selection, body: Body)

  /** WITH definitions SELECT * FROM result. */
  datatype Query = Query(definitions: seq<Definition>, result: Selection)

  // ---------- What they mean ----------

  datatype Truth = True | False | Unknown

  function TruthAnd(a: Truth, b: Truth): Truth {
    if a == False || b == False then False else if a == True && b == True then True else Unknown
  }

  function TruthOr(a: Truth, b: Truth): Truth {
    if a == True || b == True then True else if a == False && b == False then False else Unknown
  }

  function TruthNot(a: Truth): Truth {
    match a case True => False case False => True case Unknown => Unknown
  }

  /** `=` of two columns, which NULL makes unknown. */
  function Equals(a: Cell, b: Cell): Truth {
    if a.Null? || b.Null? then Unknown else if a == b then True else False
  }

  function AllEqual(pairs: seq<(string, string)>, inner: Row, outer: Row): Truth {
    if pairs == [] then True
    else TruthAnd(Equals(Get(inner, pairs[0].0), Get(outer, pairs[0].1)), AllEqual(pairs[1..], inner, outer))
  }

  /** The rows each selection evaluated so far returns. */
  type Results = map<Selection, seq<Row>>

  function RowsOf(results: Results, selection: Selection): seq<Row> {
    if selection in results then results[selection] else []
  }

  ghost predicate SomeMatch(rows: seq<Row>, pairs: seq<(string, string)>, outer: Row) {
    exists inner :: inner in rows && AllEqual(pairs, inner, outer) == True
  }

  ghost function Evaluate(condition: Condition, filter: Row -> Truth, results: Results, row: Row): Truth {
    match condition
    case Filter => filter(row)
    case Exists(selection, pairs) => if SomeMatch(RowsOf(results, selection), pairs, row) then True else False
    case Or(left, right) => TruthOr(Evaluate(left, filter, results, row), Evaluate(right, filter, results, row))
    case And(left, right) => TruthAnd(Evaluate(left, filter, results, row), Evaluate(right, filter, results, row))
    case Not(negated) => TruthNot(Evaluate(negated, filter, results, row))
  }

  /** The rows a test keeps, in order. */
  function Where(rows: seq<Row>, keep: Row -> bool): (kept: seq<Row>)
    ensures forall row :: row in kept <==> row in rows && keep(row)
    ensures multiset(kept) <= multiset(rows)
  {
    if rows == [] then []
    else
      assert rows == [rows[0]] + rows[1..];
      (if keep(rows[0]) then [rows[0]] else []) + Where(rows[1..], keep)
  }

  ghost function Keeps(condition: Condition, filter: Row -> Truth, results: Results): Row -> bool {
    row => Evaluate(condition, filter, results, row) == True
  }

  ghost function EvaluateBody(body: Body, database: Database, filter: Row -> Truth, results: Results): seq<Row> {
    if body == [] then []
    else
      Where(database(body[0].table), Keeps(body[0].where, filter, results)) +
      EvaluateBody(body[1..], database, filter, results)
  }

  ghost function EvaluateDefinitions(definitions: seq<Definition>, database: Database, filter: Row -> Truth,
                                     results: Results): (r: Results)
    ensures forall s :: s in r <==> s in results || exists k :: 0 <= k < |definitions| && definitions[k].selection == s
  {
    if definitions == [] then results
    else
      var next := results[definitions[0].selection := EvaluateBody(definitions[0].body, database, filter, results)];
      EvaluateDefinitions(definitions[1..], database, filter, next)
  }

  ghost function EvaluateQuery(query: Query, database: Database, filter: Row -> Truth): seq<Row> {
    RowsOf(EvaluateDefinitions(query.definitions, database, filter, map[]), query.result)
  }

  // ---------- One test, two encodings ----------

  function Disjunction(conditions: seq<Condition>): Condition
    requires conditions != []
  {
    if |conditions| == 1 then conditions[0] else Or(conditions[0], Disjunction(conditions[1..]))
  }

  /** `condition AND NOT earlier AND ...`. */
  function ButNot(condition: Condition, earlier: seq<Condition>): Condition {
    if earlier == [] then condition else And(ButNot(condition, earlier[..|earlier| - 1]), Not(earlier[|earlier| - 1]))
  }

  function ExistsOnly(conditions: seq<Condition>): (r: seq<Condition>)
    ensures forall c :: c in r <==> c in conditions && c.Exists?
  {
    if conditions == [] then []
    else
      assert conditions == [conditions[0]] + conditions[1..];
      (if conditions[0].Exists? then [conditions[0]] else []) + ExistsOnly(conditions[1..])
  }

  function OthersOnly(conditions: seq<Condition>): (r: seq<Condition>)
    ensures forall c :: c in r <==> c in conditions && !c.Exists?
  {
    if conditions == [] then []
    else
      assert conditions == [conditions[0]] + conditions[1..];
      (if conditions[0].Exists? then [] else [conditions[0]]) + OthersOnly(conditions[1..])
  }

  /** What define() orders: the EXISTS conditions, then the rest joined with OR as the last. */
  function Ordered(conditions: seq<Condition>): (r: seq<Condition>)
    ensures conditions != [] ==> r != []
  {
    assert conditions != [] ==> conditions[0] in ExistsOnly(conditions) || conditions[0] in OthersOnly(conditions);
    ExistsOnly(conditions) + if OthersOnly(conditions) == [] then [] else [Disjunction(OthersOnly(conditions))]
  }

  /** One branch per condition from the k-th on, each leaving out what an earlier one took. */
  function Branches(table: string, conditions: seq<Condition>, k: nat): Body
    requires k <= |conditions|
    decreases |conditions| - k
  {
    if k == |conditions| then []
    else [Branch(table, ButNot(conditions[k], conditions[..k]))] + Branches(table, conditions, k + 1)
  }

  /** _Builder.define's body: one WHERE with OR, or disjoint branches where selections are materialized. */
  function BodyFor(table: string, conditions: seq<Condition>, materialize: bool): Body
    requires conditions != []
  {
    if |conditions| == 1 || !materialize then [Branch(table, Disjunction(conditions))]
    else Branches(table, Ordered(conditions), 0)
  }

  // ---------- The encodings agree ----------

  ghost predicate Meets(conditions: seq<Condition>, filter: Row -> Truth, results: Results, row: Row) {
    exists condition :: condition in conditions && Evaluate(condition, filter, results, row) == True
  }

  lemma {:induction false} DisjunctionMeans(conditions: seq<Condition>, filter: Row -> Truth, results: Results,
                                            row: Row)
    requires conditions != []
    ensures Evaluate(Disjunction(conditions), filter, results, row) == True <==> Meets(conditions, filter, results, row)
  {
    if |conditions| > 1 {
      DisjunctionMeans(conditions[1..], filter, results, row);
      assert conditions == [conditions[0]] + conditions[1..];
    }
  }

  lemma OrderedMeans(conditions: seq<Condition>, filter: Row -> Truth, results: Results, row: Row)
    requires conditions != []
    ensures Meets(Ordered(conditions), filter, results, row) <==> Meets(conditions, filter, results, row)
  {
    var exist, others := ExistsOnly(conditions), OthersOnly(conditions);
    if others != [] {
      DisjunctionMeans(others, filter, results, row);
      assert Disjunction(others) in Ordered(conditions);
    }
    forall condition | condition in conditions ensures condition in exist || condition in others {
    }
  }

  lemma MeetsLast(conditions: seq<Condition>, filter: Row -> Truth, results: Results, row: Row)
    requires conditions != []
    ensures var n := |conditions| - 1;
            Meets(conditions, filter, results, row) <==>
            Meets(conditions[..n], filter, results, row) || Evaluate(conditions[n], filter, results, row) == True
  {
    var n := |conditions| - 1;
    assert conditions == conditions[..n] + [conditions[n]];
  }

  /** NOT of an EXISTS is exact, so a branch takes just the rows no earlier branch took. */
  lemma {:induction false} ButNotMeans(condition: Condition, earlier: seq<Condition>, filter: Row -> Truth,
                                       results: Results, row: Row)
    requires forall c :: c in earlier ==> c.Exists?
    ensures Evaluate(ButNot(condition, earlier), filter, results, row) == True <==>
            Evaluate(condition, filter, results, row) == True && !Meets(earlier, filter, results, row)
  {
    if earlier != [] {
      var n := |earlier| - 1;
      ButNotMeans(condition, earlier[..n], filter, results, row);
      MeetsLast(earlier, filter, results, row);
      assert earlier[n] in earlier;
    }
  }

  lemma {:induction false} WhereAgrees(rows: seq<Row>, p: Row -> bool, q: Row -> bool)
    requires forall row :: row in rows ==> p(row) == q(row)
    ensures Where(rows, p) == Where(rows, q)
  {
    if rows != [] {
      assert forall row :: row in rows[1..] ==> row in rows;
      WhereAgrees(rows[1..], p, q);
    }
  }

  lemma {:induction false} WhereSplits(rows: seq<Row>, p: Row -> bool, q: Row -> bool, both: Row -> bool)
    requires forall row :: row in rows ==> !(p(row) && q(row)) && both(row) == (p(row) || q(row))
    ensures multiset(Where(rows, p)) + multiset(Where(rows, q)) == multiset(Where(rows, both))
  {
    if rows != [] {
      assert forall row :: row in rows[1..] ==> row in rows;
      WhereSplits(rows[1..], p, q, both);
    }
  }

  lemma WhereNone(rows: seq<Row>, p: Row -> bool)
    requires forall row :: row in rows ==> !p(row)
    ensures Where(rows, p) == []
  {
    if Where(rows, p) != [] {
      assert Where(rows, p)[0] in Where(rows, p);
    }
  }

  ghost function FromOn(conditions: seq<Condition>, k: nat, filter: Row -> Truth, results: Results): Row -> bool
    requires k <= |conditions|
  {
    row => Meets(conditions, filter, results, row) && !Meets(conditions[..k], filter, results, row)
  }

  /** A row some condition from the k-th on is the first to take is taken by the k-th's branch or a later one, not
      both. */
  lemma FirstTaken(conditions: seq<Condition>, k: nat, filter: Row -> Truth, results: Results, row: Row)
    requires k < |conditions|
    requires forall i :: 0 <= i < |conditions| - 1 ==> conditions[i].Exists?
    ensures var first := Keeps(ButNot(conditions[k], conditions[..k]), filter, results)(row);
            var rest := FromOn(conditions, k + 1, filter, results)(row);
            !(first && rest) && FromOn(conditions, k, filter, results)(row) == (first || rest)
  {
    hide Evaluate, ButNot;
    ButNotMeans(conditions[k], conditions[..k], filter, results, row);
    MeetsLast(conditions[..k + 1], filter, results, row);
    assert conditions[..k + 1][..k] == conditions[..k];
    assert conditions[k] in conditions;
  }

  lemma BodyStep(branch: Branch, body: Body, database: Database, filter: Row -> Truth, results: Results)
    ensures EvaluateBody([branch] + body, database, filter, results) ==
            Where(database(branch.table), Keeps(branch.where, filter, results)) +
                EvaluateBody(body, database, filter, results)
  {
    assert ([branch] + body)[1..] == body;
  }

  /** Together the branches return each row that meets some condition as often as the table does. */
  lemma {:induction false} BranchesMean(table: string, conditions: seq<Condition>, k: nat,
                                        database: Database, filter: Row -> Truth, results: Results)
    requires k <= |conditions|
    requires forall i :: 0 <= i < |conditions| - 1 ==> conditions[i].Exists?
    ensures multiset(EvaluateBody(Branches(table, conditions, k), database, filter, results)) ==
            multiset(Where(database(table), FromOn(conditions, k, filter, results)))
    decreases |conditions| - k
  {
    var rows, from := database(table), FromOn(conditions, k, filter, results);
    if k == |conditions| {
      assert conditions[..k] == conditions;
      WhereNone(rows, from);
    } else {
      var branch := Branch(table, ButNot(conditions[k], conditions[..k]));
      var first, rest := Keeps(branch.where, filter, results), FromOn(conditions, k + 1, filter, results);
      BranchesMean(table, conditions, k + 1, database, filter, results);
      BodyStep(branch, Branches(table, conditions, k + 1), database, filter, results);
      assert multiset(Where(rows, first)) + multiset(Where(rows, rest)) == multiset(Where(rows, from)) by {
        forall row | row in rows ensures !(first(row) && rest(row)) && from(row) == (first(row) || rest(row)) {
          FirstTaken(conditions, k, filter, results, row);
        }
        WhereSplits(rows, first, rest, from);
      }
    }
  }

  ghost function MeetsAny(conditions: seq<Condition>, filter: Row -> Truth, results: Results): Row -> bool {
    row => Meets(conditions, filter, results, row)
  }

  /** Either encoding returns, as a bag, the table's rows meeting some
      condition, each as often as the table holds it -- where the root's
      filter is NULL of a row too. */
  lemma BodyMeans(table: string, conditions: seq<Condition>, materialize: bool,
                  database: Database, filter: Row -> Truth, results: Results)
    requires conditions != []
    ensures multiset(EvaluateBody(BodyFor(table, conditions, materialize), database, filter, results)) ==
            multiset(Where(database(table), MeetsAny(conditions, filter, results)))
  {
    var rows, meets := database(table), MeetsAny(conditions, filter, results);
    if |conditions| == 1 || !materialize {
      var keeps := Keeps(Disjunction(conditions), filter, results);
      forall row | row in rows ensures keeps(row) == meets(row) {
        DisjunctionMeans(conditions, filter, results, row);
      }
      WhereAgrees(rows, keeps, meets);
      var body := BodyFor(table, conditions, materialize);
      assert body[1..] == [];
      assert EvaluateBody(body, database, filter, results) == Where(rows, keeps) + [];
    } else {
      var ordered := Ordered(conditions);
      BranchesMean(table, ordered, 0, database, filter, results);
      var from := FromOn(ordered, 0, filter, results);
      forall row | row in rows ensures from(row) == meets(row) {
        OrderedMeans(conditions, filter, results, row);
      }
      WhereAgrees(rows, from, meets);
    }
  }

  /** The two encodings of one selection return the same bag, each base row at most once. */
  lemma EncodingsAgree(table: string, conditions: seq<Condition>, database: Database, filter: Row -> Truth,
                       results: Results)
    requires conditions != []
    ensures var unions := EvaluateBody(BodyFor(table, conditions, true), database, filter, results);
            var ors := EvaluateBody(BodyFor(table, conditions, false), database, filter, results);
            multiset(unions) == multiset(ors) <= multiset(database(table))
  {
    BodyMeans(table, conditions, true, database, filter, results);
    BodyMeans(table, conditions, false, database, filter, results);
  }
}
