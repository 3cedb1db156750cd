/** Names in Python's order of strings, by code point, and sorted(...) of a set of them. */
module Names {

  function Members(names: seq<string>): set<string> { set name | name in names }

  predicate AtMost(a: string, b: string) {
    a == "" || (b != "" && (a[0] < b[0] || (a[0] == b[0] && AtMost(a[1..], b[1..]))))
  }

  lemma {:induction false} AtMostTotal(a: string, b: string)
    ensures AtMost(a, b) || AtMost(b, a)
    ensures AtMost(a, b) && AtMost(b, a) ==> a == b
  {
    if a != "" && b != "" && a[0] == b[0] {
      AtMostTotal(a[1..], b[1..]);
      assert [a[0]] + a[1..] == a && [b[0]] + b[1..] == b;
    }
  }

  lemma {:induction false} AtMostTransitive(a: string, b: string, c: string)
    requires AtMost(a, b) && AtMost(b, c)
    ensures AtMost(a, c)
  {
    if a != "" && a[0] == b[0] == c[0] {
      AtMostTransitive(a[1..], b[1..], c[1..]);
    }
  }

  predicate IsLeast(least: string, names: set<string>) {
    least in names && forall name :: name in names ==> AtMost(least, name)
  }

  lemma {:induction false} LeastExists(names: set<string>) returns (least: string)
    requires names != {}
    ensures IsLeast(least, names)
  {
    var name :| name in names;
    if names == {name} {
      AtMostTotal(name, name);
      return name;
    }
    var other := LeastExists(names - {name});
    AtMostTotal(name, other);
    AtMostTotal(name, name);
    if AtMost(name, other) {
      forall n | n in names ensures AtMost(name, n) {
        if n != name {
          AtMostTransitive(name, other, n);
        }
      }
      return name;
    }
    return other;
  }

  lemma LeastIsDetermined(names: set<string>)
    requires names != {}
    ensures exists least :: IsLeast(least, names)
    ensures forall a, b :: IsLeast(a, names) && IsLeast(b, names) ==> a == b
  {
    var least := LeastExists(names);
    forall a, b | IsLeast(a, names) && IsLeast(b, names) ensures a == b {
      AtMostTotal(a, b);
    }
  }

  function Least(names: set<string>): (least: string)
    requires names != {}
    ensures IsLeast(least, names)
  {
    LeastIsDetermined(names);
    var least :| least in names && IsLeast(least, names);
    least
  }

  /** sorted(names). */
  function Sorted(names: set<string>): (sorted: seq<string>)
    ensures forall name :: name in sorted <==> name in names
    ensures |sorted| == |names|
    ensures forall i, j :: 0 <= i < j < |sorted| ==> sorted[i] != sorted[j] && AtMost(sorted[i], sorted[j])
    decreases |names|
  {
    if names == {} then [] else [Least(names)] + Sorted(names - {Least(names)})
  }
}
