/**
 One job's rows read as several slices (bauta/jobs/partitions.py): where the
 slices of a numeric column are cut, the predicates they are read with, and
 the slices of a column that is no number.
 */
module Partitions {
  import opened Wrappers
  import opened NumeralStrings

  // ---------- Where slices are cut ----------

  predicate IsLeast(numbers: set<int>, least: int) {
    least in numbers && forall n :: n in numbers ==> least <= n
  }

  lemma SomeMember<T>(members: set<T>) returns (member: T)
    requires members != {}
    ensures member in members
  {
    member :| member in members;
  }

  lemma {:induction false} LeastExists(numbers: set<int>)
    requires numbers != {}
    ensures exists least :: IsLeast(numbers, least)
  {
    var n := SomeMember(numbers);
    var rest := numbers - {n};
    if rest == {} {
      assert forall m :: m in numbers ==> m in rest || m == n;
      assert IsLeast(numbers, n);
    } else {
      LeastExists(rest);
      var least :| IsLeast(rest, least);
      assert forall m :: m in numbers ==> m in rest || m == n;
      assert IsLeast(numbers, if n < least then n else least);
    }
  }

  function LeastOf(numbers: set<int>): (least: int)
    requires numbers != {}
    ensures IsLeast(numbers, least)
  {
    LeastExists(numbers);
    var least :| IsLeast(numbers, least);
    least
  }

  predicate IsGreatest(numbers: set<int>, greatest: int) {
    greatest in numbers && forall n :: n in numbers ==> n <= greatest
  }

  lemma {:induction false} GreatestExists(numbers: set<int>)
    requires numbers != {}
    ensures exists greatest :: IsGreatest(numbers, greatest)
  {
    var n := SomeMember(numbers);
    var rest := numbers - {n};
    if rest == {} {
      assert forall m :: m in numbers ==> m in rest || m == n;
      assert IsGreatest(numbers, n);
    } else {
      GreatestExists(rest);
      var greatest :| IsGreatest(rest, greatest);
      assert forall m :: m in numbers ==> m in rest || m == n;
      assert IsGreatest(numbers, if n > greatest then n else greatest);
    }
  }

  function GreatestOf(numbers: set<int>): (greatest: int)
    requires numbers != {}
    ensures IsGreatest(numbers, greatest)
  {
    GreatestExists(numbers);
    var greatest :| IsGreatest(numbers, greatest);
    greatest
  }

  ghost predicate Increasing(points: seq<int>) {
    forall i, j :: 0 <= i < j < |points| ==> points[i] < points[j]
  }

  /** sorted(numbers). */
  function SortedNumbers(numbers: set<int>): (sorted: seq<int>)
    ensures forall n :: n in sorted <==> n in numbers
    ensures Increasing(sorted)
    decreases |numbers|
  {
    if numbers == {} then [] else [LeastOf(numbers)] + SortedNumbers(numbers - {LeastOf(numbers)})
  }

  function Between(points: seq<int>, lowest: int, highest: int): (r: seq<int>)
    ensures forall p :: p in r <==> p in points && lowest < p <= highest
  {
    if points == [] then []
    else
      assert points == [points[0]] + points[1..];
      (if lowest < points[0] <= highest then [points[0]] else []) + Between(points[1..], lowest, highest)
  }

  lemma {:induction false} BetweenKeepsOrder(points: seq<int>, lowest: int, highest: int)
    requires Increasing(points)
    ensures Increasing(Between(points, lowest, highest))
  {
    if points != [] {
      var rest := points[1..];
      assert forall i :: 0 <= i < |rest| ==> rest[i] == points[i + 1];
      BetweenKeepsOrder(rest, lowest, highest);
      var kept := Between(rest, lowest, highest);
      forall i | 0 <= i < |kept| ensures points[0] < kept[i] {
        assert kept[i] in rest;
      }
    }
  }

  function Point(lowest: int, span: int, count: int, i: int): int
    requires count >= 1
  {
    lowest + span * i / count
  }

  /** splitPoints: where each slice after the first begins. */
  function SplitPoints(lowest: int, highest: int, count: int): seq<int>
    requires count >= 1
  {
    var span := highest - lowest + 1;
    Between(SortedNumbers(set i | 1 <= i < count :: Point(lowest, span, count, i)), lowest, highest)
  }

  ghost predicate Holds(a: seq<int>, b: seq<int>) {
    forall i :: 0 <= i < |a| ==> a[i] in b
  }

  lemma TailIsHeld(a: seq<int>, b: seq<int>)
    requires a != [] && b != [] && a[0] == b[0] && Increasing(a) && Holds(a, b)
    ensures Holds(a[1..], b[1..])
  {
    var rest, others := a[1..], b[1..];
    forall i | 0 <= i < |rest| ensures rest[i] in others {
      assert rest[i] == a[i + 1];
      assert a[i + 1] in b;
      var j :| 0 <= j < |b| && b[j] == a[i + 1];
      assert others[j - 1] == rest[i];
    }
  }

  lemma HeldIsThere(a: seq<int>, b: seq<int>)
    requires Holds(a, b)
    ensures a != [] ==> b != []
  {
    if a != [] {
      assert a[0] in b;
    }
  }

  lemma {:induction false} IncreasingIsDetermined(a: seq<int>, b: seq<int>)
    requires Increasing(a) && Increasing(b) && Holds(a, b) && Holds(b, a)
    ensures a == b
  {
    HeldIsThere(a, b);
    HeldIsThere(b, a);
    if a != [] && b != [] {
      assert a[0] in b && b[0] in a;
      assert a[0] == b[0];
      TailIsHeld(a, b);
      TailIsHeld(b, a);
      IncreasingIsDetermined(a[1..], b[1..]);
    }
  }

  /** Consecutive cut points lie the span's share apart, rounded down or up. */
  lemma PointStep(lowest: int, span: int, count: nat, i: int)
    requires count >= 1
    ensures var width := Point(lowest, span, count, i + 1) - Point(lowest, span, count, i);
            span / count <= width <= span / count + 1
  {
    var a, b := span * i, span;
    assert span * (i + 1) == a + b;
    QuotientOfSum(a, b, count);
  }

  lemma QuotientOfSum(a: int, b: int, c: nat)
    requires c >= 1
    ensures a / c + b / c <= (a + b) / c <= a / c + b / c + 1
  {
    var x, y, z := a / c, b / c, (a + b) / c;
    var u, v, w := a % c, b % c, (a + b) % c;
    SplitsSum(c, x, u, y, v, z, w);
  }

  lemma SplitsSum(c: nat, x: int, u: nat, y: int, v: nat, z: int, w: nat)
    requires u < c && v < c && w < c && c * x + u + (c * y + v) == c * z + w
    ensures x + y <= z <= x + y + 1
  {
    SumOfMultiples(c, x, y);
    if u + v < c {
      QuotientIsUnique(c, x + y, u + v, z, w);
    } else {
      MulNext(c, x + y);
      QuotientIsUnique(c, x + y + 1, u + v - c, z, w);
    }
  }

  lemma SumOfMultiples(c: nat, x: int, y: int)
    ensures c * (x + y) == c * x + c * y
  {
  }

  lemma PointEnds(lowest: int, span: int, count: nat)
    requires count >= 1
    ensures Point(lowest, span, count, 0) == lowest && Point(lowest, span, count, count) == lowest + span
  {
    assert span * count == count * span + 0;
    assert span * count == count * (span * count / count) + span * count % count;
    QuotientIsUnique(count, span, 0, span * count / count, span * count % count);
  }

  lemma {:induction false} PointsOrder(lowest: int, span: int, count: nat, i: int, j: int)
    requires count >= 1 && i <= j && span >= 0
    ensures Point(lowest, span, count, i) + (span / count) * (j - i) <= Point(lowest, span, count, j)
    ensures Point(lowest, span, count, i) <= Point(lowest, span, count, j)
    ensures span >= count && i < j ==> Point(lowest, span, count, i) < Point(lowest, span, count, j)
    decreases j - i
  {
    if i < j {
      PointsOrder(lowest, span, count, i, j - 1);
      PointStep(lowest, span, count, j - 1);
      assert (span / count) * (j - i) == (span / count) * (j - 1 - i) + span / count;
      if span >= count {
        QuotientAtLeastOne(span, count);
      }
      QuotientNatural(span, count);
    }
  }

  lemma QuotientAtLeastOne(span: int, count: nat)
    requires count >= 1 && span >= count
    ensures span / count >= 1
  {
    var q, r := span / count, span % count;
    assert span == count * q + r;
    if q <= 0 {
      MulOrder(count, q, 0);
    }
  }

  lemma QuotientNatural(span: int, count: nat)
    requires count >= 1 && span >= 0
    ensures span / count >= 0 && (span < count ==> span / count == 0)
  {
    if span < count {
      QuotientIsUnique(count, 0, span, span / count, span % count);
    }
  }

  /** With more slices than values, every value between the ends is a cut point. */
  lemma {:induction false} PointsHit(lowest: int, span: int, count: nat, value: int, i: nat) returns (at: nat)
    requires count >= 1 && 0 <= span < count && i <= count
    requires Point(lowest, span, count, i) <= value < lowest + span
    ensures i <= at < count && Point(lowest, span, count, at) == value
    decreases count - i
  {
    PointEnds(lowest, span, count);
    if Point(lowest, span, count, i) == value {
      at := i;
    } else {
      PointStep(lowest, span, count, i);
      QuotientNatural(span, count);
      at := PointsHit(lowest, span, count, value, i + 1);
    }
  }

  ghost predicate IsPoint(lowest: int, span: int, count: nat, n: int)
    requires count >= 1
  {
    exists i :: 1 <= i < count && n == Point(lowest, span, count, i)
  }

  lemma PointsAreMembers(lowest: int, highest: int, count: nat, n: int)
    requires count >= 1
    ensures n in SplitPoints(lowest, highest, count) <==>
            lowest < n <= highest && IsPoint(lowest, highest - lowest + 1, count, n)
    ensures Increasing(SplitPoints(lowest, highest, count))
  {
    hide Point;
    var span := highest - lowest + 1;
    var numbers := set i | 1 <= i < count :: Point(lowest, span, count, i);
    assert n in numbers <==> IsPoint(lowest, span, count, n);
    BetweenKeepsOrder(SortedNumbers(numbers), lowest, highest);
  }

  function EveryShare(lowest: int, span: int, count: nat): (points: seq<int>)
    requires count >= 1
  {
    seq(count - 1, k => Point(lowest, span, count, k + 1))
  }

  function EveryValue(lowest: int, span: int): (points: seq<int>)
    requires span >= 1
  {
    seq(span - 1, k => lowest + k + 1)
  }

  lemma SharesAreTheCuts(lowest: int, highest: int, count: nat)
    requires count >= 1 && count <= highest - lowest + 1
    ensures SplitPoints(lowest, highest, count) == EveryShare(lowest, highest - lowest + 1, count)
  {
    hide Point, SplitPoints;
    var span := highest - lowest + 1;
    var points, all := SplitPoints(lowest, highest, count), EveryShare(lowest, span, count);
    PointEnds(lowest, span, count);
    forall i, j | 0 <= i < j < |all| ensures all[i] < all[j] {
      PointsOrder(lowest, span, count, i + 1, j + 1);
    }
    forall k | 0 <= k < |points| ensures points[k] in all {
      PointsAreMembers(lowest, highest, count, points[k]);
      var i :| 1 <= i < count && points[k] == Point(lowest, span, count, i);
      assert all[i - 1] == points[k];
    }
    forall k | 0 <= k < |all| ensures all[k] in points {
      PointsAreMembers(lowest, highest, count, all[k]);
      PointsOrder(lowest, span, count, 0, k + 1);
      PointsOrder(lowest, span, count, k + 1, count);
    }
    PointsAreMembers(lowest, highest, count, 0);
    IncreasingIsDetermined(points, all);
  }

  lemma ValuesAreTheCuts(lowest: int, highest: int, count: nat)
    requires count >= 1 && lowest <= highest && count > highest - lowest + 1
    ensures SplitPoints(lowest, highest, count) == EveryValue(lowest, highest - lowest + 1)
  {
    hide Point, SplitPoints;
    var span := highest - lowest + 1;
    var points, all := SplitPoints(lowest, highest, count), EveryValue(lowest, span);
    PointEnds(lowest, span, count);
    forall k | 0 <= k < |points| ensures points[k] in all {
      PointsAreMembers(lowest, highest, count, points[k]);
      assert all[points[k] - lowest - 1] == points[k];
    }
    forall k | 0 <= k < |all| ensures all[k] in points {
      PointsAreMembers(lowest, highest, count, all[k]);
      var at := PointsHit(lowest, span, count, all[k], 0);
    }
    PointsAreMembers(lowest, highest, count, 0);
    IncreasingIsDetermined(points, all);
  }

  /** What the cuts are: as many as slices fit, or every value after the first. */
  lemma SplitPointsAre(lowest: int, highest: int, count: nat)
    requires count >= 1 && lowest <= highest
    ensures var span := highest - lowest + 1;
            SplitPoints(lowest, highest, count) ==
            if count <= span then EveryShare(lowest, span, count) else EveryValue(lowest, span)
    ensures Increasing(SplitPoints(lowest, highest, count))
    ensures forall p :: p in SplitPoints(lowest, highest, count) ==> lowest < p <= highest
  {
    hide Point;
    if count <= highest - lowest + 1 {
      SharesAreTheCuts(lowest, highest, count);
    } else {
      ValuesAreTheCuts(lowest, highest, count);
    }
    PointsAreMembers(lowest, highest, count, 0);
  }

  /** Where slice `k` begins, the first at the lowest value, and the last ending after the highest. */
  function SliceStart(lowest: int, highest: int, points: seq<int>, k: nat): int
    requires k <= |points| + 1
  {
    if k == 0 then lowest else if k == |points| + 1 then highest + 1 else points[k - 1]
  }

  function SliceWidth(lowest: int, highest: int, points: seq<int>, k: nat): int
    requires k <= |points|
  {
    SliceStart(lowest, highest, points, k + 1) - SliceStart(lowest, highest, points, k)
  }

  lemma WidthIs(lowest: int, highest: int, count: nat, k: nat)
    requires count >= 1 && lowest <= highest && k <= |SplitPoints(lowest, highest, count)|
    ensures var span := highest - lowest + 1;
            var width := SliceWidth(lowest, highest, SplitPoints(lowest, highest, count), k);
            if count <= span then span / count <= width <= span / count + 1 else width == 1
  {
    hide Point, SplitPoints;
    var span := highest - lowest + 1;
    SplitPointsAre(lowest, highest, count);
    PointEnds(lowest, span, count);
    var points := SplitPoints(lowest, highest, count);
    if count <= span {
      PointStep(lowest, span, count, k);
      assert SliceStart(lowest, highest, points, k) == Point(lowest, span, count, k);
      assert SliceStart(lowest, highest, points, k + 1) == Point(lowest, span, count, k + 1);
    }
  }

  /** As many slices as asked for, or one per value where those are fewer, strictly
      increasing within the bounds, and as even as integers can be. */
  lemma SplitIsEven(lowest: int, highest: int, count: nat)
    requires count >= 1 && lowest <= highest
    ensures var points := SplitPoints(lowest, highest, count);
            && Increasing(points) && (forall p :: p in points ==> lowest < p <= highest)
            && |points| + 1 == (if count <= highest - lowest + 1 then count else highest - lowest + 1)
            && forall i, j :: 0 <= i <= |points| && 0 <= j <= |points| ==>
                 SliceWidth(lowest, highest, points, i) <= SliceWidth(lowest, highest, points, j) + 1
  {
    var points := SplitPoints(lowest, highest, count);
    SplitPointsAre(lowest, highest, count);
    forall i, j | 0 <= i <= |points| && 0 <= j <= |points|
      ensures SliceWidth(lowest, highest, points, i) <= SliceWidth(lowest, highest, points, j) + 1
    {
      WidthIs(lowest, highest, count, i);
      WidthIs(lowest, highest, count, j);
    }
  }

  // ---------- Slices of a number ----------

  /** A column's value: a number, with a fraction or not, or NULL. */
  datatype Value = Null | Number(value: real)

  /** What MIN or MAX of the column gives: nothing, a finite number, an infinity or NaN, or no number at all. */
  datatype Bound = NoBound | Finite(value: real) | NotFinite | NotANumber

  /** A ConfigurationError for each of the last two. */
  datatype BoundError = IsNotFinite | IsNotANumber

  /** integerBound: the integer at or below a finite bound, None where nothing was read, and an error for anything
      else. */
  function IntegerBound(bound: Bound): (r: Result<Option<int>, BoundError>)
    ensures r == Err(IsNotANumber) <==> bound.NotANumber?
    ensures r == Err(IsNotFinite) <==> bound.NotFinite?
    ensures r == Ok(None) <==> bound.NoBound?
    ensures bound.Finite? ==>
              && r.Ok? && r.value.Some?
              && r.value.value as real <= bound.value < (r.value.value + 1) as real
  {
    match bound
    case NoBound => Ok(None)
    case Finite(value) => Ok(Some(value.Floor))
    case NotFinite => Err(IsNotFinite)
    case NotANumber => Err(IsNotANumber)
  }

  /** The conditions slicePredicates writes; a comparison with NULL is unknown, and selects nothing. */
  datatype Predicate = Everything | Below(end: int) | Within(start: int, end: int) | From(start: int)

  predicate Selects(predicate': Predicate, value: Value) {
    match predicate'
    case Everything => true
    case Below(end) => value.Null? || value.value < end as real
    case Within(start, end) => value.Number? && start as real <= value.value < end as real
    case From(start) => value.Number? && start as real <= value.value
  }

  /** slicePredicates. */
  method SlicePredicates(points: seq<int>) returns (predicates: seq<Predicate>)
    ensures predicates == PredicatesFor(points)
  {
    if points == [] {
      return [Everything];
    }
    predicates := [Below(points[0])];
    for k := 1 to |points|
      invariant |predicates| == k && predicates[0] == Below(points[0])
      invariant forall i :: 0 < i < k ==> predicates[i] == Within(points[i - 1], points[i])
    {
      predicates := predicates + [Within(points[k - 1], points[k])];
    }
    predicates := predicates + [From(points[|points| - 1])];
  }

  function PredicatesFor(points: seq<int>): (predicates: seq<Predicate>)
    ensures |predicates| == |points| + 1
  {
    if points == [] then [Everything]
    else seq(|points| + 1, k requires 0 <= k <= |points| =>
               if k == 0 then Below(points[0])
               else if k == |points| then From(points[k - 1])
               else Within(points[k - 1], points[k]))
  }

  /** Which slice a value is in: the one after as many cut points as it has reached. */
  function SliceOf(points: seq<int>, value: Value): (k: nat)
    ensures k <= |points|
  {
    if points == [] || value.Null? || value.value < points[0] as real then 0 else 1 + SliceOf(points[1..], value)
  }

  lemma {:induction false} SliceOfMeans(points: seq<int>, value: Value)
    requires Increasing(points) && value.Number?
    ensures var k := SliceOf(points, value);
            && (forall i :: 0 <= i < k ==> points[i] as real <= value.value)
            && (forall i :: k <= i < |points| ==> value.value < points[i] as real)
  {
    if points != [] {
      if value.value < points[0] as real {
        forall i | 0 <= i < |points| ensures value.value < points[i] as real {
          assert i > 0 ==> points[0] < points[i];
        }
      } else {
        SliceOfMeans(points[1..], value);
        var k := SliceOf(points[1..], value);
        forall i | 0 <= i < k + 1 ensures points[i] as real <= value.value {
          assert i > 0 ==> points[i] == points[1..][i - 1];
        }
        forall i | k + 1 <= i < |points| ensures value.value < points[i] as real {
          assert points[i] == points[1..][i - 1];
        }
      }
    }
  }

  /** Every row, its column NULL, a fraction or beyond the bounds read, is in exactly one slice. */
  lemma ExactlyOneSlice(points: seq<int>, value: Value, k: nat)
    requires Increasing(points) && k <= |points|
    ensures Selects(PredicatesFor(points)[k], value) <==> k == SliceOf(points, value)
  {
    if value.Number? {
      SliceOfMeans(points, value);
      var at := SliceOf(points, value);
      if k < at {
        assert points[k] as real <= value.value;
      } else if k > at {
        assert value.value < points[k - 1] as real;
      }
    }
  }

  // ---------- Slices of what is no number ----------

  /** A database's order of a column's values. */
  ghost predicate TotalOrder<T(!new)>(atMost: (T, T) -> bool) {
    && (forall a, b :: atMost(a, b) || atMost(b, a))
    && (forall a, b, c :: atMost(a, b) && atMost(b, c) ==> atMost(a, c))
  }

  datatype Range<T> = All | UpTo(high: T) | Above(low: T, high: T) | Over(low: T)

  predicate InRange<T(!new)>(range: Range<T>, atMost: (T, T) -> bool, value: Option<T>) {
    match range
    case All => true
    case UpTo(high) => value.None? || atMost(value.value, high)
    case Above(low, high) => value.Some? && !atMost(value.value, low) && atMost(value.value, high)
    case Over(low) => value.Some? && !atMost(value.value, low)
  }

  ghost predicate NonDecreasing<T(!new)>(values: seq<T>, atMost: (T, T) -> bool) {
    forall i, j :: 0 <= i < j < |values| ==> atMost(values[i], values[j])
  }

  /** The bounds of the slices: the shares' largest values but the last, each
      kept unless Python finds it equal to the one kept before it. */
  function KeptBounds<T(!new)>(maxima: seq<T>, same: (T, T) -> bool): (bounds: seq<T>)
    ensures maxima != [] ==> bounds != []
  {
    if maxima == [] then []
    else
      var n := |maxima| - 1;
      var before := KeptBounds(maxima[..n], same);
      if before == [] || !same(maxima[n], before[|before| - 1]) then before + [maxima[n]] else before
  }

  function RangesFor<T(!new)>(bounds: seq<T>): (ranges: seq<Range<T>>)
    ensures |ranges| == |bounds| + 1
  {
    if bounds == [] then [All]
    else seq(|bounds| + 1, k requires 0 <= k <= |bounds| =>
               if k == 0 then UpTo(bounds[0])
               else if k == |bounds| then Over(bounds[k - 1])
               else Above(bounds[k - 1], bounds[k]))
  }

  /** quantileSlices. */
  method QuantileSlices<T(!new)>(maxima: seq<T>, same: (T, T) -> bool) returns (ranges: seq<Range<T>>)
    ensures ranges == RangesFor(KeptBounds(if maxima == [] then [] else maxima[..|maxima| - 1], same))
  {
    var bounds: seq<T> := [];
    var taken := if maxima == [] then [] else maxima[..|maxima| - 1];
    for k := 0 to |taken|
      invariant bounds == KeptBounds(taken[..k], same)
    {
      assert taken[..k + 1][..k] == taken[..k];
      if bounds == [] || !same(taken[k], bounds[|bounds| - 1]) {
        bounds := bounds + [taken[k]];
      }
    }
    assert taken[..|taken|] == taken;
    if bounds == [] {
      return [All];
    }
    ranges := [UpTo(bounds[0])];
    for k := 1 to |bounds|
      invariant |ranges| == k && ranges[0] == UpTo(bounds[0])
      invariant forall i :: 0 < i < k ==> ranges[i] == Above(bounds[i - 1], bounds[i])
    {
      ranges := ranges + [Above(bounds[k - 1], bounds[k])];
    }
    ranges := ranges + [Over(bounds[|bounds| - 1])];
  }

  lemma {:induction false} KeptBoundsKeepOrder<T(!new)>(maxima: seq<T>, same: (T, T) -> bool, atMost: (T, T) -> bool)
    requires NonDecreasing(maxima, atMost)
    ensures NonDecreasing(KeptBounds(maxima, same), atMost)
    ensures forall b :: b in KeptBounds(maxima, same) ==> b in maxima
  {
    if maxima != [] {
      var n := |maxima| - 1;
      KeptBoundsKeepOrder(maxima[..n], same, atMost);
      var before := KeptBounds(maxima[..n], same);
      forall i | 0 <= i < |before| ensures atMost(before[i], maxima[n]) {
        assert before[i] in before;
        assert before[i] in maxima[..n];
        var k :| 0 <= k < n && maxima[..n][k] == before[i];
      }
      assert maxima == maxima[..n] + [maxima[n]];
    }
  }

  function RangeOf<T(!new)>(bounds: seq<T>, atMost: (T, T) -> bool, value: Option<T>): (k: nat)
    ensures k <= |bounds|
  {
    if bounds == [] || value.None? || atMost(value.value, bounds[0]) then 0 else 1 + RangeOf(bounds[1..], atMost, value)
  }

  lemma {:induction false} RangeOfMeans<T(!new)>(bounds: seq<T>, atMost: (T, T) -> bool, value: T)
    requires TotalOrder(atMost) && NonDecreasing(bounds, atMost)
    ensures var k := RangeOf(bounds, atMost, Some(value));
            && (forall i :: 0 <= i < k ==> !atMost(value, bounds[i]))
            && (forall i :: k <= i < |bounds| ==> atMost(value, bounds[i]))
  {
    if bounds != [] {
      if atMost(value, bounds[0]) {
        forall i | 0 <= i < |bounds| ensures atMost(value, bounds[i]) {
          assert i > 0 ==> atMost(bounds[0], bounds[i]);
        }
      } else {
        var rest := bounds[1..];
        RangeOfMeans(rest, atMost, value);
        var k := RangeOf(rest, atMost, Some(value));
        forall i | 0 <= i < k + 1 ensures !atMost(value, bounds[i]) {
          assert i > 0 ==> bounds[i] == rest[i - 1];
        }
        forall i | k + 1 <= i < |bounds| ensures atMost(value, bounds[i]) {
          assert bounds[i] == rest[i - 1];
        }
      }
    }
  }

  /** Every row is in exactly one range of the values read in the database's
      order, whatever Python calls equal. */
  lemma ExactlyOneRange<T(!new)>(maxima: seq<T>, same: (T, T) -> bool, atMost: (T, T) -> bool, value: Option<T>, k: nat)
    requires TotalOrder(atMost) && NonDecreasing(maxima, atMost) && k <= |KeptBounds(maxima, same)|
    ensures var bounds := KeptBounds(maxima, same);
            InRange(RangesFor(bounds)[k], atMost, value) <==> k == RangeOf(bounds, atMost, value)
  {
    KeptBoundsKeepOrder(maxima, same, atMost);
    var bounds := KeptBounds(maxima, same);
    if value.Some? {
      RangeOfMeans(bounds, atMost, value.value);
      var at := RangeOf(bounds, atMost, value);
      if k < at {
        assert !atMost(value.value, bounds[k]);
      } else if k > at {
        assert atMost(value.value, bounds[k - 1]);
      }
    }
  }
}
