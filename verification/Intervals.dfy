/** Half-open integer intervals: union, intersection and measure
    (benchmarks/workload_diagnostics.py:22-51).  A list of intervals means the set of
    points it covers, and everything computed from it is stated about that set. */
module Intervals {

  /** `(start, end)`: the points from `start` up to, not including, `end`. */
  type Interval = (int, int)

  function Min(a: int, b: int): int {
    if a < b then a else b
  }

  function Max(a: int, b: int): int {
    if a < b then b else a
  }

  predicate Within(x: Interval, t: int) {
    x.0 <= t < x.1
  }

  ghost function Range(x: Interval): set<int> {
    set t | x.0 <= t < x.1 && Within(x, t)
  }

  ghost function Points(xs: seq<Interval>): set<int> {
    if xs == [] then {} else Range(xs[0]) + Points(xs[1..])
  }

  /** The canonical form: non-empty intervals in order, with a gap between any two. */
  ghost predicate Merged(xs: seq<Interval>) {
    && (forall i :: 0 <= i < |xs| ==> xs[i].0 < xs[i].1)
    && (forall i, j :: 0 <= i < j < |xs| ==> xs[i].1 < xs[j].0)
  }

  function Measure(xs: seq<Interval>): int {
    if xs == [] then 0 else Measure(xs[..|xs| - 1]) + (xs[|xs| - 1].1 - xs[|xs| - 1].0)
  }

  // ----- points -----

  lemma {:induction false} PointsCovered(xs: seq<Interval>, t: int)
    ensures t in Points(xs) <==> exists i :: 0 <= i < |xs| && Within(xs[i], t)
  {
    if xs != [] {
      PointsCovered(xs[1..], t);
      if i :| 0 <= i < |xs| && Within(xs[i], t) {
        if i > 0 { assert xs[1..][i - 1] == xs[i]; }
      }
    }
  }

  lemma {:induction false} PointsConcat(xs: seq<Interval>, ys: seq<Interval>)
    ensures Points(xs + ys) == Points(xs) + Points(ys)
  {
    if xs == [] {
      assert xs + ys == ys;
    } else {
      PointsConcat(xs[1..], ys);
      assert (xs + ys)[1..] == xs[1..] + ys;
    }
  }

  lemma {:induction false} PointsAppend(xs: seq<Interval>, x: Interval)
    ensures Points(xs + [x]) == Points(xs) + Range(x)
  {
    PointsConcat(xs, [x]);
    assert [x][1..] == [];
  }

  lemma {:induction false} PointsPrefix(xs: seq<Interval>, k: nat)
    requires k < |xs|
    ensures Points(xs[..k + 1]) == Points(xs[..k]) + Range(xs[k])
  {
    assert xs[..k + 1] == xs[..k] + [xs[k]];
    PointsAppend(xs[..k], xs[k]);
  }

  // ----- measure is the number of points -----

  lemma {:induction false} RangeSize(x: Interval)
    ensures |Range(x)| == Max(0, x.1 - x.0)
    decreases x.1 - x.0
  {
    if x.0 < x.1 {
      RangeSize((x.0, x.1 - 1));
      assert Range(x) == Range((x.0, x.1 - 1)) + {x.1 - 1};
    } else {
      assert Range(x) == {};
    }
  }

  lemma {:induction false} DisjointSum(a: set<int>, b: set<int>)
    requires a !! b
    ensures |a + b| == |a| + |b|
  {
  }

  lemma {:induction false} MeasureCounts(xs: seq<Interval>)
    requires Merged(xs)
    ensures Measure(xs) == |Points(xs)|
  {
    hide Range;
    if xs != [] {
      var rest, x := xs[..|xs| - 1], xs[|xs| - 1];
      MeasureCounts(rest);
      assert xs == rest + [x];
      PointsAppend(rest, x);
      RangeSize(x);
      LastIsApart(xs);
      DisjointSum(Points(rest), Range(x));
    }
  }

  lemma {:induction false} LastIsApart(xs: seq<Interval>)
    requires Merged(xs) && xs != []
    ensures Points(xs[..|xs| - 1]) !! Range(xs[|xs| - 1])
  {
    hide Points;
    var rest, x := xs[..|xs| - 1], xs[|xs| - 1];
    forall t | t in Points(rest) ensures t !in Range(x) {
      PointsCovered(rest, t);
    }
  }

  // ----- the canonical form is unique -----

  lemma {:induction false} FirstPoint(xs: seq<Interval>, ys: seq<Interval>)
    requires Merged(xs) && Merged(ys) && xs != [] && Points(xs) == Points(ys)
    ensures ys != [] && xs[0].0 >= ys[0].0
  {
    PointsCovered(xs, xs[0].0);
    PointsCovered(ys, xs[0].0);
    assert Within(xs[0], xs[0].0);
    var j :| 0 <= j < |ys| && Within(ys[j], xs[0].0);
    assert j > 0 ==> ys[0].1 < ys[j].0;
  }

  lemma {:induction false} FirstEnd(xs: seq<Interval>, ys: seq<Interval>)
    requires Merged(xs) && Merged(ys) && xs != [] && ys != [] && Points(xs) == Points(ys) && xs[0].0 == ys[0].0
    ensures xs[0].1 >= ys[0].1
  {
    var t := xs[0].1;
    PointsCovered(ys, t);
    PointsCovered(xs, t);
    assert forall i :: 0 <= i < |xs| ==> !Within(xs[i], t);
    assert !Within(ys[0], t);
  }

  /** Two merged lists of the same points are the same list. */
  lemma {:induction false} MergedUnique(xs: seq<Interval>, ys: seq<Interval>)
    requires Merged(xs) && Merged(ys) && Points(xs) == Points(ys)
    ensures xs == ys
    decreases |xs|
  {
    if xs == [] {
      if ys != [] { FirstPoint(ys, xs); }
    } else {
      FirstPoint(xs, ys);
      FirstPoint(ys, xs);
      FirstEnd(xs, ys);
      FirstEnd(ys, xs);
      forall t ensures t in Points(xs[1..]) <==> t in Points(ys[1..]) {
        PointsCovered(xs[1..], t);
        PointsCovered(ys[1..], t);
        assert t in Points(xs) <==> t in Range(xs[0]) || t in Points(xs[1..]);
      }
      MergedUnique(xs[1..], ys[1..]);
    }
  }

  // ----- sorted() -----

  predicate AtMost(a: Interval, b: Interval) {
    a.0 < b.0 || (a.0 == b.0 && a.1 <= b.1)
  }

  predicate Ordered(xs: seq<Interval>) {
    forall i, j :: 0 <= i < j < |xs| ==> AtMost(xs[i], xs[j])
  }

  function Insert(x: Interval, xs: seq<Interval>): seq<Interval> {
    if xs == [] || AtMost(x, xs[0]) then [x] + xs else [xs[0]] + Insert(x, xs[1..])
  }

  function Sorted(xs: seq<Interval>): seq<Interval> {
    if xs == [] then [] else Insert(xs[0], Sorted(xs[1..]))
  }

  lemma {:induction false} InsertKeeps(x: Interval, xs: seq<Interval>)
    ensures multiset(Insert(x, xs)) == multiset(xs) + multiset{x}
  {
    if xs != [] && !AtMost(x, xs[0]) {
      InsertKeeps(x, xs[1..]);
      assert xs == [xs[0]] + xs[1..];
    }
  }

  lemma {:induction false} InsertOrdered(x: Interval, xs: seq<Interval>)
    requires Ordered(xs)
    ensures Ordered(Insert(x, xs))
  {
    if xs != [] && !AtMost(x, xs[0]) {
      InsertOrdered(x, xs[1..]);
      var s := Insert(x, xs[1..]);
      InsertKeeps(x, xs[1..]);
      forall i | 0 <= i < |s| ensures AtMost(xs[0], s[i]) {
        assert s[i] in multiset(xs[1..]) + multiset{x};
      }
    }
  }

  lemma {:induction false} InsertPoints(x: Interval, xs: seq<Interval>)
    ensures Points(Insert(x, xs)) == Range(x) + Points(xs)
  {
    hide Range;
    var r := Insert(x, xs);
    if xs == [] || AtMost(x, xs[0]) {
      assert r[1..] == xs;
    } else {
      InsertPoints(x, xs[1..]);
      assert r[1..] == Insert(x, xs[1..]);
    }
  }

  lemma {:induction false} SortedIsOrdered(xs: seq<Interval>)
    ensures Ordered(Sorted(xs)) && multiset(Sorted(xs)) == multiset(xs) && Points(Sorted(xs)) == Points(xs)
  {
    if xs != [] {
      SortedIsOrdered(xs[1..]);
      InsertOrdered(xs[0], Sorted(xs[1..]));
      InsertKeeps(xs[0], Sorted(xs[1..]));
      InsertPoints(xs[0], Sorted(xs[1..]));
      assert xs == [xs[0]] + xs[1..];
    }
  }

  // ----- the algorithms -----

  /** An interval that starts inside the last one, or at its end, only widens it. */
  lemma {:induction false} Widen(init: seq<Interval>, last: Interval, x: Interval)
    requires last.0 <= x.0 <= last.1 && x.0 < x.1
    ensures Points(init + [(last.0, Max(last.1, x.1))]) == Points(init + [last]) + Range(x)
  {
    var wider := (last.0, Max(last.1, x.1));
    PointsAppend(init, last);
    PointsAppend(init, wider);
    assert Range(wider) == Range(last) + Range(x);
  }

  lemma {:induction false} EmptyRange(x: Interval)
    requires x.1 <= x.0
    ensures Range(x) == {}
  {
  }

  /** `merge_intervals`: the canonical form of exactly the input's points. */
  method MergeIntervals(xs: seq<Interval>) returns (merged: seq<Interval>)
    ensures Merged(merged) && Points(merged) == Points(xs)
  {
    hide Range, Points, Sorted;
    var sorted := Sorted(xs);
    SortedIsOrdered(xs);
    merged := [];
    assert sorted[..0] == merged;
    for k := 0 to |sorted|
      invariant Merged(merged) && Points(merged) == Points(sorted[..k])
      invariant merged != [] && k < |sorted| ==> merged[|merged| - 1].0 <= sorted[k].0
    {
      var (start, end) := sorted[k];
      PointsPrefix(sorted, k);
      if end <= start {
        EmptyRange(sorted[k]);
      } else if merged != [] && start <= merged[|merged| - 1].1 {
        var init, last := merged[..|merged| - 1], merged[|merged| - 1];
        assert merged == init + [last];
        Widen(init, last, sorted[k]);
        merged := init + [(last.0, Max(last.1, end))];
      } else {
        PointsAppend(merged, (start, end));
        merged := merged + [(start, end)];
      }
      assert k + 1 < |sorted| ==> AtMost(sorted[k], sorted[k + 1]);
    }
    assert sorted[..|sorted|] == sorted;
  }

  /** `interval_ns`: how many points are covered, however often. */
  method IntervalNs(xs: seq<Interval>) returns (ns: int)
    ensures ns == |Points(xs)|
  {
    var merged := MergeIntervals(xs);
    MeasureCounts(merged);
    ns := Measure(merged);
  }

  /** When the interval that ends first is passed, what it has in common with the other
      list lies in what was passed before, or in the other list's current interval. */
  lemma {:induction false} CommonPoint(left: seq<Interval>, right: seq<Interval>, i: nat, j: nat, t: int)
    requires Merged(left) && Merged(right) && i < |left| && j < |right|
    requires t in Points(left) && t in Points(right)
    requires Within(if left[i].1 < right[j].1 then left[i] else right[j], t)
    ensures t in Points(left[..i]) || t in Points(right[..j]) || (Within(left[i], t) && Within(right[j], t))
  {
    PointsCovered(left, t);
    PointsCovered(right, t);
    PointsCovered(left[..i], t);
    PointsCovered(right[..j], t);
    hide Points;
    var a :| 0 <= a < |left| && Within(left[a], t);
    var b :| 0 <= b < |right| && Within(right[b], t);
    if a < i { assert left[..i][a] == left[a]; }
    if b < j { assert right[..j][b] == right[b]; }
  }

  ghost function Common(left: seq<Interval>, right: seq<Interval>, i: nat, j: nat): set<int>
    requires i <= |left| && j <= |right|
  {
    Points(left) * Points(right) * (Points(left[..i]) + Points(right[..j]))
  }

  lemma {:induction false} CommonStep(left: seq<Interval>, right: seq<Interval>, i: nat, j: nat)
    requires Merged(left) && Merged(right) && i < |left| && j < |right|
    ensures var both := (Max(left[i].0, right[j].0), Min(left[i].1, right[j].1));
            Common(left, right, i, j) + Range(both) ==
            if left[i].1 < right[j].1 then Common(left, right, i + 1, j) else Common(left, right, i, j + 1)
  {
    var both := (Max(left[i].0, right[j].0), Min(left[i].1, right[j].1));
    PointsPrefix(left, i);
    PointsPrefix(right, j);
    assert forall t :: t in Range(both) <==> t in Range(left[i]) && t in Range(right[j]);
    assert Range(left[i]) <= Points(left) && Range(right[j]) <= Points(right) by {
      forall t | t in Range(left[i]) ensures t in Points(left) { PointsCovered(left, t); }
      forall t | t in Range(right[j]) ensures t in Points(right) { PointsCovered(right, t); }
    }
    hide Points;
    forall t | t in Points(left) && t in Points(right) && Within(if left[i].1 < right[j].1 then left[i] else right[j], t)
      ensures t in Points(left[..i]) || t in Points(right[..j]) || (Within(left[i], t) && Within(right[j], t))
    {
      CommonPoint(left, right, i, j, t);
    }
  }

  /** `intersect_intervals`: the canonical form of exactly the common points. */
  method IntersectIntervals(xs: seq<Interval>, ys: seq<Interval>) returns (result: seq<Interval>)
    ensures Merged(result) && Points(result) == Points(xs) * Points(ys)
  {
    hide Points, Range;
    var left := MergeIntervals(xs);
    var right := MergeIntervals(ys);
    result := [];
    var i, j := 0, 0;
    assert left[..0] == result && right[..0] == result;
    assert Points(result) == {} by { NoPoints(); }
    while i < |left| && j < |right|
      invariant 0 <= i <= |left| && 0 <= j <= |right| && Merged(result)
      invariant Points(result) == Common(left, right, i, j)
      invariant i < |left| && j < |right| ==>
                  forall k :: 0 <= k < |result| ==> result[k].1 < Max(left[i].0, right[j].0)
      decreases |left| - i + |right| - j
    {
      var start, end := Max(left[i].0, right[j].0), Min(left[i].1, right[j].1);
      CommonStep(left, right, i, j);
      PointsAppend(result, (start, end));
      if start < end {
        result := result + [(start, end)];
      } else {
        EmptyRange((start, end));
      }
      if left[i].1 < right[j].1 {
        i := i + 1;
      } else {
        j := j + 1;
      }
    }
    assert left[..|left|] == left && right[..|right|] == right;
  }

  lemma {:induction false} NoPoints()
    ensures Points([]) == {}
  {
  }
}
