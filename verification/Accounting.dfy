/** How the workload recorder divides an operation's elapsed time among its phases and
    the garbage collector (benchmarks/workload_diagnostics.py:249-330).  Spans nest and
    overlap freely and collections may come from any thread, so every figure is stated
    as the number of instants in a set, and the division as inclusion and exclusion. */
module Accounting {
  import opened Intervals

  datatype Phase = Sql | Serialize | Deserialize | BackendIo | BackendApi

  /** `BackendApi` encloses the others, so it is no part of the union of leaves. */
  const PHASES := [Sql, Serialize, Deserialize, BackendIo, BackendApi]
  const LEAF_PHASES := PHASES[..4]

  datatype Span = Span(index: nat, phase: Phase, window: Interval)

  datatype Operation = Operation(index: nat, window: Interval, elapsed: int)

  datatype GcOverlap = GcOverlap(event: nat, ns: int)

  datatype PhaseTimes =
    | NotRecorded
    | Recorded(inclusive: map<Phase, int>, duringGc: map<Phase, int>, leafUnion: int, accounted: int, other: int)

  datatype Diagnostics = Diagnostics(overlaps: seq<GcOverlap>, gc: int, nonGc: int, phases: PhaseTimes)

  /** One clock, read before and after the call. */
  predicate Timed(op: Operation) {
    op.window.0 <= op.window.1 && op.elapsed == op.window.1 - op.window.0
  }

  function WindowsOf(spans: seq<Span>, index: nat, phase: Phase): seq<Interval> {
    if spans == [] then []
    else
      var rest, s := spans[..|spans| - 1], spans[|spans| - 1];
      if s.index == index && s.phase == phase then WindowsOf(rest, index, phase) + [s.window]
      else WindowsOf(rest, index, phase)
  }

  // ----- what the figures mean -----

  ghost function GcTime(op: Operation, collections: seq<Interval>): set<int> {
    Range(op.window) * Points(collections)
  }

  ghost function PhaseTime(op: Operation, spans: seq<Span>, phase: Phase): set<int> {
    Range(op.window) * Points(WindowsOf(spans, op.index, phase))
  }

  ghost function LeafTime(op: Operation, spans: seq<Span>): set<int> {
    PhaseTime(op, spans, Sql) + PhaseTime(op, spans, Serialize)
    + PhaseTime(op, spans, Deserialize) + PhaseTime(op, spans, BackendIo)
  }

  /** An instant is leaf time when some span of a leaf phase of this operation covers it. */
  lemma {:induction false} LeafTimeMeans(op: Operation, spans: seq<Span>, t: int)
    ensures t in LeafTime(op, spans) <==>
              Within(op.window, t)
              && exists i :: 0 <= i < |spans| && spans[i].index == op.index
                             && spans[i].phase != BackendApi && Within(spans[i].window, t)
  {
    forall p: Phase ensures t in Points(WindowsOf(spans, op.index, p)) <==>
                              exists i :: 0 <= i < |spans| && spans[i].index == op.index && spans[i].phase == p
                                          && Within(spans[i].window, t)
    {
      WindowsMeans(spans, op.index, p, t);
    }
    hide Points, WindowsOf;
    if i :| 0 <= i < |spans| && spans[i].index == op.index && spans[i].phase != BackendApi && Within(spans[i].window, t) {
      assert t in Points(WindowsOf(spans, op.index, spans[i].phase));
    }
  }

  lemma {:induction false} WindowsMeans(spans: seq<Span>, index: nat, p: Phase, t: int)
    ensures t in Points(WindowsOf(spans, index, p)) <==>
              exists i :: 0 <= i < |spans| && spans[i].index == index && spans[i].phase == p && Within(spans[i].window, t)
  {
    hide Points;
    if spans == [] {
      NoPoints();
    } else {
      var rest, s := spans[..|spans| - 1], spans[|spans| - 1];
      WindowsMeans(rest, index, p, t);
      PointsAppend(WindowsOf(rest, index, p), s.window);
      if i :| 0 <= i < |spans| && spans[i].index == index && spans[i].phase == p && Within(spans[i].window, t) {
        if i < |rest| { assert rest[i] == spans[i]; }
      }
    }
  }

  ghost predicate Exact(d: Diagnostics, op: Operation, collections: seq<Interval>, spans: seq<Span>) {
    && d.gc == |GcTime(op, collections)| && d.nonGc == op.elapsed - d.gc
    && Listed(d.overlaps, op, collections)
    && (d.phases.Recorded? ==> PhasesExact(d.phases, op, collections, spans))
  }

  ghost predicate PhasesExact(p: PhaseTimes, op: Operation, collections: seq<Interval>, spans: seq<Span>)
    requires p.Recorded?
  {
    && (forall x: Phase :: x in p.inclusive && p.inclusive[x] == |PhaseTime(op, spans, x)|)
    && (forall x: Phase :: x in p.duringGc && p.duringGc[x] == |PhaseTime(op, spans, x) * GcTime(op, collections)|)
    && p.leafUnion == |LeafTime(op, spans)|
    && p.accounted == |LeafTime(op, spans) + GcTime(op, collections)|
    && p.other == op.elapsed - p.accounted
  }

  /** Exactly the collections that meet the operation, in order, each with its share. */
  ghost predicate Listed(overlaps: seq<GcOverlap>, op: Operation, collections: seq<Interval>) {
    && (forall i, j :: 0 <= i < j < |overlaps| ==> overlaps[i].event < overlaps[j].event)
    && (forall i :: 0 <= i < |overlaps| ==>
          overlaps[i].event < |collections| && overlaps[i].ns == Share(op, collections[overlaps[i].event]) > 0)
    && (forall k :: 0 <= k < |collections| && Share(op, collections[k]) > 0 ==>
          exists i :: 0 <= i < |overlaps| && overlaps[i].event == k)
  }

  ghost function Share(op: Operation, collection: Interval): nat {
    |Range(collection) * Range(op.window)|
  }

  // ----- what follows -----

  lemma {:induction false} BothOrEither(a: set<int>, b: set<int>)
    ensures |a + b| == |a| + |b| - |a * b|
  {
    assert a + b == a + (b - a) && b == (b - a) + a * b;
    DisjointSum(a, b - a);
    DisjointSum(b - a, a * b);
  }

  lemma {:induction false} PartOf(a: set<int>, b: set<int>)
    requires a <= b
    ensures |a| <= |b| && |b - a| == |b| - |a|
  {
    assert b == a + (b - a);
    DisjointSum(a, b - a);
  }

  /** The accounting closes: leaf phases, collection time and the rest make up the
      elapsed time once their overlap is taken out, and no part is negative. */
  lemma {:induction false} TimeIsConserved(d: Diagnostics, op: Operation, collections: seq<Interval>, spans: seq<Span>)
    requires Timed(op) && Exact(d, op, collections, spans)
    ensures 0 <= d.gc <= op.elapsed
    ensures d.phases.Recorded? ==>
              var p := d.phases;
              && 0 <= p.leafUnion <= p.accounted <= op.elapsed && d.gc <= p.accounted
              && p.other + p.leafUnion + d.gc - |LeafTime(op, spans) * GcTime(op, collections)| == op.elapsed
              && p.other == |Range(op.window) - LeafTime(op, spans) - GcTime(op, collections)|
              && (forall x: Phase :: x != BackendApi ==> p.inclusive[x] <= p.leafUnion)
  {
    hide Points, Range, Listed;
    var w, leaf, gc := Range(op.window), LeafTime(op, spans), GcTime(op, collections);
    RangeSize(op.window);
    PartOf(gc, w);
    if d.phases.Recorded? {
      LeafPhases(op, spans);
      hide PhaseTime, GcTime, LeafTime;
      WithinElapsed(w, leaf, gc);
      forall x: Phase | x != BackendApi ensures d.phases.inclusive[x] <= d.phases.leafUnion {
        PartOf(PhaseTime(op, spans, x), leaf);
      }
    }
  }

  lemma {:induction false} LeafPhases(op: Operation, spans: seq<Span>)
    ensures LeafTime(op, spans) <= Range(op.window)
    ensures forall x: Phase :: x != BackendApi ==> PhaseTime(op, spans, x) <= LeafTime(op, spans)
  {
    hide Points, Range;
  }

  lemma {:induction false} WithinElapsed(w: set<int>, leaf: set<int>, gc: set<int>)
    requires leaf <= w && gc <= w
    ensures |leaf| <= |leaf + gc| <= |w| && |gc| <= |leaf + gc|
    ensures |w| - |leaf + gc| + |leaf| + |gc| - |leaf * gc| == |w|
    ensures |w| - |leaf + gc| == |w - leaf - gc|
  {
    BothOrEither(leaf, gc);
    PartOf(leaf + gc, w);
    PartOf(leaf, leaf + gc);
    PartOf(gc, leaf + gc);
    assert w - (leaf + gc) == w - leaf - gc;
  }

  ghost function Shares(op: Operation, collections: seq<Interval>): nat {
    if collections == [] then 0
    else Shares(op, collections[..|collections| - 1]) + Share(op, collections[|collections| - 1])
  }

  ghost predicate ApartDuring(op: Operation, collections: seq<Interval>) {
    forall i, j :: 0 <= i < j < |collections| ==>
      Range(collections[i]) * Range(collections[j]) * Range(op.window) == {}
  }

  /** Adding up the listed shares counts collection time at least once, and exactly once
      if and only if no two collections coincide within the operation. */
  lemma {:induction false} SharesAgainstUnion(op: Operation, collections: seq<Interval>)
    ensures |GcTime(op, collections)| <= Shares(op, collections)
    ensures |GcTime(op, collections)| == Shares(op, collections) <==> ApartDuring(op, collections)
  {
    if collections == [] {
      assert GcTime(op, collections) == {};
    } else {
      hide Range, Points, ApartDuring;
      var n := |collections| - 1;
      var rest, z := collections[..n], collections[n];
      SharesAgainstUnion(op, rest);
      assert collections == rest + [z];
      PointsAppend(rest, z);
      LastApartDuring(op, collections);
      OneMoreShare(Range(op.window), Points(rest), Range(z));
    }
  }

  lemma {:induction false} OneMoreShare(w: set<int>, p: set<int>, z: set<int>)
    ensures |w * (p + z)| == |w * p| + |z * w| - |(w * p) * (z * w)|
    ensures |(w * p) * (z * w)| == 0 <==> (w * p) * (z * w) == {}
  {
    assert w * (p + z) == w * p + z * w;
    BothOrEither(w * p, z * w);
  }

  lemma {:induction false} LastApartDuring(op: Operation, collections: seq<Interval>)
    requires collections != []
    ensures var n := |collections| - 1;
            ApartDuring(op, collections) <==>
            ApartDuring(op, collections[..n]) && GcTime(op, collections[..n]) * (Range(collections[n]) * Range(op.window)) == {}
  {
    var n := |collections| - 1;
    var rest, z := collections[..n], collections[n];
    hide Points;
    if ApartDuring(op, collections) {
      forall i, j | 0 <= i < j < n ensures Range(rest[i]) * Range(rest[j]) * Range(op.window) == {} {
        assert rest[i] == collections[i] && rest[j] == collections[j];
      }
      forall t | t in GcTime(op, rest) ensures !Within(z, t) {
        PointsCovered(rest, t);
        var i :| 0 <= i < |rest| && Within(rest[i], t);
        assert rest[i] == collections[i];
        assert t !in Range(collections[i]) * Range(z) * Range(op.window);
      }
    }
    if ApartDuring(op, rest) && GcTime(op, rest) * (Range(z) * Range(op.window)) == {} {
      forall i, j | 0 <= i < j <= n ensures Range(collections[i]) * Range(collections[j]) * Range(op.window) == {} {
        if j < n {
          assert rest[i] == collections[i] && rest[j] == collections[j];
        } else {
          forall t | t in Range(collections[i]) && t in Range(op.window) ensures t !in Range(z) {
            PointsCovered(rest, t);
            assert Within(rest[i], t);
            assert t !in GcTime(op, rest) * (Range(z) * Range(op.window));
          }
        }
      }
    }
  }

  // ----- the recorder -----

  /** The per-event part: one entry for each collection that meets the operation. */
  method ListOverlaps(op: Operation, collections: seq<Interval>) returns (overlaps: seq<GcOverlap>, ghost total: nat)
    ensures Listed(overlaps, op, collections) && total == Shares(op, collections)
  {
    hide Points, Range;
    overlaps, total := [], 0;
    assert collections[..0] == [];
    for k := 0 to |collections|
      invariant Listed(overlaps, op, collections[..k]) && total == Shares(op, collections[..k])
    {
      var overlap := IntersectIntervals([collections[k]], [op.window]);
      Singles(collections[k], op.window);
      var ns := IntervalNs(overlap);
      ghost var before := overlaps;
      NonEmpty(overlap);
      if overlap != [] {
        overlaps := overlaps + [GcOverlap(k, ns)];
      }
      ListedStep(before, overlaps, op, collections, k);
      assert collections[..k + 1][..k] == collections[..k];
      total := total + Share(op, collections[k]);
    }
    assert collections[..|collections|] == collections;
  }

  lemma {:induction false} Singles(x: Interval, y: Interval)
    ensures Points([x]) == Range(x) && Points([y]) == Range(y)
  {
    PointsAppend([], x);
    PointsAppend([], y);
    assert [] + [x] == [x] && [] + [y] == [y];
  }

  lemma {:induction false} NonEmpty(xs: seq<Interval>)
    requires Merged(xs)
    ensures xs == [] <==> |Points(xs)| == 0
  {
    if xs != [] {
      PointsCovered(xs, xs[0].0);
      assert Within(xs[0], xs[0].0);
      assert xs[0].0 in Points(xs);
    }
  }

  lemma {:induction false} ListedStep(before: seq<GcOverlap>, after: seq<GcOverlap>, op: Operation,
                                      collections: seq<Interval>, k: nat)
    requires k < |collections| && Listed(before, op, collections[..k])
    requires after == if Share(op, collections[k]) > 0 then before + [GcOverlap(k, Share(op, collections[k]))] else before
    ensures Listed(after, op, collections[..k + 1])
  {
    hide Share;
    var prefix := collections[..k + 1];
    forall m | 0 <= m < |prefix| && Share(op, prefix[m]) > 0 ensures exists i :: 0 <= i < |after| && after[i].event == m {
      if m < k {
        assert collections[..k][m] == prefix[m];
        var i :| 0 <= i < |before| && before[i].event == m;
        assert after[i].event == m;
      } else {
        assert after[|before|].event == m;
      }
    }
  }

  /** `annotate` for one operation.  The two assertions are the recorder's own, and they
      hold for whatever spans and collections were recorded. */
  method AnnotateOne(op: Operation, collections: seq<Interval>, spans: seq<Span>, recordPhases: bool)
      returns (d: Diagnostics)
    requires Timed(op)
    ensures Exact(d, op, collections, spans) && d.phases.Recorded? == recordPhases
  {
    hide Points, Range, PhasesExact, Listed, TimesSoFar, WindowsOf;
    var overlaps, _ := ListOverlaps(op, collections);
    var gcIntervals := IntersectIntervals(collections, [op.window]);
    Singles(op.window, op.window);
    var gc := IntervalNs(gcIntervals);
    assert Points(gcIntervals) == GcTime(op, collections);
    GcFits(op, collections);
    assert 0 <= gc <= op.elapsed;
    if !recordPhases {
      return Diagnostics(overlaps, gc, op.elapsed - gc, NotRecorded);
    }
    var phases := RecordPhases(op, collections, spans, gcIntervals);
    d := Diagnostics(overlaps, gc, op.elapsed - gc, phases);
    TimeIsConserved(d, op, collections, spans);
    assert 0 <= phases.accounted <= op.elapsed;
  }

  lemma {:induction false} GcFits(op: Operation, collections: seq<Interval>)
    requires Timed(op)
    ensures |GcTime(op, collections)| <= op.elapsed
  {
    RangeSize(op.window);
    PartOf(GcTime(op, collections), Range(op.window));
  }

  /** The state of the loop over `PHASES` after `k` phases. */
  ghost predicate TimesSoFar(inclusive: map<Phase, int>, duringGc: map<Phase, int>, leaves: seq<Interval>,
                             op: Operation, spans: seq<Span>, gc: set<int>, k: nat)
    requires k <= |PHASES|
  {
    && (forall i :: 0 <= i < k ==>
          && PHASES[i] in inclusive && inclusive[PHASES[i]] == |PhaseTime(op, spans, PHASES[i])|
          && PHASES[i] in duringGc && duringGc[PHASES[i]] == |PhaseTime(op, spans, PHASES[i]) * gc|)
    && Points(leaves) == LeavesSoFar(op, spans, k)
  }

  ghost function LeavesSoFar(op: Operation, spans: seq<Span>, k: nat): set<int>
    requires k <= |PHASES|
  {
    if k == 0 then {}
    else LeavesSoFar(op, spans, k - 1) + (if k <= |LEAF_PHASES| then PhaseTime(op, spans, PHASES[k - 1]) else {})
  }

  lemma {:induction false} NoTimesYet(op: Operation, spans: seq<Span>, gc: set<int>)
    ensures TimesSoFar(map[], map[], [], op, spans, gc, 0)
  {
    NoPoints();
  }

  lemma {:induction false} OnePhaseMore(inclusive: map<Phase, int>, duringGc: map<Phase, int>, leaves: seq<Interval>,
                                        op: Operation, spans: seq<Span>, gc: set<int>, k: nat, intervals: seq<Interval>)
    requires k < |PHASES| && TimesSoFar(inclusive, duringGc, leaves, op, spans, gc, k)
    requires Points(intervals) == PhaseTime(op, spans, PHASES[k])
    ensures TimesSoFar(inclusive[PHASES[k] := |Points(intervals)|], duringGc[PHASES[k] := |Points(intervals) * gc|],
                       if k < |LEAF_PHASES| then leaves + intervals else leaves, op, spans, gc, k + 1)
  {
    hide Points, PhaseTime;
    PointsConcat(leaves, intervals);
  }

  method RecordPhases(op: Operation, collections: seq<Interval>, spans: seq<Span>, gcIntervals: seq<Interval>)
      returns (p: PhaseTimes)
    requires Points(gcIntervals) == GcTime(op, collections)
    ensures p.Recorded? && PhasesExact(p, op, collections, spans)
  {
    hide Points, Range, PhaseTime, GcTime, WindowsOf, TimesSoFar;
    var inclusive: map<Phase, int>, duringGc: map<Phase, int> := map[], map[];
    var leaves: seq<Interval> := [];
    NoTimesYet(op, spans, GcTime(op, collections));
    for k := 0 to |PHASES|
      invariant TimesSoFar(inclusive, duringGc, leaves, op, spans, GcTime(op, collections), k)
    {
      var intervals := IntersectIntervals(WindowsOf(spans, op.index, PHASES[k]), [op.window]);
      ClippedToOperation(op, spans, PHASES[k]);
      var ns := IntervalNs(intervals);
      var both := IntersectIntervals(intervals, gcIntervals);
      var shared := IntervalNs(both);
      OnePhaseMore(inclusive, duringGc, leaves, op, spans, GcTime(op, collections), k, intervals);
      inclusive := inclusive[PHASES[k] := ns];
      duringGc := duringGc[PHASES[k] := shared];
      if k < |LEAF_PHASES| {
        leaves := leaves + intervals;
      }
    }
    var leafUnion := IntervalNs(leaves);
    PointsConcat(leaves, gcIntervals);
    var accounted := IntervalNs(leaves + gcIntervals);
    p := Recorded(inclusive, duringGc, leafUnion, accounted, op.elapsed - accounted);
    AllPhases(inclusive, duringGc, leaves, op, spans, GcTime(op, collections));
  }

  lemma {:induction false} ClippedToOperation(op: Operation, spans: seq<Span>, phase: Phase)
    ensures Points(WindowsOf(spans, op.index, phase)) * Points([op.window]) == PhaseTime(op, spans, phase)
  {
    Singles(op.window, op.window);
  }

  lemma {:induction false} AllPhases(inclusive: map<Phase, int>, duringGc: map<Phase, int>, leaves: seq<Interval>,
                  op: Operation, spans: seq<Span>, gc: set<int>)
    requires TimesSoFar(inclusive, duringGc, leaves, op, spans, gc, 5)
    ensures forall x: Phase :: x in inclusive && inclusive[x] == |PhaseTime(op, spans, x)|
    ensures forall x: Phase :: x in duringGc && duringGc[x] == |PhaseTime(op, spans, x) * gc|
    ensures Points(leaves) == LeafTime(op, spans)
  {
    hide Points, PhaseTime;
    forall x: Phase
      ensures x in inclusive && inclusive[x] == |PhaseTime(op, spans, x)|
      ensures x in duringGc && duringGc[x] == |PhaseTime(op, spans, x) * gc|
    {
      var i := match x case Sql => 0 case Serialize => 1 case Deserialize => 2 case BackendIo => 3 case BackendApi => 4;
      assert PHASES[i] == x;
    }
    LeavesAre(op, spans);
  }

  lemma {:induction false} LeavesAre(op: Operation, spans: seq<Span>)
    ensures LeavesSoFar(op, spans, 5) == LeafTime(op, spans)
  {
    hide PhaseTime;
    assert LeavesSoFar(op, spans, 0) == {};
    assert LeavesSoFar(op, spans, 1) == PhaseTime(op, spans, Sql);
    assert LeavesSoFar(op, spans, 2) == PhaseTime(op, spans, Sql) + PhaseTime(op, spans, Serialize);
    assert LeavesSoFar(op, spans, 4)
        == LeavesSoFar(op, spans, 2) + PhaseTime(op, spans, Deserialize) + PhaseTime(op, spans, BackendIo) by {
      assert LeavesSoFar(op, spans, 3) == LeavesSoFar(op, spans, 2) + PhaseTime(op, spans, Deserialize);
    }
  }

  /** `annotate`: every operation is described exactly, and its time adds up. */
  method Annotate(ops: seq<Operation>, collections: seq<Interval>, spans: seq<Span>, recordPhases: bool)
      returns (ds: seq<Diagnostics>)
    requires forall op :: op in ops ==> Timed(op)
    ensures |ds| == |ops|
    ensures forall i :: 0 <= i < |ops| ==>
              Exact(ds[i], ops[i], collections, spans) && ds[i].phases.Recorded? == recordPhases
  {
    hide Exact;
    ds := [];
    for k := 0 to |ops|
      invariant |ds| == k
      invariant forall i :: 0 <= i < k ==>
                  Exact(ds[i], ops[i], collections, spans) && ds[i].phases.Recorded? == recordPhases
    {
      var d := AnnotateOne(ops[k], collections, spans, recordPhases);
      ds := ds + [d];
    }
  }
}
