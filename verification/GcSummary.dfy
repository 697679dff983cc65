/** The offline analyser's partition of collection time: it adds overlaps without
    merging anything, and relies on its window checks to make that right
    (scripts/summarize_serializer_gc.py:24-88 and 108-111). */
module GcSummary {
  import opened Intervals

  /** One term of `overlap`. */
  function Shared(w: Interval, x: Interval): int {
    Max(0, Min(w.1, x.1) - Max(w.0, x.0))
  }

  /** `overlap`: the plain sum, double-counting wherever windows overlap each other. */
  function Overlap(w: Interval, ws: seq<Interval>): int {
    if ws == [] then 0 else Overlap(w, ws[..|ws| - 1]) + Shared(w, ws[|ws| - 1])
  }

  /** What `check_windows` accepts: ordered windows inside the bounds, free to touch. */
  predicate InOrder(ws: seq<Interval>, bounds: Interval) {
    && (forall i :: 0 <= i < |ws| ==> bounds.0 <= ws[i].0 <= ws[i].1 <= bounds.1)
    && (forall i, j :: 0 <= i < j < |ws| ==> ws[i].1 <= ws[j].0)
  }

  method CheckWindows(ws: seq<Interval>, bounds: Interval) returns (ok: bool)
    ensures ok <==> InOrder(ws, bounds)
  {
    var previous := bounds.0;
    for k := 0 to |ws|
      invariant InOrder(ws[..k], bounds)
      invariant bounds.0 <= previous && (forall i :: 0 <= i < k ==> ws[i].1 <= previous)
      invariant previous == if k == 0 then bounds.0 else ws[k - 1].1
    {
      if !(previous <= ws[k].0 <= ws[k].1 <= bounds.1) {
        return false;
      }
      previous := ws[k].1;
    }
    assert ws[..|ws|] == ws;
    ok := true;
  }

  // ----- windows that do not overlap, in whatever order they are listed -----

  predicate Apart(x: Interval, y: Interval) {
    x.1 <= y.0 || y.1 <= x.0
  }

  /** No two of the listed windows share a point, not even two equal ones. */
  ghost predicate NoOverlap(m: multiset<Interval>) {
    forall x, y :: x in m && y in m - multiset{x} ==> Apart(x, y)
  }

  lemma {:induction false} NoOverlapWithin(m: multiset<Interval>, n: multiset<Interval>)
    requires NoOverlap(m) && n <= m
    ensures NoOverlap(n)
  {
    forall x, y | x in n && y in n - multiset{x} ensures Apart(x, y) {
      assert x in m && y in m - multiset{x};
    }
  }

  lemma {:induction false} InOrderNoOverlap(ws: seq<Interval>, bounds: Interval)
    requires InOrder(ws, bounds)
    ensures NoOverlap(multiset(ws))
  {
    if ws != [] {
      var rest, z := ws[..|ws| - 1], ws[|ws| - 1];
      InOrderNoOverlap(rest, bounds);
      assert ws == rest + [z];
      forall x | x in multiset(rest) ensures Apart(x, z) { assert x in rest; }
      hide NoOverlap, InOrder;
      OneMoreApart(multiset(rest), z);
    }
  }

  lemma {:induction false} OneMoreApart(m: multiset<Interval>, z: Interval)
    requires NoOverlap(m) && forall x :: x in m ==> Apart(x, z)
    ensures NoOverlap(m + multiset{z})
  {
    var all := m + multiset{z};
    forall x, y | x in all && y in all - multiset{x} ensures Apart(x, y) {
      if x == z { assert all - multiset{x} == m; }
    }
  }

  lemma {:induction false} SharedCounts(w: Interval, x: Interval)
    ensures Shared(w, x) == |Range(w) * Range(x)|
  {
    var both := (Max(w.0, x.0), Min(w.1, x.1));
    assert forall t :: t in Range(both) <==> t in Range(w) && t in Range(x);
    assert Range(both) == Range(w) * Range(x);
    RangeSize(both);
  }

  lemma {:induction false} LastApart(ws: seq<Interval>)
    requires ws != [] && NoOverlap(multiset(ws))
    ensures NoOverlap(multiset(ws[..|ws| - 1])) && Points(ws[..|ws| - 1]) !! Range(ws[|ws| - 1])
    ensures Points(ws) == Points(ws[..|ws| - 1]) + Range(ws[|ws| - 1])
  {
    var rest, z := ws[..|ws| - 1], ws[|ws| - 1];
    assert ws == rest + [z];
    PointsAppend(rest, z);
    NoOverlapWithin(multiset(ws), multiset(rest));
    forall t | t in Points(rest) ensures t !in Range(z) {
      PointsCovered(rest, t);
      var i :| 0 <= i < |rest| && Within(rest[i], t);
      assert rest[i] in multiset(ws) - multiset{z} by { assert multiset(ws) - multiset{z} == multiset(rest); }
      assert Apart(z, rest[i]);
    }
  }

  /** Without overlaps, the unmerged sum is the merged measure. */
  lemma {:induction false} OverlapCounts(w: Interval, ws: seq<Interval>)
    requires NoOverlap(multiset(ws))
    ensures Overlap(w, ws) == |Range(w) * Points(ws)|
  {
    if ws == [] {
      assert Range(w) * Points(ws) == {};
    } else {
      var rest, z := ws[..|ws| - 1], ws[|ws| - 1];
      LastApart(ws);
      OverlapCounts(w, rest);
      SharedCounts(w, z);
      hide Range;
      assert Range(w) * Points(ws) == Range(w) * Points(rest) + Range(w) * Range(z);
      DisjointSum(Range(w) * Points(rest), Range(w) * Range(z));
    }
  }

  /** `overlap` does not see the order of its windows, nor does anything else here. */
  lemma {:induction false} SortedWindows(ws: seq<Interval>, bounds: Interval)
    requires InOrder(Sorted(ws), bounds)
    ensures NoOverlap(multiset(ws))
  {
    SortedIsOrdered(ws);
    InOrderNoOverlap(Sorted(ws), bounds);
  }

  /** `gc_overlap_ns` as the recorder computes it, by merging and intersecting
      (benchmarks/serializer_environment.py:119-123).  The analyser later compares it
      with its own unmerged sum: whenever the window check passed, the two agree. */
  method RecordedOverlap(op: Interval, events: seq<Interval>) returns (ns: int)
    ensures ns == |Range(op) * Points(events)|
    ensures forall bounds :: InOrder(Sorted(events), bounds) ==> ns == Overlap(op, events)
  {
    var both := IntersectIntervals([op], events);
    ns := IntervalNs(both);
    PointsAppend([], op);
    assert [] + [op] == [op];
    forall bounds | InOrder(Sorted(events), bounds) ensures ns == Overlap(op, events) {
      SortedWindows(events, bounds);
      OverlapCounts(op, events);
    }
  }

  // ----- summarize_scope -----

  /** One measured operation; the two validation timestamps may be missing. */
  datatype Operation = Operation(call: Interval, elapsed: int, validationStart: Stamp, validationEnd: Stamp)

  datatype Stamp = Absent | At(ns: int)

  datatype Collection = Collection(window: Interval, generation: int, collected: int, uncollectable: int)

  datatype Summary = Summary(
    collections: nat, collected: int, uncollectable: int, duration: int, call: int, validation: int, other: int)

  datatype Problem =
    | IncompleteCallbacks | InvalidInterval | ElapsedDisagrees | IncompleteValidation
    | OutOfScope | UnknownGeneration | DoubleCounted | NegativeCount

  datatype Report = Good(generations: seq<Summary>) | Bad(problem: Problem)

  predicate Validated(op: Operation) {
    op.validationStart.At? && op.validationEnd.At?
  }

  function Validation(op: Operation): Interval
    requires Validated(op)
  {
    (op.validationStart.ns, op.validationEnd.ns)
  }

  function Calls(ops: seq<Operation>): seq<Interval> {
    if ops == [] then [] else Calls(ops[..|ops| - 1]) + [ops[|ops| - 1].call]
  }

  function Validations(ops: seq<Operation>): seq<Interval> {
    if ops == [] then [] else
      Validations(ops[..|ops| - 1]) + (if Validated(ops[|ops| - 1]) then [Validation(ops[|ops| - 1])] else [])
  }

  /** `all_windows`: each call followed by its validation. */
  function AllWindows(ops: seq<Operation>): seq<Interval> {
    if ops == [] then [] else
      AllWindows(ops[..|ops| - 1]) + [ops[|ops| - 1].call]
      + (if Validated(ops[|ops| - 1]) then [Validation(ops[|ops| - 1])] else [])
  }

  function Windows(events: seq<Collection>): seq<Interval> {
    if events == [] then [] else Windows(events[..|events| - 1]) + [events[|events| - 1].window]
  }

  /** The events of one generation, in the order of the report. */
  function OfGeneration(events: seq<Collection>, generation: int): seq<Collection> {
    if events == [] then [] else
      OfGeneration(events[..|events| - 1], generation)
      + (if events[|events| - 1].generation == generation then [events[|events| - 1]] else [])
  }

  predicate ProperOperation(op: Operation) {
    && op.call.0 <= op.call.1 && op.elapsed == op.call.1 - op.call.0
    && (op.validationStart.At? <==> op.validationEnd.At?)
    && (Validated(op) ==> op.validationStart.ns <= op.validationEnd.ns)
  }

  predicate ProperCollection(e: Collection) {
    e.window.0 <= e.window.1 && e.generation in {0, 1, 2} && e.collected >= 0 && e.uncollectable >= 0
  }

  /** Every check of the analyser but the last: that no time is counted twice. */
  predicate Proper(incomplete: nat, unmatched: nat, bounds: Interval, ops: seq<Operation>, events: seq<Collection>) {
    && incomplete == 0 && unmatched == 0 && bounds.0 <= bounds.1
    && (forall op :: op in ops ==> ProperOperation(op))
    && InOrder(AllWindows(ops), bounds)
    && (forall e :: e in events ==> ProperCollection(e))
    && InOrder(Sorted(Windows(events)), bounds)
  }

  /** What the error says is so. */
  ghost predicate Explains(problem: Problem, incomplete: nat, unmatched: nat, bounds: Interval, ops: seq<Operation>,
                           events: seq<Collection>) {
    || (problem == IncompleteCallbacks && (incomplete != 0 || unmatched != 0))
    || (problem == InvalidInterval && bounds.1 < bounds.0)
    || (problem == OutOfScope && !InOrder(AllWindows(ops), bounds))
    || WrongOperation(problem, ops) || WrongEvents(problem, bounds, events)
  }

  ghost predicate WrongOperation(problem: Problem, ops: seq<Operation>) {
    exists op :: op in ops &&
      (match problem
       case InvalidInterval => op.call.1 < op.call.0 || (Validated(op) && op.validationEnd.ns < op.validationStart.ns)
       case ElapsedDisagrees => op.elapsed != op.call.1 - op.call.0
       case IncompleteValidation => op.validationStart.At? != op.validationEnd.At?
       case _ => false)
  }

  ghost predicate WrongEvents(problem: Problem, bounds: Interval, events: seq<Collection>) {
    || (problem == OutOfScope && !InOrder(Sorted(Windows(events)), bounds))
    || exists e :: e in events &&
         (match problem
          case InvalidInterval => e.window.1 < e.window.0
          case UnknownGeneration => e.generation !in {0, 1, 2}
          case NegativeCount => e.collected < 0 || e.uncollectable < 0
          case _ => false)
  }

  lemma {:induction false} WindowsSplit(ops: seq<Operation>)
    ensures multiset(AllWindows(ops)) == multiset(Calls(ops)) + multiset(Validations(ops))
    ensures Points(AllWindows(ops)) == Points(Calls(ops)) + Points(Validations(ops))
  {
    hide Range;
    if ops != [] {
      var rest, op := ops[..|ops| - 1], ops[|ops| - 1];
      WindowsSplit(rest);
      var v := if Validated(op) then [Validation(op)] else [];
      WindowsStepSplit(AllWindows(rest), Calls(rest), Validations(rest), [op.call], v);
    }
  }

  lemma {:induction false} WindowsStepSplit(all: seq<Interval>, calls: seq<Interval>, validations: seq<Interval>,
                                            c: seq<Interval>, v: seq<Interval>)
    requires multiset(all) == multiset(calls) + multiset(validations) && Points(all) == Points(calls) + Points(validations)
    ensures multiset(all + c + v) == multiset(calls + c) + multiset(validations + v)
    ensures Points(all + c + v) == Points(calls + c) + Points(validations + v)
  {
    hide Points;
    PointsConcat(calls, c);
    PointsConcat(validations, v);
    PointsConcat(all + c, v);
    PointsConcat(all, c);
  }

  /** Calls and validations never share a point: the partition behind the summary. */
  lemma {:induction false} CallsApartFromValidations(ops: seq<Operation>, bounds: Interval)
    requires InOrder(AllWindows(ops), bounds)
    ensures NoOverlap(multiset(Calls(ops))) && NoOverlap(multiset(Validations(ops)))
    ensures Points(Calls(ops)) !! Points(Validations(ops))
  {
    hide Points, NoOverlap, InOrder;
    WindowsSplit(ops);
    InOrderNoOverlap(AllWindows(ops), bounds);
    var m, c, v := multiset(AllWindows(ops)), multiset(Calls(ops)), multiset(Validations(ops));
    NoOverlapWithin(m, c);
    NoOverlapWithin(m, v);
    ApartPoints(Calls(ops), Validations(ops));
  }

  lemma {:induction false} ApartPoints(c: seq<Interval>, v: seq<Interval>)
    requires NoOverlap(multiset(c) + multiset(v))
    ensures Points(c) !! Points(v)
  {
    hide Points;
    var m := multiset(c) + multiset(v);
    forall t | t in Points(c) ensures t !in Points(v) {
      PointsCovered(c, t);
      PointsCovered(v, t);
      var i :| 0 <= i < |c| && Within(c[i], t);
      forall j | 0 <= j < |v| ensures !Within(v[j], t) {
        assert c[i] in multiset(c) && v[j] in multiset(v);
        assert c[i] in m && v[j] in m - multiset{c[i]};
        assert Apart(c[i], v[j]);
      }
    }
  }

  /** Every collection's time splits exactly into call, validation and other time, so
      the guard against counting time twice cannot fire. */
  lemma {:induction false} PartitionExact(w: Interval, ops: seq<Operation>, bounds: Interval)
    requires InOrder(AllWindows(ops), bounds) && w.0 <= w.1
    ensures Overlap(w, Calls(ops)) == |Range(w) * Points(Calls(ops))|
    ensures Overlap(w, Validations(ops)) == |Range(w) * Points(Validations(ops))|
    ensures w.1 - w.0 - Overlap(w, Calls(ops)) - Overlap(w, Validations(ops))
         == |Range(w) - Points(Calls(ops)) - Points(Validations(ops))|
  {
    CallsApartFromValidations(ops, bounds);
    OverlapCounts(w, Calls(ops));
    OverlapCounts(w, Validations(ops));
    RangeSize(w);
    ThreeParts(Range(w), Points(Calls(ops)), Points(Validations(ops)));
  }

  lemma {:induction false} ThreeParts(w: set<int>, a: set<int>, b: set<int>)
    requires a !! b
    ensures |w| == |w * a| + |w * b| + |w - a - b|
  {
    assert w == w * a + w * b + (w - a - b);
    DisjointSum(w * a, w * b);
    DisjointSum(w * a + w * b, w - a - b);
  }

  // ----- the summary of one generation -----

  function TotalCollected(es: seq<Collection>): int {
    if es == [] then 0 else TotalCollected(es[..|es| - 1]) + es[|es| - 1].collected
  }

  function TotalUncollectable(es: seq<Collection>): int {
    if es == [] then 0 else TotalUncollectable(es[..|es| - 1]) + es[|es| - 1].uncollectable
  }

  /** `s` says of the collections `es` how much of their time lay in calls (the points
      `c`), in validations (`v`) and elsewhere. */
  ghost predicate Exact(s: Summary, es: seq<Collection>, c: set<int>, v: set<int>) {
    var p := Points(Windows(es));
    && s.collections == |es| && s.collected == TotalCollected(es) && s.uncollectable == TotalUncollectable(es)
    && s.duration == |p| && s.call == |p * c| && s.validation == |p * v| && s.other == |p - c - v|
  }

  lemma {:induction false} GenerationWithin(events: seq<Collection>, generation: int)
    ensures multiset(Windows(OfGeneration(events, generation))) <= multiset(Windows(events))
  {
    if events != [] {
      var rest, e := events[..|events| - 1], events[|events| - 1];
      GenerationWithin(rest, generation);
      var g := OfGeneration(rest, generation);
      assert (g + [e])[..|g|] == g;
      assert g + [] == g;
    }
  }

  lemma {:induction false} GenerationMembers(events: seq<Collection>, generation: int)
    ensures forall e :: e in OfGeneration(events, generation) <==> e in events && e.generation == generation
  {
    if events != [] {
      var rest, e := events[..|events| - 1], events[|events| - 1];
      GenerationMembers(rest, generation);
      assert events == rest + [e];
    }
  }

  lemma {:induction false} AddedApart(ws: seq<Interval>, w: Interval)
    requires NoOverlap(multiset(ws + [w]))
    ensures Points(ws + [w]) == Points(ws) + Range(w) && Points(ws) !! Range(w)
  {
    hide Range, Points, NoOverlap;
    assert (ws + [w])[..|ws|] == ws;
    LastApart(ws + [w]);
  }

  lemma {:induction false} PartsAdd(p: set<int>, q: set<int>, c: set<int>, v: set<int>)
    requires p !! q
    ensures |p + q| == |p| + |q| && |(p + q) * c| == |p * c| + |q * c| && |(p + q) * v| == |p * v| + |q * v|
    ensures |p + q - c - v| == |p - c - v| + |q - c - v|
  {
    assert (p + q) * c == p * c + q * c && (p + q) * v == p * v + q * v;
    assert p + q - c - v == (p - c - v) + (q - c - v);
    DisjointSum(p, q);
    DisjointSum(p * c, q * c);
    DisjointSum(p * v, q * v);
    DisjointSum(p - c - v, q - c - v);
  }

  lemma {:induction false} WindowsStep(es: seq<Collection>, k: nat)
    requires k < |es|
    ensures Windows(es[..k + 1]) == Windows(es[..k]) + [es[k].window]
    ensures TotalCollected(es[..k + 1]) == TotalCollected(es[..k]) + es[k].collected
    ensures TotalUncollectable(es[..k + 1]) == TotalUncollectable(es[..k]) + es[k].uncollectable
  {
    assert es[..k + 1][..k] == es[..k];
  }

  /** One more collection, apart from those before it, adds to every bucket. */
  lemma {:induction false} OneMoreCollection(s: Summary, es: seq<Collection>, k: nat, c: set<int>, v: set<int>)
    requires k < |es| && NoOverlap(multiset(Windows(es[..k + 1]))) && Exact(s, es[..k], c, v)
    ensures var q := Range(es[k].window);
            Exact(Summary(s.collections + 1, s.collected + es[k].collected, s.uncollectable + es[k].uncollectable,
                          s.duration + |q|, s.call + |q * c|, s.validation + |q * v|, s.other + |q - c - v|),
                  es[..k + 1], c, v)
  {
    hide Range, Points, NoOverlap, TotalCollected, TotalUncollectable, Windows;
    WindowsStep(es, k);
    AddedApart(Windows(es[..k]), es[k].window);
    PartsAdd(Points(Windows(es[..k])), Range(es[k].window), c, v);
  }

  lemma {:induction false} WindowsPrefixWithin(es: seq<Collection>, k: nat)
    requires k <= |es|
    ensures multiset(Windows(es[..k])) <= multiset(Windows(es))
    decreases |es| - k
  {
    if k == |es| {
      assert es[..k] == es;
    } else {
      WindowsPrefixWithin(es, k + 1);
      assert es[..k + 1][..k] == es[..k];
    }
  }

  /** What the loop over one generation adds for the collection `es[k]`. */
  function Counted(s: Summary, e: Collection, ops: seq<Operation>): Summary {
    var duration := e.window.1 - e.window.0;
    var call, validate := Overlap(e.window, Calls(ops)), Overlap(e.window, Validations(ops));
    Summary(s.collections + 1, s.collected + e.collected, s.uncollectable + e.uncollectable,
            s.duration + duration, s.call + call, s.validation + validate, s.other + (duration - call - validate))
  }

  lemma {:induction false} CountedIsExact(s: Summary, es: seq<Collection>, k: nat, ops: seq<Operation>,
                                          bounds: Interval)
    requires InOrder(AllWindows(ops), bounds) && NoOverlap(multiset(Windows(es)))
    requires k < |es| && es[k].window.0 <= es[k].window.1
    requires Exact(s, es[..k], Points(Calls(ops)), Points(Validations(ops)))
    ensures Exact(Counted(s, es[k], ops), es[..k + 1], Points(Calls(ops)), Points(Validations(ops)))
    ensures Overlap(es[k].window, Calls(ops)) + Overlap(es[k].window, Validations(ops)) <= es[k].window.1 - es[k].window.0
  {
    hide Points, Range, InOrder, NoOverlap, Exact, Overlap, Calls, Validations, AllWindows;
    var w := es[k].window;
    PartitionExact(w, ops, bounds);
    RangeSize(w);
    WindowsPrefixWithin(es, k + 1);
    NoOverlapWithin(multiset(Windows(es)), multiset(Windows(es[..k + 1])));
    OneMoreCollection(s, es, k, Points(Calls(ops)), Points(Validations(ops)));
  }

  /** The loop over one generation's collections. */
  method SummarizeGeneration(es: seq<Collection>, ops: seq<Operation>, ghost bounds: Interval)
      returns (r: Summary, problem: seq<Problem>)
    requires InOrder(AllWindows(ops), bounds) && NoOverlap(multiset(Windows(es)))
    requires forall e :: e in es ==> e.window.0 <= e.window.1
    ensures problem == [] <==> forall e :: e in es ==> e.collected >= 0 && e.uncollectable >= 0
    ensures problem == [] ==> Exact(r, es, Points(Calls(ops)), Points(Validations(ops)))
    ensures problem in {[], [NegativeCount]}
  {
    hide Exact, Points, Range, InOrder, NoOverlap, Overlap, Calls, Validations, AllWindows;
    r, problem := Summary(0, 0, 0, 0, 0, 0, 0), [];
    NothingYet(Points(Calls(ops)), Points(Validations(ops)));
    assert es[..0] == [];
    for k := 0 to |es|
      invariant Exact(r, es[..k], Points(Calls(ops)), Points(Validations(ops)))
      invariant forall j :: 0 <= j < k ==> es[j].collected >= 0 && es[j].uncollectable >= 0
    {
      var e := es[k];
      assert e in es;
      var duration := e.window.1 - e.window.0;
      var call := Overlap(e.window, Calls(ops));
      var validate := Overlap(e.window, Validations(ops));
      CountedIsExact(r, es, k, ops, bounds);
      if call + validate > duration { return r, [DoubleCounted]; }
      if e.collected < 0 || e.uncollectable < 0 { return r, [NegativeCount]; }
      r := Summary(r.collections + 1, r.collected + e.collected, r.uncollectable + e.uncollectable,
        r.duration + duration, r.call + call, r.validation + validate, r.other + (duration - call - validate));
    }
    assert es[..|es|] == es;
  }

  lemma {:induction false} NothingYet(c: set<int>, v: set<int>)
    ensures Exact(Summary(0, 0, 0, 0, 0, 0, 0), [], c, v)
  {
    var p := Points(Windows([]));
    assert p == {} && p * c == {} && p * v == {} && p - c - v == {};
  }

  /** `summarize_scope`.  It accepts exactly the reports that pass the other checks: the
      double-count guard rejects nothing.  For an accepted report each generation's buckets are
      the exact sizes of three disjoint parts of its collections' time. */
  method SummarizeScope(incomplete: nat, unmatched: nat, bounds: Interval, ops: seq<Operation>, events: seq<Collection>)
      returns (r: Report)
    ensures r.Good? <==> Proper(incomplete, unmatched, bounds, ops, events)
    ensures r.Bad? ==> Explains(r.problem, incomplete, unmatched, bounds, ops, events)
    ensures r.Good? ==> |r.generations| == 3 && forall g :: 0 <= g < 3 ==>
              Exact(r.generations[g], OfGeneration(events, g), Points(Calls(ops)), Points(Validations(ops)))
    ensures r.Good? ==> forall g :: 0 <= g < 3 ==>
              var s := r.generations[g]; s.duration == s.call + s.validation + s.other && s.other >= 0
  {
    hide Exact, Points, InOrder, NoOverlap, Sorted, Calls, Validations, AllWindows, Windows, OfGeneration, ProperOperation;
    if incomplete != 0 || unmatched != 0 { return Bad(IncompleteCallbacks); }
    if bounds.1 < bounds.0 { return Bad(InvalidInterval); }
    var problem := CheckOperations(ops);
    if problem != [] { return Bad(problem[0]); }
    var ok := CheckWindows(AllWindows(ops), bounds);
    if !ok { return Bad(OutOfScope); }
    problem := CheckEvents(events, bounds);
    if problem != [] { return Bad(problem[0]); }
    SortedWindows(Windows(events), bounds);
    var generations: seq<Summary> := [];
    ghost var c, v := Points(Calls(ops)), Points(Validations(ops));
    CallsApartFromValidations(ops, bounds);
    for g := 0 to 3
      invariant |generations| == g
      invariant forall h :: 0 <= h < g ==> Exact(generations[h], OfGeneration(events, h), c, v)
      invariant forall e :: e in events && e.generation < g ==> e.collected >= 0 && e.uncollectable >= 0
    {
      var selected := OfGeneration(events, g);
      GenerationWithin(events, g);
      GenerationMembers(events, g);
      NoOverlapWithin(multiset(Windows(events)), multiset(Windows(selected)));
      var s, wrong := SummarizeGeneration(selected, ops, bounds);
      if wrong != [] {
        return Bad(wrong[0]);
      }
      generations := generations + [s];
    }
    forall g | 0 <= g < 3
      ensures var s := generations[g]; s.duration == s.call + s.validation + s.other && s.other >= 0
    {
      BucketsAddUp(generations[g], OfGeneration(events, g), c, v);
    }
    r := Good(generations);
  }

  lemma {:induction false} BucketsAddUp(s: Summary, es: seq<Collection>, c: set<int>, v: set<int>)
    requires Exact(s, es, c, v) && c !! v
    ensures s.duration == s.call + s.validation + s.other && s.other >= 0
  {
    ThreeParts(Points(Windows(es)), c, v);
  }

  /** Spans, then the order of the sorted windows, then the generations. */
  method CheckEvents(events: seq<Collection>, bounds: Interval) returns (problem: seq<Problem>)
    ensures problem == [] <==>
              && (forall e :: e in events ==> e.window.0 <= e.window.1 && e.generation in {0, 1, 2})
              && InOrder(Sorted(Windows(events)), bounds)
    ensures |problem| <= 1 && (problem != [] ==> WrongEvents(problem[0], bounds, events))
  {
    hide InOrder, Sorted, Windows;
    if exists e :: e in events && e.window.1 < e.window.0 { return [InvalidInterval]; }
    var ok := CheckWindows(Sorted(Windows(events)), bounds);
    if !ok { return [OutOfScope]; }
    if exists e :: e in events && e.generation !in {0, 1, 2} { return [UnknownGeneration]; }
    problem := [];
  }

  /** The spans of all calls first, then each operation's elapsed time and validation. */
  method CheckOperations(ops: seq<Operation>) returns (problem: seq<Problem>)
    ensures problem == [] <==> forall op :: op in ops ==> ProperOperation(op)
    ensures |problem| <= 1 && (problem != [] ==> WrongOperation(problem[0], ops))
  {
    if exists op :: op in ops && op.call.1 < op.call.0 { return [InvalidInterval]; }
    for k := 0 to |ops|
      invariant forall j :: 0 <= j < k ==> ProperOperation(ops[j])
    {
      var op := ops[k];
      assert op in ops;
      if op.elapsed != op.call.1 - op.call.0 { return [ElapsedDisagrees]; }
      if op.validationStart.At? != op.validationEnd.At? { return [IncompleteValidation]; }
      if Validated(op) && op.validationEnd.ns < op.validationStart.ns { return [InvalidInterval]; }
    }
    problem := [];
  }
}
