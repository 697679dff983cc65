/** The planner's removal of relation paths that a deeper path already establishes
    (src/nova/query/planner.py:128-147).  A path is a string of field names joined by
    two underscores; establishing it establishes every prefix of it. */
module Paths {

  /** `other.startswith(path + "__")`. */
  predicate Extends(other: string, path: string) {
    path + "__" <= other
  }

  /** What a list of paths establishes: its members, and whatever they extend. */
  ghost predicate Establishes(paths: seq<string>, q: string) {
    exists p :: p in paths && (p == q || Extends(p, q))
  }

  // ----- sorted(set(..)) -----

  /** Strings compare by the first character that differs. */
  predicate Less(a: string, b: string) {
    if b == "" then false
    else if a == "" then true
    else a[0] < b[0] || (a[0] == b[0] && Less(a[1..], b[1..]))
  }

  ghost predicate Strict(xs: seq<string>) {
    forall i, j :: 0 <= i < j < |xs| ==> Less(xs[i], xs[j])
  }

  function Insert(x: string, xs: seq<string>): seq<string> {
    if xs == [] || Less(x, xs[0]) then [x] + xs
    else if x == xs[0] then xs
    else [xs[0]] + Insert(x, xs[1..])
  }

  function SortedUnique(xs: seq<string>): seq<string> {
    if xs == [] then [] else Insert(xs[0], SortedUnique(xs[1..]))
  }

  lemma {:induction false} LessIsTotal(a: string, b: string)
    ensures a == b || Less(a, b) || Less(b, a)
  {
    if a != "" && b != "" && a[0] == b[0] {
      LessIsTotal(a[1..], b[1..]);
      assert a == [a[0]] + a[1..] && b == [b[0]] + b[1..];
    }
  }

  lemma {:induction false} LessIsTransitive(a: string, b: string, c: string)
    requires Less(a, b) && Less(b, c)
    ensures Less(a, c)
  {
    if a != "" && a[0] == b[0] && b[0] == c[0] {
      LessIsTransitive(a[1..], b[1..], c[1..]);
    }
  }

  lemma {:induction false} InsertSorts(x: string, xs: seq<string>)
    requires Strict(xs)
    ensures Strict(Insert(x, xs)) && forall y :: y in Insert(x, xs) <==> y == x || y in xs
  {
    var r := Insert(x, xs);
    if xs == [] {
    } else if Less(x, xs[0]) {
      forall j | 0 <= j < |xs| ensures Less(x, xs[j]) {
        if j > 0 { LessIsTransitive(x, xs[0], xs[j]); }
      }
    } else if x != xs[0] {
      LessIsTotal(x, xs[0]);
      InsertSorts(x, xs[1..]);
      assert xs == [xs[0]] + xs[1..];
      var s := Insert(x, xs[1..]);
      forall j | 0 <= j < |s| ensures Less(xs[0], s[j]) {
        assert s[j] in s;
      }
    }
  }

  lemma {:induction false} SortedUniqueIsSet(xs: seq<string>)
    ensures Strict(SortedUnique(xs)) && forall y :: y in SortedUnique(xs) <==> y in xs
  {
    if xs != [] {
      SortedUniqueIsSet(xs[1..]);
      InsertSorts(xs[0], SortedUnique(xs[1..]));
      assert xs == [xs[0]] + xs[1..];
    }
  }

  lemma {:induction false} SortedAlready(xs: seq<string>)
    requires Strict(xs)
    ensures SortedUnique(xs) == xs
  {
    if xs != [] {
      SortedAlready(xs[1..]);
      assert xs == [xs[0]] + xs[1..];
      assert |xs| > 1 ==> Less(xs[0], xs[1]);
    }
  }

  // ----- the filter -----

  function Kept(xs: seq<string>, all: seq<string>): seq<string> {
    if xs == [] then []
    else if exists other :: other in all && xs[0] != other && Extends(other, xs[0]) then Kept(xs[1..], all)
    else [xs[0]] + Kept(xs[1..], all)
  }

  /** `_remove_redundant_paths`. */
  function RemoveRedundant(paths: seq<string>): seq<string> {
    var unique := SortedUnique(paths);
    Kept(unique, unique)
  }

  lemma {:induction false} KeptMembers(xs: seq<string>, all: seq<string>)
    ensures forall p :: p in Kept(xs, all) <==> p in xs && forall other :: other in all ==> !Extends(other, p)
  {
    if xs != [] {
      KeptMembers(xs[1..], all);
      assert xs == [xs[0]] + xs[1..];
    }
  }

  lemma {:induction false} KeptStrict(xs: seq<string>, all: seq<string>)
    requires Strict(xs)
    ensures Strict(Kept(xs, all))
  {
    if xs != [] {
      KeptStrict(xs[1..], all);
      KeptMembers(xs[1..], all);
      var k := Kept(xs[1..], all);
      forall j | 0 <= j < |k| ensures Less(xs[0], k[j]) {
        assert k[j] in xs[1..];
      }
    }
  }

  /** The output is in strict order, and holds exactly the paths that none extends. */
  lemma {:induction false} OutputIsMaximal(paths: seq<string>)
    ensures Strict(RemoveRedundant(paths))
    ensures forall p :: p in RemoveRedundant(paths) <==> p in paths && forall other :: other in paths ==> !Extends(other, p)
  {
    SortedUniqueIsSet(paths);
    KeptMembers(SortedUnique(paths), SortedUnique(paths));
    KeptStrict(SortedUnique(paths), SortedUnique(paths));
  }

  lemma {:induction false} ExtendsIsTransitive(a: string, b: string, c: string)
    requires Extends(a, b) && Extends(b, c)
    ensures Extends(a, c) && |a| > |b|
  {
  }

  function Longest(paths: seq<string>): (n: nat)
    ensures forall p :: p in paths ==> |p| <= n
  {
    if paths == [] then 0
    else
      var n := Longest(paths[1..]);
      assert paths == [paths[0]] + paths[1..];
      if |paths[0]| > n then |paths[0]| else n
  }

  /** Every input path is kept, or a kept path extends it. */
  lemma {:induction false} DeeperIsKept(paths: seq<string>, p: string)
    requires p in paths
    ensures exists k :: k in RemoveRedundant(paths) && (k == p || Extends(k, p))
    decreases Longest(paths) - |p|
  {
    OutputIsMaximal(paths);
    if p !in RemoveRedundant(paths) {
      var other :| other in paths && Extends(other, p);
      DeeperIsKept(paths, other);
      var k :| k in RemoveRedundant(paths) && (k == other || Extends(k, other));
      if k != other { ExtendsIsTransitive(k, other, p); }
    }
  }

  /** Removal preserves meaning: exactly the same paths are established. */
  lemma {:induction false} MeaningIsPreserved(paths: seq<string>, q: string)
    ensures Establishes(RemoveRedundant(paths), q) <==> Establishes(paths, q)
  {
    OutputIsMaximal(paths);
    if Establishes(paths, q) {
      var p :| p in paths && (p == q || Extends(p, q));
      DeeperIsKept(paths, p);
      var k :| k in RemoveRedundant(paths) && (k == p || Extends(k, p));
      if k != p && p != q { ExtendsIsTransitive(k, p, q); }
    }
  }

  /** No shorter list does: every kept path establishes something no other path does. */
  lemma {:induction false} NothingIsRedundant(paths: seq<string>, i: nat)
    requires i < |RemoveRedundant(paths)|
    ensures var r := RemoveRedundant(paths); !Establishes(r[..i] + r[i + 1..], r[i])
  {
    var r := RemoveRedundant(paths);
    OutputIsMaximal(paths);
    LessIsIrreflexive(r[i]);
    assert r[i] in r;
    forall p | p in r[..i] + r[i + 1..] ensures p != r[i] && !Extends(p, r[i]) {
      if p in r[..i] {
        var j :| 0 <= j < i && r[j] == p;
        assert Less(r[j], r[i]);
      } else {
        var j :| i + 1 <= j < |r| && r[j] == p;
        assert Less(r[i], r[j]);
      }
      assert p in r;
    }
  }

  lemma {:induction false} LessIsIrreflexive(a: string)
    ensures !Less(a, a)
  {
    if a != "" { LessIsIrreflexive(a[1..]); }
  }

  /** Applying it twice changes nothing. */
  lemma {:induction false} Idempotent(paths: seq<string>)
    ensures RemoveRedundant(RemoveRedundant(paths)) == RemoveRedundant(paths)
  {
    var r := RemoveRedundant(paths);
    OutputIsMaximal(paths);
    SortedAlready(r);
    NothingToDrop(r, r);
  }

  lemma {:induction false} NothingToDrop(xs: seq<string>, all: seq<string>)
    requires forall x, other :: x in xs && other in all ==> !Extends(other, x)
    ensures Kept(xs, all) == xs
  {
    if xs != [] {
      NothingToDrop(xs[1..], all);
      assert xs == [xs[0]] + xs[1..];
    }
  }

  // ----- what extending means on field names -----

  /** A Django field name: not empty, without a double underscore, not ending in one. */
  predicate FieldName(s: string) {
    && s != "" && s[|s| - 1] != '_'
    && forall i :: 0 <= i < |s| - 1 ==> !(s[i] == '_' && s[i + 1] == '_')
  }

  ghost predicate FieldNames(fs: seq<string>) {
    fs != [] && forall i :: 0 <= i < |fs| ==> FieldName(fs[i])
  }

  function Join(fs: seq<string>): string
    requires fs != []
  {
    if |fs| == 1 then fs[0] else fs[0] + "__" + Join(fs[1..])
  }

  /** On joined field names the string test is exact: it holds for a proper prefix of
      the relations, and for nothing else. */
  lemma {:induction false} ExtendsMeansPrefix(fs: seq<string>, gs: seq<string>)
    requires FieldNames(fs) && FieldNames(gs)
    ensures Extends(Join(fs), Join(gs)) <==> gs < fs
    ensures Join(fs) == Join(gs) <==> fs == gs
  {
    if gs < fs { PrefixExtends(fs, gs); }
    if Extends(Join(fs), Join(gs)) { ExtendsOnlyPrefix(fs, gs); }
    if Join(fs) == Join(gs) { JoinIsInjective(fs, gs); }
  }

  lemma {:induction false} PrefixExtends(fs: seq<string>, gs: seq<string>)
    requires gs != [] && gs < fs
    ensures Extends(Join(fs), Join(gs))
  {
    if |gs| > 1 {
      assert gs[1..] < fs[1..];
      PrefixExtends(fs[1..], gs[1..]);
      PrefixCancel(gs[0] + "__", Join(gs[1..]) + "__", Join(fs[1..]));
      assert Join(gs) + "__" == gs[0] + "__" + (Join(gs[1..]) + "__");
    }
  }

  /** What follows the first field name. */
  function Tail(fs: seq<string>): string
    requires fs != []
  {
    if |fs| == 1 then "" else "__" + Join(fs[1..])
  }

  lemma {:induction false} FirstField(fs: seq<string>)
    requires fs != []
    ensures Join(fs) == fs[0] + Tail(fs)
  {
  }

  lemma {:induction false} ExtendsOnlyPrefix(fs: seq<string>, gs: seq<string>)
    requires FieldNames(fs) && FieldNames(gs) && Extends(Join(fs), Join(gs))
    ensures gs < fs
  {
    hide FieldName;
    var f, g := fs[0], gs[0];
    FirstField(fs);
    FirstField(gs);
    var b := AfterFirst(Join(fs), g, Tail(gs));
    if |fs| == 1 {
      assert (g + b)[|g|] == b[0] && (g + b)[|g| + 1] == b[1];
      NoSeparator(f, g + b, |g|);
    } else {
      SameFirst(f, Tail(fs), g, b);
      SameRest(f, Tail(fs), b);
      if |gs| > 1 {
        hide Join;
        assert Tail(gs) + "__" == "__" + (Join(gs[1..]) + "__");
        PrefixCancel("__", Join(gs[1..]) + "__", Join(fs[1..]));
        ExtendsOnlyPrefix(fs[1..], gs[1..]);
      }
      assert fs == [f] + fs[1..] && gs == [g] + gs[1..];
    }
  }

  /** A text that extends a path continues after the path's first field. */
  lemma {:induction false} AfterFirst(s: string, g: string, tail: string) returns (b: string)
    requires g + tail + "__" <= s && (tail == "" || "__" <= tail)
    ensures s == g + b && tail + "__" <= b && "__" <= b
  {
    b := s[|g|..];
    assert g + tail + "__" == g + (tail + "__");
    assert s[..|g|] == (g + (tail + "__"))[..|g|] == g;
    PrefixCancel(g, tail + "__", b);
  }

  lemma {:induction false} JoinIsInjective(fs: seq<string>, gs: seq<string>)
    requires FieldNames(fs) && FieldNames(gs) && Join(fs) == Join(gs)
    ensures fs == gs
  {
    hide FieldName;
    var f, g := fs[0], gs[0];
    FirstField(fs);
    FirstField(gs);
    if |fs| == 1 && |gs| == 1 {
      assert fs == [f] && gs == [g];
    } else if |fs| == 1 {
      assert Join(gs)[|g|] == Tail(gs)[0] && Join(gs)[|g| + 1] == Tail(gs)[1];
      NoSeparator(f, Join(gs), |g|);
    } else if |gs| == 1 {
      assert Join(fs)[|f|] == Tail(fs)[0] && Join(fs)[|f| + 1] == Tail(fs)[1];
      NoSeparator(g, Join(fs), |f|);
    } else {
      SameFirst(f, Tail(fs), g, Tail(gs));
      PrefixCancel(f + "__", Join(fs[1..]), Join(gs[1..]));
      PrefixCancel(f + "__", Join(gs[1..]), Join(fs[1..]));
      JoinIsInjective(fs[1..], gs[1..]);
      assert fs == [f] + fs[1..] && gs == [g] + gs[1..];
    }
  }

  lemma {:induction false} PrefixCancel(p: string, a: string, b: string)
    ensures p + a <= p + b <==> a <= b
  {
    assert (p + b)[|p|..] == b;
    if p + a <= p + b {
      assert forall i :: 0 <= i < |a| ==> a[i] == (p + a)[|p| + i] == (p + b)[|p| + i] == b[i];
    }
  }

  lemma {:induction false} SameRest(f: string, a: string, b: string)
    requires f + a == f + b
    ensures a == b
  {
    assert (f + a)[|f|..] == a && (f + b)[|f|..] == b;
  }

  /** No separator lies inside a field name. */
  lemma {:induction false} NoSeparator(f: string, s: string, at: nat)
    requires FieldName(f) && at + 1 < |s| && s <= f
    ensures !(s[at] == '_' && s[at + 1] == '_')
  {
    assert f[at] == s[at] && f[at + 1] == s[at + 1];
  }

  /** The first separator ends the first field. */
  lemma {:induction false} SameFirst(f: string, a: string, g: string, b: string)
    requires FieldName(f) && FieldName(g) && "__" <= a && "__" <= b && f + a == g + b
    ensures f == g
  {
    if |f| < |g| {
      Overlapping(f, a, g, b);
    } else if |g| < |f| {
      Overlapping(g, b, f, a);
    } else {
      assert f == (f + a)[..|f|] && g == (g + b)[..|g|];
    }
  }

  lemma {:induction false} Overlapping(f: string, a: string, g: string, b: string)
    requires FieldName(g) && "__" <= a && f + a == g + b
    ensures |g| <= |f|
  {
    if |f| < |g| { SeparatorInside(f, a, g, b); }
  }

  lemma {:induction false} SeparatorInside(f: string, a: string, g: string, b: string)
    requires "__" <= a && f + a == g + b && |f| < |g|
    ensures g[|f|] == '_' && (|f| + 1 < |g| ==> g[|f| + 1] == '_')
  {
    assert (f + a)[|f|] == a[0] && (f + a)[|f| + 1] == a[1];
    assert g[|f|] == (g + b)[|f|];
    if |f| + 1 < |g| { assert g[|f| + 1] == (g + b)[|f| + 1]; }
  }
}
