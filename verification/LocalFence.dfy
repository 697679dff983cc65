/** The cache over a backend without generations, such as the in-memory one: one process,
    any number of threads, a store of its own.  Sections run under the lock and are one
    step each; SQL runs between them, one table at a time.  The fences are the local
    counter, the blocked keys and the index of everything this cache filled
    (src/nova/cache/queryset_cache.py:434-507, 535-588, 614-630). */
module LocalFence {
  import opened CacheTypes
  import opened CacheIndex

  datatype Thread =
    | Idle
    | Querying(query: Query, generation: nat, rows: Rows)
    | Hit(query: Query, rows: Rows)

  /** History: an invalidation, and how long the commit log was when it began. */
  datatype Fence = Fence(names: set<string>, db: string, at: nat)

  datatype Sys = Sys(
    commits: seq<Table>,
    results: map<Key, Rows>,
    local: Local,
    threads: map<nat, Thread>,
    fences: seq<Fence>)

  datatype Event =
    | Commit(table: Table)
    | Evict(key: Key)
    | Lookup(th: nat, query: Query, fill: bool)
    | ReadTable(th: nat, table: Table)
    | StoreRows(th: nat, stored: bool)
    | Invalidate(names: set<string>, db: string, failed: set<Key>, applied: set<Key>)
    | Clear(acked: bool, removed: set<Key>)

  const START := Sys([], map[], EMPTY, map[], [])

  function Th(s: Sys, th: nat): Thread {
    if th in s.threads then s.threads[th] else Idle
  }

  /** Without generations the key is the query alone. */
  function KeyOf(q: Query): Key {
    Key(q, map[])
  }

  function DoLookup(s: Sys, th: nat, q: Query, fill: bool): Sys {
    var key := KeyOf(q);
    if Th(s, th).Querying? || q.names == {} then s
    else if !s.local.clearFailed && key !in s.local.blocked && key in s.results then
      s.(local := Register(s.local, key, q.names), threads := s.threads[th := Hit(q, s.results[key])])
    else s.(threads := s.threads[th := if fill then Querying(q, s.local.generation, map[]) else Idle])
  }

  function DoReadTable(s: Sys, th: nat, table: Table): Sys {
    var t := Th(s, th);
    if t.Querying? && table in Tables(t.query) - t.rows.Keys then
      s.(threads := s.threads[th := Querying(t.query, t.generation, t.rows[table := |s.commits|])])
    else s
  }

  /** `set` stores, or raises without storing and the rows go to the caller unindexed. */
  function DoStoreRows(s: Sys, th: nat, stored: bool): Sys {
    var t := Th(s, th);
    if t.Querying? && t.rows.Keys == Tables(t.query) then
      var idle := s.(threads := s.threads[th := Idle]);
      if t.generation == s.local.generation && !s.local.clearFailed && stored then
        idle.(results := s.results[KeyOf(t.query) := t.rows], local := Publish(s.local, KeyOf(t.query)))
      else idle
    else s
  }

  /** Deletes of `failed` raise, having been applied or not; the others are forgotten. */
  function DoInvalidate(s: Sys, names: set<string>, db: string, failed: set<Key>, applied: set<Key>): Sys {
    if names == {} then s
    else
      var keys := Matching(s.local, names, db);
      var bumped := s.local.(generation := s.local.generation + 1);
      s.(local := Forget(Block(bumped, keys), keys - failed),
         results := s.results - (keys - failed) - (keys * applied),
         fences := s.fences + [Fence(names, db, |s.commits|)])
  }

  function DoClear(s: Sys, acked: bool, removed: set<Key>): Sys {
    var bumped := s.local.(generation := s.local.generation + 1);
    if acked then s.(local := Cleared(bumped), results := map[])
    else s.(local := bumped.(clearFailed := true), results := s.results - removed)
  }

  function Step(s: Sys, e: Event): Sys {
    match e
    case Commit(table) => s.(commits := s.commits + [table])
    case Evict(key) => s.(results := s.results - {key})
    case Lookup(th, q, fill) => DoLookup(s, th, q, fill)
    case ReadTable(th, table) => DoReadTable(s, th, table)
    case StoreRows(th, stored) => DoStoreRows(s, th, stored)
    case Invalidate(names, db, failed, applied) => DoInvalidate(s, names, db, failed, applied)
    case Clear(acked, removed) => DoClear(s, acked, removed)
  }

  function At(es: seq<Event>, i: nat): Sys
    requires i <= |es|
  {
    if i == 0 then START else Step(At(es, i - 1), es[i - 1])
  }

  // ----- the invariant -----

  predicate Covers(f: Fence, q: Query) {
    f.names * q.names != {} && (f.db == "*" || f.db == q.db)
  }

  /** Every table was read after every invalidation that covers the query. */
  ghost predicate Fresh(fences: seq<Fence>, q: Query, rows: Rows) {
    forall f, t :: f in fences && Covers(f, q) && t in rows ==> f.at <= rows[t]
  }

  /** Everything stored is indexed under all its names, and is fresh or unreadable. */
  ghost predicate EntryOk(s: Sys, key: Key) {
    && key in s.results
    && key == KeyOf(key.query) && s.results[key].Keys == Tables(key.query)
    && key.query.names != {} && key.query.names <= NamesOf(s.local, key)
    && (s.local.clearFailed || key in s.local.blocked || Fresh(s.fences, key.query, s.results[key]))
  }

  ghost predicate ThreadOk(s: Sys, t: Thread) {
    match t
    case Idle => true
    case Hit(q, rows) => rows.Keys == Tables(q)
    case Querying(q, generation, rows) =>
      && q.names != {} && rows.Keys <= Tables(q) && generation <= s.local.generation
      && (generation == s.local.generation ==> Fresh(s.fences, q, rows))
  }

  ghost predicate Inv(s: Sys) {
    && Consistent(s.local)
    && (forall k :: k in s.results ==> EntryOk(s, k))
    && (forall th :: ThreadOk(s, Th(s, th)))
    && (forall f :: f in s.fences ==> f.at <= |s.commits|)
  }

  lemma {:induction false} LookupInv(s: Sys, th: nat, q: Query, fill: bool)
    requires Inv(s)
    ensures Inv(DoLookup(s, th, q, fill))
  {
    hide Consistent, Fresh;
    var r := DoLookup(s, th, q, fill);
    assert ThreadOk(s, Th(s, th));
    if q.names != {} {
      RegisterConsistent(s.local, KeyOf(q), q.names);
      assert Fresh(s.fences, q, map[]) by { NoRowsFresh(s.fences, q); }
      forall k | k in r.results ensures EntryOk(r, k) {
        assert EntryOk(s, k);
      }
      forall u ensures ThreadOk(r, Th(r, u)) {
        assert ThreadOk(s, Th(s, u));
      }
    }
  }

  lemma {:induction false} NoRowsFresh(fences: seq<Fence>, q: Query)
    ensures Fresh(fences, q, map[])
  {
  }

  lemma {:induction false} ReadTableInv(s: Sys, th: nat, table: Table)
    requires Inv(s)
    ensures Inv(DoReadTable(s, th, table))
  {
    hide Consistent;
    var r := DoReadTable(s, th, table);
    assert ThreadOk(s, Th(s, th));
    forall u ensures ThreadOk(r, Th(r, u)) {
      assert ThreadOk(s, Th(s, u));
    }
    forall k | k in r.results ensures EntryOk(r, k) {
      assert EntryOk(s, k);
    }
  }

  lemma {:induction false} PublishIndexes(l: Local, key: Key)
    requires Consistent(l) && key.query.names != {}
    ensures var p := Publish(l, key);
            && Consistent(p) && key !in p.blocked && key.query.names <= NamesOf(p, key)
            && p.generation == l.generation && p.clearFailed == l.clearFailed
            && (forall k :: k != key ==> NamesOf(p, k) == NamesOf(l, k) && (k in p.blocked <==> k in l.blocked))
  {
    RegisterConsistent(l, key, key.query.names);
    var r, p := Register(l, key, key.query.names), Publish(l, key);
    forall n, k ensures k in Bucket(p, n) <==> n in NamesOf(p, k) {
      assert k in Bucket(r, n) <==> n in NamesOf(r, k);
    }
  }

  lemma {:induction false} StoreRowsInv(s: Sys, th: nat, stored: bool)
    requires Inv(s)
    ensures Inv(DoStoreRows(s, th, stored))
  {
    hide Consistent, Fresh, Publish;
    var r := DoStoreRows(s, th, stored);
    var t := Th(s, th);
    assert ThreadOk(s, t);
    if t.Querying? {
      PublishIndexes(s.local, KeyOf(t.query));
      forall k | k in r.results ensures EntryOk(r, k) {
        if k in s.results { assert EntryOk(s, k); }
      }
      forall u ensures ThreadOk(r, Th(r, u)) {
        assert ThreadOk(s, Th(s, u));
      }
    }
  }

  /** A key that matches an invalidation is found through the index, whatever names
      the model was invalidated under. */
  lemma {:induction false} CoveredKeysMatch(s: Sys, key: Key, names: set<string>, db: string)
    requires Inv(s) && key in s.results
    requires Covers(Fence(names, db, 0), key.query)
    ensures key in Matching(s.local, names, db)
  {
    assert EntryOk(s, key);
    var n :| n in names * key.query.names;
    assert n in NamesOf(s.local, key);
    MatchingIntro(s.local, names, db, n, key);
  }

  lemma {:induction false} ForgetKeepsNames(l: Local, keys: set<Key>, done: set<Key>)
    requires Consistent(l) && done <= keys <= l.keyModels.Keys
    ensures var f := Forget(Block(l, keys), done);
            && Consistent(f) && (forall k :: k !in done ==> NamesOf(f, k) == NamesOf(l, k))
            && (forall k :: k in l.blocked + keys - done ==> k in f.blocked)
  {
    var b := Block(l, keys);
    forall n, k ensures k in Bucket(b, n) <==> n in NamesOf(b, k) {
      assert k in Bucket(l, n) <==> n in NamesOf(l, k);
    }
    ForgetConsistent(b, done);
  }

  lemma {:induction false} InvalidateInv(s: Sys, names: set<string>, db: string, failed: set<Key>, applied: set<Key>)
    requires Inv(s)
    ensures Inv(DoInvalidate(s, names, db, failed, applied))
  {
    hide Consistent, Matching, Forget;
    var r := DoInvalidate(s, names, db, failed, applied);
    if names != {} {
      var bumped := s.local.(generation := s.local.generation + 1);
      var keys := Matching(s.local, names, db);
      IndexSame(s.local, bumped);
      MatchingIndexed(s.local, names, db);
      ForgetKeepsNames(bumped, keys, keys - failed);
      assert r.local.generation == s.local.generation + 1 && r.local.clearFailed == s.local.clearFailed by {
        ForgetKeepsFence(Block(bumped, keys), keys - failed);
      }
      forall k | k in r.results ensures EntryOk(r, k) {
        assert EntryOk(s, k);
        assert NamesOf(bumped, k) == NamesOf(s.local, k);
        if Covers(Fence(names, db, 0), k.query) {
          CoveredKeysMatch(s, k, names, db);
          assert k in r.local.blocked;
        }
      }
      forall u ensures ThreadOk(r, Th(r, u)) {
        assert ThreadOk(s, Th(s, u));
      }
    }
  }

  lemma {:induction false} ForgetKeepsFence(l: Local, keys: set<Key>)
    ensures Forget(l, keys).generation == l.generation && Forget(l, keys).clearFailed == l.clearFailed
  {
  }

  lemma {:induction false} ClearInv(s: Sys, acked: bool, removed: set<Key>)
    requires Inv(s)
    ensures Inv(DoClear(s, acked, removed))
  {
    hide Fresh;
    var r := DoClear(s, acked, removed);
    var bumped := s.local.(generation := s.local.generation + 1);
    IndexSame(s.local, bumped.(clearFailed := true));
    forall k | k in r.results ensures EntryOk(r, k) {
      assert EntryOk(s, k);
      assert NamesOf(r.local, k) == NamesOf(s.local, k);
    }
    forall u ensures ThreadOk(r, Th(r, u)) {
      assert ThreadOk(s, Th(s, u));
    }
  }

  lemma {:induction false} EnvironmentInv(s: Sys, table: Table, key: Key)
    requires Inv(s)
    ensures Inv(s.(commits := s.commits + [table])) && Inv(s.(results := s.results - {key}))
  {
    hide Consistent, Fresh;
    var r, q := s.(commits := s.commits + [table]), s.(results := s.results - {key});
    forall k | k in s.results ensures EntryOk(r, k) && (k != key ==> EntryOk(q, k)) {
      assert EntryOk(s, k);
    }
    forall u ensures ThreadOk(r, Th(r, u)) && ThreadOk(q, Th(q, u)) {
      assert ThreadOk(s, Th(s, u));
    }
  }

  lemma {:induction false} StepInv(s: Sys, e: Event)
    requires Inv(s)
    ensures Inv(Step(s, e))
  {
    hide Inv, DoLookup, DoReadTable, DoStoreRows, DoInvalidate, DoClear;
    match e {
      case Commit(table) => EnvironmentInv(s, table, KeyOf(Query(0, "", {}, {})));
      case Evict(key) => EnvironmentInv(s, Table("", ""), key);
      case Lookup(th, q, fill) => LookupInv(s, th, q, fill);
      case ReadTable(th, table) => ReadTableInv(s, th, table);
      case StoreRows(th, stored) => StoreRowsInv(s, th, stored);
      case Invalidate(names, db, failed, applied) => InvalidateInv(s, names, db, failed, applied);
      case Clear(acked, removed) => ClearInv(s, acked, removed);
    }
  }

  lemma {:induction false} RunInv(es: seq<Event>, i: nat)
    requires i <= |es|
    ensures Inv(At(es, i))
  {
    if i > 0 {
      hide Inv, Step;
      RunInv(es, i - 1);
      StepInv(At(es, i - 1), es[i - 1]);
    }
  }

  // ----- the promises -----

  lemma {:induction false} FencesStay(es: seq<Event>, i: nat, m: nat, f: Fence)
    requires i <= m <= |es| && f in At(es, i).fences
    ensures f in At(es, m).fences
    decreases m
  {
    if i < m {
      FencesStay(es, i, m - 1, f);
    }
  }

  /** Once an invalidation ran, no later lookup is a hit on rows read before it, for any
      query it covers: with deletes that failed, fills in flight when it ran, evictions,
      and clears that failed or succeeded in any order. */
  lemma {:induction false} InvalidationIsFinal(es: seq<Event>, i: nat, m: nat, th: nat, t: Table)
    requires i < m < |es| && es[i].Invalidate? && es[i].names != {}
    requires es[m].Lookup? && es[m].th == th && !Th(At(es, m), th).Querying? && Th(At(es, m + 1), th).Hit?
    requires Covers(Fence(es[i].names, es[i].db, 0), es[m].query) && t in Tables(es[m].query)
    ensures var h := Th(At(es, m + 1), th);
            h.query == es[m].query && t in h.rows && |At(es, i).commits| <= h.rows[t]
  {
    hide Consistent, Register;
    var f := Fence(es[i].names, es[i].db, |At(es, i).commits|);
    assert f in At(es, i + 1).fences by { hide Forget, Matching, Block; }
    FencesStay(es, i + 1, m, f);
    RunInv(es, m);
    var s, q := At(es, m), es[m].query;
    assert EntryOk(s, KeyOf(q));
    assert Covers(f, q);
  }

  // ----- a failed clear -----

  /** From a clear that failed until one is acknowledged, in every run: the cache is bypassed,
      so no lookup hits, and nothing is stored that was not there already. */
  lemma {:induction false} BypassedUntilCleared(es: seq<Event>, i: nat, n: nat)
    requires i < n <= |es| && es[i].Clear? && !es[i].acked
    requires forall j :: i < j < n ==> !(es[j].Clear? && es[j].acked)
    ensures At(es, n).local.clearFailed && At(es, n).results.Items <= At(es, i).results.Items
    ensures n < |es| && es[n].Lookup? && !Th(At(es, n), es[n].th).Querying? && es[n].query.names != {} ==>
              !Th(At(es, n + 1), es[n].th).Hit?
    decreases n
  {
    hide At, Publish, Register, Forget, Block, Matching;
    assert At(es, n) == Step(At(es, n - 1), es[n - 1]) && (n < |es| ==> At(es, n + 1) == Step(At(es, n), es[n])) by {
      StepAt(es, n);
    }
    if n - 1 > i {
      BypassedUntilCleared(es, i, n - 1);
      BypassStays(At(es, n - 1), es[n - 1]);
    }
  }

  lemma {:induction false} StepAt(es: seq<Event>, n: nat)
    requires 0 < n <= |es|
    ensures At(es, n) == Step(At(es, n - 1), es[n - 1]) && (n < |es| ==> At(es, n + 1) == Step(At(es, n), es[n]))
  {
  }

  lemma {:induction false} BypassStays(s: Sys, e: Event)
    requires s.local.clearFailed && !(e.Clear? && e.acked)
    ensures Step(s, e).local.clearFailed && Step(s, e).results.Items <= s.results.Items
  {
    hide Publish, Register, Matching;
  }

  // ----- the cache is used -----

  /** The state after `es`, from `s` on. */
  function From(s: Sys, es: seq<Event>): Sys {
    if es == [] then s else Step(From(s, es[..|es| - 1]), es[|es| - 1])
  }

  /** SQL of one thread, one table after the other. */
  function Reads(th: nat, order: seq<Table>): seq<Event> {
    seq(|order|, i requires 0 <= i < |order| => ReadTable(th, order[i]))
  }

  /** `get_or_set` of a query that misses, up to its store section. */
  function Fill(th: nat, q: Query, order: seq<Table>): seq<Event> {
    [Lookup(th, q, true)] + Reads(th, order)
  }

  /** The tables of the query, each once. */
  ghost predicate Enumerates(order: seq<Table>, q: Query) {
    && (forall i, j :: 0 <= i < j < |order| ==> order[i] != order[j])
    && (set t | t in order) == Tables(q)
  }

  /** Rows of these tables, all read when `n` commits had been made. */
  function RowsAt(order: seq<Table>, n: nat): Rows {
    map t | t in order :: n
  }

  lemma {:induction false} FillReads(s: Sys, th: nat, q: Query, order: seq<Table>)
    requires DoLookup(s, th, q, true) == s.(threads := s.threads[th := Querying(q, s.local.generation, map[])])
    requires forall i, j :: 0 <= i < j < |order| ==> order[i] != order[j]
    requires forall t :: t in order ==> t in Tables(q)
    ensures From(s, Fill(th, q, order))
         == s.(threads := s.threads[th := Querying(q, s.local.generation, RowsAt(order, |s.commits|))])
  {
    hide Tables, DoLookup, DoReadTable, RowsAt, Fill;
    FillSplits(th, q, order);
    NoRows(|s.commits|);
    if order == [] {
      assert From(s, []) == s && Fill(th, q, order)[..0] == [];
    } else {
      var init := order[..|order| - 1];
      OneMoreTable(order, |s.commits|);
      FillReads(s, th, q, init);
      ReadTableEffect(s, th, Querying(q, s.local.generation, RowsAt(init, |s.commits|)), order[|init|]);
    }
  }

  lemma {:induction false} FillSplits(th: nat, q: Query, order: seq<Table>)
    ensures order == [] ==> Fill(th, q, order) == [Lookup(th, q, true)]
    ensures order != [] ==> Fill(th, q, order) == Fill(th, q, order[..|order| - 1]) + [ReadTable(th, order[|order| - 1])]
  {
  }

  lemma {:induction false} NoRows(n: nat)
    ensures RowsAt([], n) == map[]
  {
  }

  lemma {:induction false} OneMoreTable(order: seq<Table>, n: nat)
    requires order != [] && forall i, j :: 0 <= i < j < |order| ==> order[i] != order[j]
    ensures var init, table := order[..|order| - 1], order[|order| - 1];
            && table !in init && table !in RowsAt(init, n) && RowsAt(order, n) == RowsAt(init, n)[table := n]
            && forall t :: t in init ==> t in order
  {
    assert order == order[..|order| - 1] + [order[|order| - 1]];
  }

  lemma {:induction false} ReadTableEffect(s: Sys, th: nat, t: Thread, table: Table)
    requires t.Querying? && table in Tables(t.query) && table !in t.rows
    ensures DoReadTable(s.(threads := s.threads[th := t]), th, table)
         == s.(threads := s.threads[th := Querying(t.query, t.generation, t.rows[table := |s.commits|])])
  {
    hide Tables;
    var u := Querying(t.query, t.generation, t.rows[table := |s.commits|]);
    assert s.threads[th := t][th := u] == s.threads[th := u];
  }

  /** Whatever was blocked, evicted or invalidated before: if a query misses and the backend
      is not bypassed, an undisturbed `get_or_set`, reading its tables in any order, stores
      the rows it read, touches no other entry, and the next lookup of any thread that is
      not in the middle of a fill is a hit on them. */
  lemma {:induction false} FillIsServed(s: Sys, th: nat, q: Query, order: seq<Table>, other: nat, fill: bool)
    requires !Th(s, th).Querying? && q.names != {} && Enumerates(order, q) && !s.local.clearFailed
    requires KeyOf(q) in s.local.blocked || KeyOf(q) !in s.results
    requires other != th ==> !Th(s, other).Querying?
    ensures var r := From(s, Fill(th, q, order) + [StoreRows(th, true)]);
            && r.results == s.results[KeyOf(q) := RowsAt(order, |s.commits|)] && r.commits == s.commits
            && Th(Step(r, Lookup(other, q, fill)), other) == Hit(q, RowsAt(order, |s.commits|))
  {
    hide Tables, Publish, DoLookup, DoStoreRows, RowsAt, Fill;
    var es, key := Fill(th, q, order), KeyOf(q);
    assert forall t :: t in order ==> t in (set u | u in order);
    assert DoLookup(s, th, q, true) == s.(threads := s.threads[th := Querying(q, s.local.generation, map[])]) by {
      MissEffect(s, th, q);
    }
    FillReads(s, th, q, order);
    var all := es + [StoreRows(th, true)];
    assert all[..|all| - 1] == es && all[|all| - 1] == StoreRows(th, true);
    assert RowsAt(order, |s.commits|).Keys == Tables(q) by { RowsOfAll(order, |s.commits|); }
    var m := From(s, es);
    StoreEffect(m, th, Querying(q, s.local.generation, RowsAt(order, |s.commits|)));
    assert key !in Publish(s.local, key).blocked && !Publish(s.local, key).clearFailed by { PublishReadable(s.local, key); }
    HitEffect(DoStoreRows(m, th, true), other, q, fill);
  }

  lemma {:induction false} MissEffect(s: Sys, th: nat, q: Query)
    requires !Th(s, th).Querying? && q.names != {} && (KeyOf(q) in s.local.blocked || KeyOf(q) !in s.results)
    ensures DoLookup(s, th, q, true) == s.(threads := s.threads[th := Querying(q, s.local.generation, map[])])
  {
  }

  lemma {:induction false} RowsOfAll(order: seq<Table>, n: nat)
    ensures RowsAt(order, n).Keys == set t | t in order
  {
  }

  lemma {:induction false} StoreEffect(s: Sys, th: nat, t: Thread)
    requires Th(s, th) == t && t.Querying? && t.rows.Keys == Tables(t.query)
    requires t.generation == s.local.generation && !s.local.clearFailed
    ensures DoStoreRows(s, th, true)
         == s.(threads := s.threads[th := Idle], results := s.results[KeyOf(t.query) := t.rows],
               local := Publish(s.local, KeyOf(t.query)))
  {
    hide Tables, Publish;
  }

  lemma {:induction false} PublishReadable(l: Local, key: Key)
    ensures key !in Publish(l, key).blocked && Publish(l, key).clearFailed == l.clearFailed
  {
  }

  lemma {:induction false} HitEffect(s: Sys, th: nat, q: Query, fill: bool)
    requires !Th(s, th).Querying? && q.names != {}
    requires !s.local.clearFailed && KeyOf(q) !in s.local.blocked && KeyOf(q) in s.results
    ensures Th(DoLookup(s, th, q, fill), th) == Hit(q, s.results[KeyOf(q)])
  {
    hide Register;
  }

  /** After an acknowledged clear, from any state at all and whatever failed before, the
      cache works again: a query misses, and is served what the fill has read. */
  lemma {:induction false} ClearRestores(s: Sys, removed: set<Key>, th: nat, q: Query, order: seq<Table>, other: nat)
    requires !Th(s, th).Querying? && q.names != {} && Enumerates(order, q) && (other != th ==> !Th(s, other).Querying?)
    ensures var c := Step(s, Clear(true, removed));
            var r := From(c, Fill(th, q, order) + [StoreRows(th, true)]);
            && c.results == map[] && r.results == map[KeyOf(q) := RowsAt(order, |s.commits|)]
            && Th(Step(r, Lookup(other, q, false)), other) == Hit(q, RowsAt(order, |s.commits|))
  {
    hide From, Fill, Enumerates;
    FillIsServed(Step(s, Clear(true, removed)), th, q, order, other, false);
  }

  /** In every run, all that this cache stored and that is still there is indexed under
      every name of its query, and blocked keys are indexed too. */
  lemma {:induction false} StoredIsIndexed(es: seq<Event>, n: nat, key: Key)
    requires n <= |es| && key in At(es, n).results
    ensures key.query.names != {}
    ensures forall name :: name in key.query.names ==> key in Bucket(At(es, n).local, name)
    ensures Consistent(At(es, n).local)
  {
    RunInv(es, n);
    var s := At(es, n);
    assert EntryOk(s, key);
    forall name | name in key.query.names ensures key in Bucket(s.local, name) {
      assert name in NamesOf(s.local, key);
    }
  }
}
