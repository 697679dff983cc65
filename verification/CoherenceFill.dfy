/** A miss that is filled and served, and from it a complete run, from the empty system,
    in which one replayed token write serves stale rows. */
module CoherenceFill {
  import opened CacheTypes
  import opened CacheIndex
  import opened CoherenceSystem
  import opened CoherenceInvariant
  import opened CoherenceSteps
  import opened CoherenceReplay
  import opened CoherenceRepair

  // ----- an undisturbed fill -----

  /** SQL reads the tables one after the other. */
  function ReadTables(s: Sys, th: Tid, order: seq<Table>): Sys {
    if order == [] then s
    else Tick(DoReadTable(ReadTables(s, th, order[..|order| - 1]), th, order[|order| - 1]))
  }

  /** Miss, SQL. */
  function QueryPass(s: Sys, th: Tid, order: seq<Table>): Sys {
    ReadTables(Tick(DoLookup(s, th, false)), th, order)
  }

  /** Up to the second look at the tokens. */
  function MissPass(s: Sys, th: Tid, order: seq<Table>): Sys {
    Tick(DoStartPublish(QueryPass(s, th, order), th))
  }

  /** From the lookup on, the write acknowledged. */
  function StorePass(s: Sys, th: Tid, order: seq<Table>): Sys {
    Tick(DoPublishDone(ReadPass(MissPass(s, th, order), th), th, true))
  }

  /** `get_or_set` from beginning to end. */
  function FillPass(s: Sys, th: Tid, q: Query, pending: seq<Scope>, missing: seq<Scope>, order: seq<Table>): Sys {
    StorePass(RepairPass(s, th, q, true, pending, missing), th, order)
  }

  /** The tables of the query, each once. */
  ghost predicate Enumerates(order: seq<Table>, q: Query) {
    && (forall i, j :: 0 <= i < j < |order| ==> order[i] != order[j])
    && (set t | t in order) == Tables(q)
  }

  /** Rows of these tables, all read when `n` commits had been made. */
  function RowsAt(order: seq<Table>, n: nat): Rows {
    map t | t in order :: n
  }

  lemma {:induction false} ReadTablesEffect(s: Sys, th: Tid, key: Key, generation: nat, order: seq<Table>)
    requires Th(s.threads, th) == Querying(key, generation, map[])
    requires forall i, j :: 0 <= i < j < |order| ==> order[i] != order[j]
    requires forall t :: t in order ==> t in Tables(key.query)
    ensures ReadTables(s, th, order)
         == Place(s, th, Querying(key, generation, RowsAt(order, |s.commits|))).(now := s.now + |order|)
  {
    hide Tables;
    if order == [] {
      assert s.threads[th := Querying(key, generation, RowsAt(order, |s.commits|))] == s.threads;
    } else {
      hide DoReadTable;
      var init, table := order[..|order| - 1], order[|order| - 1];
      ReadTablesEffect(s, th, key, generation, init);
      var before, after := RowsAt(init, |s.commits|), RowsAt(order, |s.commits|);
      OneMoreTable(order, |s.commits|);
      var m := Place(s, th, Querying(key, generation, before)).(now := s.now + |init|);
      ReadTableEffect(m, th, key, generation, before, table);
      ReplacedTwice(s, th, Querying(key, generation, before), Querying(key, generation, after), s.now + |init|);
    }
  }

  lemma {:induction false} OneMoreTable(order: seq<Table>, n: nat)
    requires order != [] && forall i, j :: 0 <= i < j < |order| ==> order[i] != order[j]
    ensures var init, table := order[..|order| - 1], order[|order| - 1];
            table !in init && RowsAt(order, n) == RowsAt(init, n)[table := n] && forall t :: t in init ==> t in order
  {
    assert order == order[..|order| - 1] + [order[|order| - 1]];
  }

  /** `th` knows the key of `q`, and its lookup will miss. */
  ghost predicate Misses(s: Sys, th: Tid, q: Query) {
    && Scopes(q) <= s.tokens.Keys && Scopes(q) !! Pending(s.local, th.pid)
    && Th(s.threads, th) == Snapshotted(Key(q, Vec(s, q)), true) && Free(s, th)
    && q.names != {} && !LocalOf(s.local, th.pid).clearFailed
    && (Key(q, Vec(s, q)) in s.results ==> Key(q, Vec(s, q)) in LocalOf(s.local, th.pid).blocked)
  }

  lemma {:induction false} QueryEffect(s: Sys, th: Tid, q: Query, order: seq<Table>)
    requires Misses(s, th, q) && Enumerates(order, q)
    ensures QueryPass(s, th, order)
         == Place(s, th, Querying(Key(q, Vec(s, q)), LocalOf(s.local, th.pid).generation, RowsAt(order, |s.commits|)))
              .(now := s.now + 1 + |order|)
  {
    hide Scopes, Tables, Vec, DoLookup, ReadTables, Pending, RowsAt;
    var key, generation := Key(q, Vec(s, q)), LocalOf(s.local, th.pid).generation;
    var missed := Querying(key, generation, map[]);
    MissLookupEffect(s, th, key);
    var s2 := Tick(Place(s, th, missed));
    assert forall t :: t in order ==> t in (set u | u in order);
    ReadTablesEffect(s2, th, key, generation, order);
    ReplacedTwice(s, th, missed, Querying(key, generation, RowsAt(order, |s.commits|)), s.now + 1);
  }

  lemma {:induction false} MissEffect(s: Sys, th: Tid, q: Query, order: seq<Table>)
    requires Misses(s, th, q) && Enumerates(order, q)
    ensures var key := Key(q, Vec(s, q));
            MissPass(s, th, order)
            == Place(s, th, Rechecking(key, RowsAt(order, |s.commits|), StartReader(key.gens.Keys)))
                 .(lock := s.lock[th.pid := th], now := s.now + 2 + |order|)
  {
    hide QueryPass, Scopes, Tables, Vec, DoStartPublish, Pending, StartReader;
    var key, generation := Key(q, Vec(s, q)), LocalOf(s.local, th.pid).generation;
    var rows := RowsAt(order, |s.commits|);
    var read := Querying(key, generation, rows);
    QueryEffect(s, th, q, order);
    assert rows.Keys == set t | t in order;
    StartPublishEffect(Place(s, th, read).(now := s.now + 1 + |order|), th, key, generation, rows);
    ReplacedTwice(s, th, read, Rechecking(key, rows, StartReader(key.gens.Keys)), s.now + 1 + |order|);
  }

  lemma {:induction false} ReplacedTwice(s: Sys, th: Tid, t: Thread, u: Thread, n: nat)
    ensures Place(Place(s, th, t), th, u) == Place(s, th, u)
    ensures Place(Place(s, th, t).(now := n), th, u) == Place(s, th, u).(now := n)
  {
    assert s.threads[th := t][th := u] == s.threads[th := u];
  }

  lemma {:induction false} MissLookupEffect(s: Sys, th: Tid, key: Key)
    requires Th(s.threads, th) == Snapshotted(key, true) && Free(s, th)
    requires key in s.results ==> key in LocalOf(s.local, th.pid).blocked
    ensures DoLookup(s, th, false) == Place(s, th, Querying(key, LocalOf(s.local, th.pid).generation, map[]))
  {
  }

  lemma {:induction false} ReadTableEffect(s: Sys, th: Tid, key: Key, generation: nat, rows: Rows, table: Table)
    requires Th(s.threads, th) == Querying(key, generation, rows) && table in Tables(key.query) && table !in rows
    ensures DoReadTable(s, th, table) == Place(s, th, Querying(key, generation, rows[table := |s.commits|]))
  {
    hide Tables;
  }

  lemma {:induction false} StartPublishEffect(s: Sys, th: Tid, key: Key, generation: nat, rows: Rows)
    requires Th(s.threads, th) == Querying(key, generation, rows) && rows.Keys == Tables(key.query) && Free(s, th)
    requires generation == LocalOf(s.local, th.pid).generation && !LocalOf(s.local, th.pid).clearFailed
    ensures DoStartPublish(s, th)
         == Place(s, th, Rechecking(key, rows, StartReader(key.gens.Keys))).(lock := s.lock[th.pid := th])
  {
    MoveTakes(s, th, Rechecking(key, rows, StartReader(key.gens.Keys)));
    hide Move;
  }

  lemma {:induction false} PublishEffect(s: Sys, th: Tid, key: Key, rows: Rows, rd: Reader)
    requires Th(s.threads, th) == Rechecking(key, rows, rd) && rd.stage.Reading?
    requires rd.got.Keys == key.gens.Keys && Vector(rd.got) == key.gens
    ensures DoPublishDone(s, th, true)
         == Place(s, th, Idle).(lock := s.lock - {th.pid}, sets := s.sets + {(key, rows)},
                                results := s.results[key := rows],
                                local := s.local[th.pid := Publish(LocalOf(s.local, th.pid), key)])
  {
    hide Publish;
  }

  /** The state that a fill leaves behind. */
  ghost predicate Filled(s: Sys, r: Sys, th: Tid, key: Key, rows: Rows) {
    && r.commits == s.commits && r.tokens == s.tokens && r.lock == s.lock && r.threads == s.threads[th := Idle]
    && r.results == s.results[key := rows] && r.local == s.local[th.pid := Publish(LocalOf(s.local, th.pid), key)]
  }

  lemma {:induction false} StoreEffect(s: Sys, th: Tid, q: Query, order: seq<Table>)
    requires Misses(s, th, q) && Enumerates(order, q)
    ensures Filled(s, StorePass(s, th, order), th, Key(q, Vec(s, q)), RowsAt(order, |s.commits|))
  {
    hide MissPass, ReadPass, DoPublishDone, Scopes, Seen, Publish;
    var key, rows := Key(q, Vec(s, q)), RowsAt(order, |s.commits|);
    var t := Rechecking(key, rows, StartReader(key.gens.Keys));
    MissEffect(s, th, q, order);
    var s1 := MissPass(s, th, order);
    ReadPassEffect(s1, th, t);
    SeenVector(Tick(s1), s, q);
    assert key.gens.Keys == Scopes(q);
    var rd := Seen(Tick(s1), Scopes(q));
    var s2 := ReadPass(s1, th);
    assert Th(s2.threads, th) == Rechecking(key, rows, rd);
    PublishEffect(s2, th, key, rows, rd);
    PublishedFrom(s, s2, th, key, rows, t, Rechecking(key, rows, rd));
  }

  lemma {:induction false} PublishedFrom(s: Sys, m: Sys, th: Tid, key: Key, rows: Rows, t: Thread, u: Thread)
    requires Free(s, th) && m.commits == s.commits && m.tokens == s.tokens && m.lock == s.lock[th.pid := th]
    requires m.threads == s.threads[th := t][th := u] && m.results == s.results && m.local == s.local
    ensures Filled(s, Tick(Place(m, th, Idle).(lock := m.lock - {th.pid}, sets := m.sets + {(key, rows)},
                                               results := m.results[key := rows],
                                               local := m.local[th.pid := Publish(LocalOf(m.local, th.pid), key)])),
                   th, key, rows)
  {
    hide Publish;
    assert s.lock[th.pid := th] - {th.pid} == s.lock;
    assert s.threads[th := t][th := u][th := Idle] == s.threads[th := Idle];
  }

  /** The key under which the fill stores is not stored readably yet.  That needs to be said
      only if there is nothing to repair: a token that was never drawn before is in no key. */
  ghost predicate NotYetStored(s: Sys, th: Tid, q: Query, pending: seq<Scope>, missing: seq<Scope>) {
    pending == [] && missing == [] && Scopes(q) <= s.tokens.Keys && Key(q, Vec(s, q)) in s.results ==>
      Key(q, Vec(s, q)) in LocalOf(s.local, th.pid).blocked
  }

  lemma {:induction false} RepairedMisses(s: Sys, th: Tid, q: Query, pending: seq<Scope>, missing: seq<Scope>)
    requires Inv(s) && Willing(s, th, q) && Repairs(s, th, q, pending, missing)
    requires NotYetStored(s, th, q, pending, missing)
    ensures Misses(RepairPass(s, th, q, true, pending, missing), th, q)
  {
    hide RepairPass, Scopes, LocksOk, FencesOk, IndexesOk, ThreadsOk, ListOf, YoungestOk;
    RepairPassEffect(s, th, q, true, pending, missing);
    var m := RepairPass(s, th, q, true, pending, missing);
    var key := Key(q, Vec(m, q));
    if pending + missing != [] {
      var sc := (pending + missing)[0];
      assert sc in pending + missing;
      assert sc in Scopes(q) by { RepairedScopes(s, th, q, pending, missing, sc); }
      if key in s.results { StoredTokensAreOld(s, key, sc); }
    } else {
      NothingRepaired(s, m, th, q, pending, missing);
    }
  }

  lemma {:induction false} RepairedScopes(s: Sys, th: Tid, q: Query, pending: seq<Scope>, missing: seq<Scope>,
                                          sc: Scope)
    requires Repairs(s, th, q, pending, missing) && sc in pending + missing
    ensures sc in Scopes(q)
  {
    hide Scopes;
  }

  lemma {:induction false} StoredTokensAreOld(s: Sys, key: Key, sc: Scope)
    requires TokensOk(s) && StoreOk(s) && key in s.results && sc in key.gens
    ensures key.gens[sc] < s.nextToken
  {
    hide YoungestOk;
    assert Complete(s.birth, key, s.results[key]);
  }

  lemma {:induction false} NothingRepaired(s: Sys, m: Sys, th: Tid, q: Query, pending: seq<Scope>, missing: seq<Scope>)
    requires Repairs(s, th, q, pending, missing) && pending == [] && missing == []
    requires Keeps(s, m, th, Scopes(q)) && Scopes(q) <= m.tokens.Keys
    ensures Scopes(q) <= s.tokens.Keys && Vec(m, q) == Vec(s, q)
  {
    hide Scopes, Th;
    forall sc | sc in Scopes(q) ensures sc in s.tokens && m.tokens[sc] == s.tokens[sc] {
      assert sc !in Pending(s.local, th.pid) by { assert sc !in pending; }
      assert sc in s.tokens by { assert sc !in missing; }
    }
  }

  /** From any reachable state in which a query does not hit and no failed clear bypasses the
      cache, an undisturbed `get_or_set`, repeating the rotations that are pending in its
      process, creating the tokens that are missing and reading its tables in any order,
      leaves its rows servable to that process and changes nothing of any other; tokens are
      replaced only where a rotation was pending. */
  lemma {:induction false} FillIsServable(
      s: Sys, th: Tid, q: Query, pending: seq<Scope>, missing: seq<Scope>, order: seq<Table>)
    requires Inv(s) && Willing(s, th, q) && Repairs(s, th, q, pending, missing) && Enumerates(order, q)
    requires NotYetStored(s, th, q, pending, missing)
    ensures var r := FillPass(s, th, q, pending, missing, order);
            && Ready(r, th, q) && Servable(r, th, Key(q, Vec(r, q)))
            && r.results == s.results[Key(q, Vec(r, q)) := RowsAt(order, |s.commits|)] && r.commits == s.commits
            && (forall p :: p != th.pid ==> LocalOf(r.local, p) == LocalOf(s.local, p))
            && (forall u :: u != th ==> Th(r.threads, u) == Th(s.threads, u))
            && r.lock == s.lock
            && (forall sc :: sc in s.tokens && sc !in pending ==> sc in r.tokens && r.tokens[sc] == s.tokens[sc])
            && (forall sc :: sc in r.tokens && sc !in Scopes(q) ==> sc in s.tokens)
  {
    hide FillPass, StorePass, RepairPass, Scopes, Tables, Inv, Misses, NotYetStored, Repairs, Enumerates;
    RepairPassEffect(s, th, q, true, pending, missing);
    RepairedMisses(s, th, q, pending, missing);
    var m := RepairPass(s, th, q, true, pending, missing);
    StoreEffect(m, th, q, order);
    var r := StorePass(m, th, order);
    assert FillPass(s, th, q, pending, missing, order) == r by { FillIs(s, th, q, pending, missing, order); }
    FilledIsReady(m, r, th, q, RowsAt(order, |s.commits|));
    FilledKeeps(s, m, r, th, q, pending, missing, RowsAt(order, |s.commits|));
  }

  lemma {:induction false} FillIs(s: Sys, th: Tid, q: Query, pending: seq<Scope>, missing: seq<Scope>,
                                  order: seq<Table>)
    ensures FillPass(s, th, q, pending, missing, order)
         == StorePass(RepairPass(s, th, q, true, pending, missing), th, order)
  {
  }

  lemma {:induction false} FilledIsReady(m: Sys, r: Sys, th: Tid, q: Query, rows: Rows)
    requires Misses(m, th, q) && Filled(m, r, th, Key(q, Vec(m, q)), rows)
    ensures Ready(r, th, q) && Vec(r, q) == Vec(m, q) && Servable(r, th, Key(q, Vec(m, q)))
    ensures r.results == m.results[Key(q, Vec(r, q)) := rows] && r.commits == m.commits
  {
    hide Scopes;
    PublishReadable(LocalOf(m.local, th.pid), Key(q, Vec(m, q)));
    hide Publish;
  }

  lemma {:induction false} FilledKeeps(s: Sys, m: Sys, r: Sys, th: Tid, q: Query, pending: seq<Scope>,
                                       missing: seq<Scope>, rows: Rows)
    requires Repairs(s, th, q, pending, missing) && Keeps(s, m, th, Scopes(q)) && Free(m, th) && Free(s, th)
    requires Scopes(q) <= m.tokens.Keys && Filled(m, r, th, Key(q, Vec(m, q)), rows)
    ensures r.lock == s.lock && (forall p :: p != th.pid ==> LocalOf(r.local, p) == LocalOf(s.local, p))
    ensures forall u :: u != th ==> Th(r.threads, u) == Th(s.threads, u)
    ensures forall sc :: sc in s.tokens && sc !in pending ==> sc in r.tokens && r.tokens[sc] == s.tokens[sc]
    ensures forall sc :: sc in r.tokens && sc !in Scopes(q) ==> sc in s.tokens
  {
    hide Scopes, Publish;
    assert m.lock == m.lock - {th.pid} && s.lock == s.lock - {th.pid};
  }

  /** What an undisturbed `get` of `q` ends in. */
  function Served(s: Sys, th: Tid, q: Query): Thread {
    Th(HitPass(SnapshotPass(s, th, q, false), th).threads, th)
  }

  ghost predicate HitOn(t: Thread, q: Query, rows: Rows) {
    t.Hit? && t.key.query == q && t.rows == rows
  }

  /** And it is served: the next lookup of that thread is a hit on the rows just read. */
  lemma {:induction false} FillIsServed(
      s: Sys, th: Tid, q: Query, pending: seq<Scope>, missing: seq<Scope>, order: seq<Table>)
    requires Inv(s) && Willing(s, th, q) && Repairs(s, th, q, pending, missing) && Enumerates(order, q)
    requires NotYetStored(s, th, q, pending, missing)
    ensures HitOn(Served(FillPass(s, th, q, pending, missing, order), th, q), q, RowsAt(order, |s.commits|))
  {
    hide FillPass, HitPass, SnapshotPass, Inv, Repairs, NotYetStored, Willing, Enumerates, Scopes;
    FillIsServable(s, th, q, pending, missing, order);
    ServableIsServed(FillPass(s, th, q, pending, missing, order), th, q, false);
  }

  // ----- an undisturbed clear -----

  /** The store drops what it holds, one entry after the other. */
  function Flushed(s: Sys, scopes: seq<Scope>, keys: seq<Key>): Sys {
    if scopes != [] then Step(Flushed(s, scopes[..|scopes| - 1], keys), EvictToken(scopes[|scopes| - 1]))
    else if keys != [] then Step(Flushed(s, [], keys[..|keys| - 1]), EvictResult(keys[|keys| - 1]))
    else s
  }

  /** `clear`, acknowledged. */
  function ClearPass(s: Sys, th: Tid, scopes: seq<Scope>, keys: seq<Key>): Sys {
    Step(Flushed(Step(s, StartClear(th)), scopes, keys), ClearDone(th, true))
  }

  lemma {:induction false} FlushedEffect(s: Sys, scopes: seq<Scope>, keys: seq<Key>)
    requires Inv(s)
    ensures var r := Flushed(s, scopes, keys);
            && Inv(r) && r.threads == s.threads && r.local == s.local && r.lock == s.lock && r.commits == s.commits
            && r.tokens == s.tokens - (set x | x in scopes) && r.results == s.results - (set k | k in keys)
    decreases |scopes| + |keys|
  {
    hide Inv, Step;
    if scopes != [] {
      var init, last := scopes[..|scopes| - 1], scopes[|scopes| - 1];
      FlushedEffect(s, init, keys);
      StepInv(Flushed(s, init, keys), EvictToken(last));
      EvictStep(Flushed(s, init, keys), last, Key(QUERY, map[]));
      assert scopes == init + [last];
      assert s.tokens - (set x | x in init) - {last} == s.tokens - (set x | x in scopes);
    } else if keys != [] {
      var init, last := keys[..|keys| - 1], keys[|keys| - 1];
      FlushedEffect(s, [], init);
      StepInv(Flushed(s, [], init), EvictResult(last));
      EvictStep(Flushed(s, [], init), Scope("", ""), last);
      assert keys == init + [last];
      assert s.results - (set k | k in init) - {last} == s.results - (set k | k in keys);
    }
  }

  lemma {:induction false} EvictStep(s: Sys, sc: Scope, key: Key)
    ensures Step(s, EvictToken(sc)) == Tick(s.(tokens := s.tokens - {sc}))
    ensures Step(s, EvictResult(key)) == Tick(s.(results := s.results - {key}))
  {
  }

  lemma {:induction false} StartClearStep(s: Sys, th: Tid)
    requires Th(s.threads, th).Idle? && Free(s, th)
    ensures var l := LocalOf(s.local, th.pid);
            Step(s, StartClear(th))
            == Tick(s.(threads := s.threads[th := Clearing(s.tokens)], lock := s.lock[th.pid := th],
                       local := s.local[th.pid := l.(generation := l.generation + 1)]))
  {
  }

  lemma {:induction false} ClearDoneStep(s: Sys, th: Tid)
    requires Th(s.threads, th).Clearing? && s.tokens == map[]
    ensures Step(s, ClearDone(th, true))
         == Tick(s.(threads := s.threads[th := Idle], lock := s.lock - {th.pid},
                    local := s.local[th.pid := Cleared(LocalOf(s.local, th.pid))]))
  {
  }

  /** From any reachable state in which a thread may begin, bypassed or not. */
  lemma {:induction false} ClearPassEffect(s: Sys, th: Tid, scopes: seq<Scope>, keys: seq<Key>)
    requires Inv(s) && Th(s.threads, th).Idle? && Free(s, th)
    requires ListOf(scopes, s.tokens.Keys) && ListOf(keys, s.results.Keys)
    ensures var r := ClearPass(s, th, scopes, keys);
            && Inv(r) && Th(r.threads, th).Idle? && Free(r, th) && r.commits == s.commits
            && r.tokens == map[] && r.results == map[]
            && LocalOf(r.local, th.pid) == EMPTY.(generation := LocalOf(s.local, th.pid).generation + 1)
            && (forall p :: p != th.pid ==> LocalOf(r.local, p) == LocalOf(s.local, p))
  {
    hide Inv, Flushed, ListOf, Step;
    StartClearStep(s, th);
    StepInv(s, StartClear(th));
    var s1 := Step(s, StartClear(th));
    FlushedEffect(s1, scopes, keys);
    var s2 := Flushed(s1, scopes, keys);
    NothingListed(scopes, s.tokens);
    NothingListed(keys, s.results);
    ClearDoneStep(s2, th);
    StepInv(s2, ClearDone(th, true));
  }

  lemma {:induction false} NothingListed<K(!new), W>(list: seq<K>, all: map<K, W>)
    requires ListOf(list, all.Keys)
    ensures all - (set x | x in list) == map[]
  {
    assert (set x | x in list) == all.Keys;
  }

  /** Whatever failed before, once a clear was acknowledged the process uses the cache again:
      its next undisturbed `get_or_set`, which creates the tokens that the clear removed, is
      followed by a hit on the rows it has read. */
  lemma {:induction false} ClearRestores(s: Sys, th: Tid, scopes: seq<Scope>, keys: seq<Key>, q: Query,
                                         missing: seq<Scope>, order: seq<Table>)
    requires Inv(s) && Th(s.threads, th).Idle? && Free(s, th)
    requires ListOf(scopes, s.tokens.Keys) && ListOf(keys, s.results.Keys)
    requires q.names != {} && Enumerates(order, q) && ListOf(missing, Scopes(q))
    ensures HitOn(Served(FillPass(ClearPass(s, th, scopes, keys), th, q, [], missing, order), th, q), q,
                  RowsAt(order, |s.commits|))
  {
    hide FillPass, Served, HitOn, ClearPass, Inv, Enumerates, Scopes;
    ClearPassEffect(s, th, scopes, keys);
    var c := ClearPass(s, th, scopes, keys);
    assert Scopes(q) * Pending(c.local, th.pid) == {};
    assert Scopes(q) - c.tokens.Keys - Pending(c.local, th.pid) == Scopes(q);
    FillIsServed(c, th, q, [], missing, order);
  }

  lemma {:induction false} PublishReadable(l: Local, key: Key)
    ensures var p := Publish(l, key); key !in p.blocked && p.clearFailed == l.clearFailed && p.pending == l.pending
  {
  }

  // ----- passes are runs -----

  ghost predicate Reachable(s: Sys) {
    exists es: seq<Event> :: At(es, |es|) == s
  }

  lemma {:induction false} SamePrefix(es: seq<Event>, more: seq<Event>, n: nat)
    requires n <= |es|
    ensures At(es + more, n) == At(es, n)
  {
    hide Step;
    if n > 0 { SamePrefix(es, more, n - 1); }
  }

  lemma {:induction false} Moves(s: Sys, e: Event, t: Sys)
    requires Reachable(s) && Act(s, e) == t && t.now == s.now
    ensures Reachable(Tick(t))
  {
    hide Act;
    var es :| At(es, |es|) == s;
    SamePrefix(es, [e], |es|);
    assert At(es + [e], |es + [e]|) == Step(s, e);
  }

  lemma {:induction false} StartIsReachable()
    ensures Reachable(START)
  {
    var none: seq<Event> := [];
    assert At(none, |none|) == START;
  }

  lemma {:induction false} ReachableInv(s: Sys)
    requires Reachable(s)
    ensures Inv(s)
  {
    hide Inv, At;
    var es :| At(es, |es|) == s;
    RunInv(es, |es|);
  }

  lemma {:induction false} ReadPassRuns(s: Sys, th: Tid)
    requires Reachable(s)
    ensures Reachable(ReadPass(s, th))
  {
    hide Reachable;
    var s1 := DoScanDone(s, th);
    assert s1.now == s.now;
    Moves(s, ScanDone(th), s1);
    var s2 := DoReadTokens(Tick(s1), th);
    assert s2.now == Tick(s1).now;
    Moves(Tick(s1), ReadTokens(th), s2);
  }

  lemma {:induction false} RotateOneRuns(s: Sys, th: Tid, sc: Scope)
    requires Reachable(s)
    ensures Reachable(RotateOne(s, th, sc))
  {
    hide Reachable;
    var s1 := DoStartRotation(s, th, sc);
    assert s1.now == s.now;
    Moves(s, StartRotation(th, sc), s1);
    LandRuns(Tick(s1), s.nextToken);
    var s2 := Tick(DoLand(Tick(s1), s.nextToken));
    var s3 := DoRotationAcked(s2, th);
    assert s3.now == s2.now;
    Moves(s2, RotationAcked(th), s3);
  }

  lemma {:induction false} RotateEachRuns(s: Sys, th: Tid, scopes: seq<Scope>)
    requires Reachable(s)
    ensures Reachable(RotateEach(s, th, scopes))
  {
    hide Reachable, RotateOne;
    if scopes != [] {
      RotateEachRuns(s, th, scopes[..|scopes| - 1]);
      RotateOneRuns(RotateEach(s, th, scopes[..|scopes| - 1]), th, scopes[|scopes| - 1]);
    }
  }

  lemma {:induction false} ReadTokenRuns(s: Sys, th: Tid, sc: Scope)
    requires Reachable(s)
    ensures Reachable(Tick(DoReadToken(s, th, sc)))
  {
    hide Reachable, DoReadToken;
    ReadTakesNoTime(s, th, sc);
    Moves(s, ReadToken(th, sc), DoReadToken(s, th, sc));
  }

  lemma {:induction false} ReadTakesNoTime(s: Sys, th: Tid, sc: Scope)
    ensures DoReadToken(s, th, sc).now == s.now
  {
    hide Reads, ReaderScopes, Move, Send;
    var t := Th(s.threads, th);
    if HasReader(t) && t.rd.stage.Reading? && sc in ReaderScopes(t) - t.rd.got.Keys {
      if sc in s.tokens {
        MoveTakesNoTime(s, th, Reads(t, t.rd.(got := t.rd.got[sc := Obs(s.tokens[sc], s.now)])));
      } else {
        var tries := if sc in t.rd.tries then t.rd.tries[sc] else 0;
        MoveTakesNoTime(Send(s, Write(sc, true)), th,
                        Reads(t, t.rd.(stage := Creating(sc, s.nextToken), tries := t.rd.tries[sc := tries + 1])));
        assert Send(s, Write(sc, true)).now == s.now by { SendTakesNoTime(s, Write(sc, true)); }
      }
    }
  }

  lemma {:induction false} MoveTakesNoTime(s: Sys, th: Tid, t: Thread)
    ensures Move(s, th, t).now == s.now
  {
  }

  lemma {:induction false} SendTakesNoTime(s: Sys, w: Write)
    ensures Send(s, w).now == s.now
  {
  }

  lemma {:induction false} CreateOneRuns(s: Sys, th: Tid, sc: Scope)
    requires Reachable(s)
    ensures Reachable(CreateOne(s, th, sc))
  {
    hide Reachable, DoReadToken, DoLand;
    ReadTokenRuns(s, th, sc);
    var s1 := Tick(DoReadToken(s, th, sc));
    LandRuns(s1, s.nextToken);
    var s2 := Tick(DoLand(s1, s.nextToken));
    var s3 := DoCreateAnswered(s2, th);
    assert s3.now == s2.now;
    Moves(s2, CreateAnswered(th), s3);
    ReadTokenRuns(Tick(s3), th, sc);
  }

  lemma {:induction false} CreateEachRuns(s: Sys, th: Tid, scopes: seq<Scope>)
    requires Reachable(s)
    ensures Reachable(CreateEach(s, th, scopes))
  {
    hide Reachable, CreateOne;
    if scopes != [] {
      CreateEachRuns(s, th, scopes[..|scopes| - 1]);
      CreateOneRuns(CreateEach(s, th, scopes[..|scopes| - 1]), th, scopes[|scopes| - 1]);
    }
  }

  lemma {:induction false} RepairPassRuns(s: Sys, th: Tid, q: Query, fill: bool, pending: seq<Scope>,
                                          missing: seq<Scope>)
    requires Reachable(s)
    ensures Reachable(RepairPass(s, th, q, fill, pending, missing))
  {
    hide Reachable, ReadPass, RotateEach, CreateEach;
    var s1 := DoBegin(s, th, q, fill);
    assert s1.now == s.now;
    Moves(s, Begin(th, q, fill), s1);
    hide DoBegin;
    RotateEachRuns(Tick(s1), th, pending);
    ReadPassRuns(RotateEach(Tick(s1), th, pending), th);
    var s2 := ReadPass(RotateEach(Tick(s1), th, pending), th);
    CreateEachRuns(s2, th, missing);
    var s3 := CreateEach(s2, th, missing);
    var s4 := DoSnapshotDone(s3, th);
    assert s4.now == s3.now;
    Moves(s3, SnapshotDone(th), s4);
  }

  /** The fill of `FillIsServable` is a run. */
  lemma {:induction false} FillPassRuns(
      s: Sys, th: Tid, q: Query, pending: seq<Scope>, missing: seq<Scope>, order: seq<Table>)
    requires Reachable(s)
    ensures Reachable(FillPass(s, th, q, pending, missing, order))
  {
    hide Reachable, ReadPass, RepairPass, ReadTables;
    RepairPassRuns(s, th, q, true, pending, missing);
    var m := RepairPass(s, th, q, true, pending, missing);
    LookupRuns(m, th);
    ReadTablesRun(Tick(DoLookup(m, th, false)), th, order);
    hide QueryPass;
    StartPublishRuns(QueryPass(m, th, order), th);
    hide MissPass;
    ReadPassRuns(MissPass(m, th, order), th);
    PublishRuns(ReadPass(MissPass(m, th, order), th), th);
  }

  lemma {:induction false} ReadTablesRun(s: Sys, th: Tid, order: seq<Table>)
    requires Reachable(s)
    ensures Reachable(ReadTables(s, th, order))
  {
    hide Reachable, DoReadTable;
    if order != [] {
      ReadTablesRun(s, th, order[..|order| - 1]);
      ReadTableRuns(ReadTables(s, th, order[..|order| - 1]), th, order[|order| - 1]);
    }
  }

  lemma {:induction false} LookupRuns(s: Sys, th: Tid)
    requires Reachable(s)
    ensures Reachable(Tick(DoLookup(s, th, false)))
  {
    hide Reachable;
    assert DoLookup(s, th, false).now == s.now;
    Moves(s, Lookup(th, false), DoLookup(s, th, false));
  }

  lemma {:induction false} ReadTableRuns(s: Sys, th: Tid, table: Table)
    requires Reachable(s)
    ensures Reachable(Tick(DoReadTable(s, th, table)))
  {
    hide Reachable;
    assert DoReadTable(s, th, table).now == s.now;
    Moves(s, ReadTable(th, table), DoReadTable(s, th, table));
  }

  lemma {:induction false} StartPublishRuns(s: Sys, th: Tid)
    requires Reachable(s)
    ensures Reachable(Tick(DoStartPublish(s, th)))
  {
    hide Reachable, DoStartPublish;
    PublishTakesNoTime(s, th);
    Moves(s, StartPublish(th), DoStartPublish(s, th));
  }

  lemma {:induction false} PublishTakesNoTime(s: Sys, th: Tid)
    ensures DoStartPublish(s, th).now == s.now
  {
    hide Move, StartReader, Tables;
    var t := Th(s.threads, th);
    if t.Querying? { MoveTakesNoTime(s, th, Rechecking(t.key, t.rows, StartReader(t.key.gens.Keys))); }
    MoveTakesNoTime(s, th, Idle);
  }

  lemma {:induction false} PublishRuns(s: Sys, th: Tid)
    requires Reachable(s)
    ensures Reachable(Tick(DoPublishDone(s, th, true)))
  {
    hide Reachable, Publish;
    assert DoPublishDone(s, th, true).now == s.now;
    Moves(s, PublishDone(th, true), DoPublishDone(s, th, true));
  }

  lemma {:induction false} InvalidatePassRuns(s: Sys, th: Tid, model: string, names: set<string>, db: string,
                                              keys: seq<Key>)
    requires Reachable(s)
    ensures Reachable(InvalidatePass(s, th, model, names, db, keys))
  {
    hide Reachable, DoStartInvalidate, DoLand, DoInvalidateRotated, DeletePass, Tick;
    StartInvalidateRuns(s, th, model, names, db);
    var s1 := Tick(DoStartInvalidate(s, th, model, names, db));
    LandRuns(s1, s.nextToken);
    var s2 := Tick(DoLand(s1, s.nextToken));
    RotatedRuns(s2, th);
    DeletePassRuns(Tick(DoInvalidateRotated(s2, th, true)), th, keys);
  }

  lemma {:induction false} DeletePassRuns(s: Sys, th: Tid, keys: seq<Key>)
    requires Reachable(s)
    ensures Reachable(DeletePass(s, th, keys))
    decreases |keys|
  {
    hide Reachable, DoDeleteKey;
    if keys != [] {
      DeleteRuns(s, th, keys[0]);
      DeletePassRuns(Tick(DoDeleteKey(s, th, keys[0], true, true)), th, keys[1..]);
    }
  }

  lemma {:induction false} StartInvalidateRuns(s: Sys, th: Tid, model: string, names: set<string>, db: string)
    requires Reachable(s)
    ensures Reachable(Tick(DoStartInvalidate(s, th, model, names, db)))
  {
    hide Reachable;
    assert DoStartInvalidate(s, th, model, names, db).now == s.now;
    Moves(s, StartInvalidate(th, model, names, db), DoStartInvalidate(s, th, model, names, db));
  }

  lemma {:induction false} RotatedRuns(s: Sys, th: Tid)
    requires Reachable(s)
    ensures Reachable(Tick(DoInvalidateRotated(s, th, true)))
  {
    hide Reachable, Matching, Block;
    assert DoInvalidateRotated(s, th, true).now == s.now;
    Moves(s, InvalidateRotated(th, true), DoInvalidateRotated(s, th, true));
  }

  lemma {:induction false} LandRuns(s: Sys, x: Token)
    requires Reachable(s)
    ensures Reachable(Tick(DoLand(s, x)))
  {
    hide Reachable;
    assert DoLand(s, x).now == s.now;
    Moves(s, Land(x), DoLand(s, x));
  }

  lemma {:induction false} DeleteRuns(s: Sys, th: Tid, key: Key)
    requires Reachable(s)
    ensures Reachable(Tick(DoDeleteKey(s, th, key, true, true)))
  {
    hide Reachable, DoDeleteKey;
    DeleteTakesNoTime(s, th, key);
    Moves(s, DeleteKey(th, key, true, true), DoDeleteKey(s, th, key, true, true));
  }

  lemma {:induction false} DeleteTakesNoTime(s: Sys, th: Tid, key: Key)
    ensures DoDeleteKey(s, th, key, true, true).now == s.now
  {
    hide Unregister, Move;
    var t := Th(s.threads, th);
    if t.Deleting? {
      var r := SetLocal(s, th.pid, Unregister(LocalOf(s.local, th.pid), key));
      var left := t.todo - {key};
      MoveTakesNoTime(r.(results := s.results - {key}), th, if left == {} then Idle else Deleting(left));
      MoveTakesNoTime(s, th, Idle);
    }
  }

  // ----- the run -----

  const READER := Tid(0, 0)
  const QUERY := Query(0, "d", {"m"}, {"m"})
  const TABLE := Table("m", "d")

  lemma {:induction false} QueryFacts()
    ensures Scopes(QUERY) == {Scope("m", "*"), Scope("m", "d")} && Tables(QUERY) == {TABLE} && QUERY.names == {"m"}
  {
  }

  /** A process that has done nothing yet. */
  ghost predicate Untouched(s: Sys, p: nat) {
    LocalOf(s.local, p) == EMPTY && p !in s.lock && forall n: nat :: Th(s.threads, Tid(p, n)).Idle?
  }

  /** One invalidation by a process that has done nothing installs a token and leaves the
      other processes as they were. */
  lemma {:induction false} TokenAppears(s: Sys, p: nat, db: string) returns (r: Sys)
    requires Reachable(s) && Untouched(s, p)
    ensures Reachable(r) && r.results == s.results && r.tokens == s.tokens[Scope("m", db) := s.nextToken]
    ensures forall o :: o != p && Untouched(s, o) ==> Untouched(r, o)
  {
    hide Inv, InvalidatePass, Matching, Reachable;
    var u, key := Tid(p, 0), Key(QUERY, map[]);
    ReachableInv(s);
    NotFlying(s);
    assert Matching(EMPTY, {"m"}, db) == {} by { NothingIndexed(db); }
    InvalidatePassEffect(s, u, "m", {"m"}, db, [key]);
    InvalidatePassRuns(s, u, "m", {"m"}, db, [key]);
    r := InvalidatePass(s, u, "m", {"m"}, db, [key]);
  }

  lemma {:induction false} NotFlying(s: Sys)
    requires Inv(s)
    ensures s.nextToken !in s.flying
  {
    hide StoreOk, FencesOk, LocksOk, IndexesOk, ThreadsOk, YoungestOk;
  }

  lemma {:induction false} NothingIndexed(db: string)
    ensures Matching(EMPTY, {"m"}, db) == {}
  {
  }

  lemma {:induction false} ReaderCanFill(s: Sys)
    requires Untouched(s, READER.pid) && Scopes(QUERY) <= s.tokens.Keys && s.results == map[]
    ensures Willing(s, READER, QUERY) && Repairs(s, READER, QUERY, [], []) && NotYetStored(s, READER, QUERY, [], [])
  {
    hide Scopes;
    assert Th(s.threads, Tid(READER.pid, READER.n)).Idle?;
    assert Scopes(QUERY) * Pending(s.local, READER.pid) == {};
    assert Scopes(QUERY) - s.tokens.Keys - Pending(s.local, READER.pid) == {};
  }

  /** Two processes rotate the scopes of a query, a reader fills it, a table changes, a
      third process invalidates and its rotation arrives: all of this is a run from the
      empty system.  Replay the old token once, and the reader's next lookup, which checks
      every token after the rotation, returns the rows from before the change. */
  lemma {:induction false} StaleRowsAreServed() returns (s: Sys)
    ensures Scopes(QUERY) <= s.tokens.Keys && Scope("m", "d") in s.tokens
    ensures var changed := Step(s, Commit(TABLE));
            var rotated := InvalidatePass(changed, Tid(3, 0), "m", {"m"}, "d", [Key(QUERY, Vec(s, QUERY))]);
            && Reachable(rotated)
            && var replayed := Replay(rotated, s.tokens[Scope("m", "d")]);
               var h := Th(HitPass(SnapshotPass(replayed, READER, QUERY, false), READER).threads, READER);
               && h.Hit? && TABLE in h.rows && h.rows[TABLE] < |changed.commits|
               && (forall sc :: sc in h.when ==> rotated.now < h.when[sc])
  {
    hide Inv, Reachable, InvalidatePass, FillPass, HitPass, SnapshotPass, Matching, Scopes, Tables, Replay, Repairs,
         NotYetStored, Willing;
    StartIsReachable();
    QueryFacts();
    assert Untouched(START, 0) && Untouched(START, 1) && Untouched(START, 2) && Untouched(START, 3);
    var s1 := TokenAppears(START, 1, "*");
    var s2 := TokenAppears(s1, 2, "d");
    assert Untouched(s2, READER.pid) && Untouched(s2, 3);
    ReachableInv(s2);
    assert Enumerates([TABLE], QUERY) by { assert (set t | t in [TABLE]) == {TABLE}; }
    ReaderCanFill(s2);
    FillIsServable(s2, READER, QUERY, [], [], [TABLE]);
    FillPassRuns(s2, READER, QUERY, [], [], [TABLE]);
    s := FillPass(s2, READER, QUERY, [], [], [TABLE]);
    var u := Tid(3, 0);
    assert Th(s2.threads, u).Idle?;
    var key := Key(QUERY, Vec(s, QUERY));
    ReachableInv(s);
    NothingIndexed("d");
    ReplayServesStaleRows(s, READER, QUERY, u, "m", {"m"}, "d", [key], TABLE);
    Moves(s, Commit(TABLE), s.(commits := s.commits + [TABLE]));
    InvalidatePassRuns(Step(s, Commit(TABLE)), u, "m", {"m"}, "d", [key]);
  }
}
