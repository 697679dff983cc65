/** Undisturbed runs of the protocol: the cache does serve what was filled, and, were a
    token write that had already arrived delivered again, it would serve it for ever. */
module CoherenceReplay {
  import opened CacheTypes
  import opened CacheIndex
  import opened CoherenceSystem
  import opened CoherenceInvariant

  /** All scopes of `q` have tokens and the process of `th` has nothing left to repair. */
  ghost predicate Ready(s: Sys, th: Tid, q: Query) {
    && Th(s.threads, th).Idle? && Free(s, th) && q.names != {}
    && Scopes(q) <= s.tokens.Keys && Scopes(q) !! Pending(s.local, th.pid)
    && !LocalOf(s.local, th.pid).clearFailed
  }

  ghost function Vec(s: Sys, q: Query): map<Scope, Token>
    requires Scopes(q) <= s.tokens.Keys
  {
    map sc | sc in Scopes(q) :: s.tokens[sc]
  }

  // ----- passes: sections of one thread that run back to back -----

  function Tick(s: Sys): Sys {
    s.(now := s.now + 1)
  }

  function ReadPass(s: Sys, th: Tid): Sys {
    Tick(DoReadTokens(Tick(DoScanDone(s, th)), th))
  }

  function SnapshotPass(s: Sys, th: Tid, q: Query, fill: bool): Sys {
    Tick(DoSnapshotDone(ReadPass(Tick(DoBegin(s, th, q, fill)), th), th))
  }

  function HitPass(s: Sys, th: Tid): Sys {
    Tick(DoCheckDone(ReadPass(Tick(DoLookup(s, th, false)), th), th))
  }

  function DeletePass(s: Sys, th: Tid, keys: seq<Key>): Sys
    decreases |keys|
  {
    if keys == [] then s else DeletePass(Tick(DoDeleteKey(s, th, keys[0], true, true)), th, keys[1..])
  }

  function RotatePass(s: Sys, th: Tid, model: string, names: set<string>, db: string): Sys {
    Tick(DoLand(Tick(DoStartInvalidate(s, th, model, names, db)), s.nextToken))
  }

  /** `invalidate_model`: its rotation arrives and is acknowledged, and so are the deletes
      of `keys`. */
  function InvalidatePass(s: Sys, th: Tid, model: string, names: set<string>, db: string, keys: seq<Key>): Sys {
    DeletePass(Tick(DoInvalidateRotated(RotatePass(s, th, model, names, db), th, true)), th, keys)
  }

  /** The keys to delete, each once; with nothing to delete, one step is left: to return. */
  ghost predicate Lists(keys: seq<Key>, all: set<Key>) {
    && keys != [] && (forall i, j :: 0 <= i < j < |keys| ==> keys[i] != keys[j])
    && (if all == {} then |keys| == 1 else (set k | k in keys) == all)
  }

  // ----- what each pass does -----

  predicate Holds(s: Sys, th: Tid) {
    th.pid in s.lock && s.lock[th.pid] == th
  }

  function Place(s: Sys, th: Tid, t: Thread): Sys {
    s.(threads := s.threads[th := t])
  }

  lemma {:induction false} MoveHeld(s: Sys, th: Tid, t: Thread)
    requires Critical(t) && Holds(s, th)
    ensures Move(s, th, t) == Place(s, th, t)
  {
  }

  lemma {:induction false} MoveTakes(s: Sys, th: Tid, t: Thread)
    requires Critical(t)
    ensures Move(s, th, t) == Place(s, th, t).(lock := s.lock[th.pid := th])
  {
  }

  lemma {:induction false} MoveReleases(s: Sys, th: Tid, t: Thread)
    requires !Critical(t) && Critical(Th(s.threads, th))
    ensures Move(s, th, t) == Place(s, th, t).(lock := s.lock - {th.pid})
  {
  }

  function Seen(s: Sys, scopes: set<Scope>): Reader {
    Reader(Reading, map[], map sc | sc in scopes && sc in s.tokens :: Obs(s.tokens[sc], s.now))
  }

  lemma {:induction false} ScanEffect(s: Sys, th: Tid, t: Thread)
    requires t == Th(s.threads, th) && HasReader(t) && t.rd == StartReader(ReaderScopes(t))
    requires ReaderScopes(t) !! Pending(s.local, th.pid) && Holds(s, th)
    ensures DoScanDone(s, th) == Place(s, th, Reads(t, Reader(Reading, map[], map[])))
  {
    MoveHeld(s, th, Reads(t, Reader(Reading, map[], map[])));
    hide Move;
  }

  lemma {:induction false} TokensEffect(s: Sys, th: Tid, t: Thread)
    requires t == Th(s.threads, th) && HasReader(t) && t.rd == Reader(Reading, map[], map[]) && Holds(s, th)
    ensures DoReadTokens(s, th) == Place(s, th, Reads(t, Seen(s, ReaderScopes(t))))
  {
    MoveHeld(s, th, Reads(t, Seen(s, ReaderScopes(t))));
    hide Move;
  }

  lemma {:induction false} ReadsKeeps(t: Thread, rd: Reader, next: Reader)
    requires HasReader(t)
    ensures var u := Reads(t, rd);
            && HasReader(u) && Critical(u) && ReaderScopes(u) == ReaderScopes(t) && u.rd == rd
            && Reads(u, next) == Reads(t, next)
  {
  }

  lemma {:induction false} ReadPassEffect(s: Sys, th: Tid, t: Thread)
    requires t == Th(s.threads, th) && HasReader(t) && t.rd == StartReader(ReaderScopes(t))
    requires ReaderScopes(t) !! Pending(s.local, th.pid) && Holds(s, th)
    ensures ReadPass(s, th) == Tick(Place(Tick(s), th, Reads(t, Seen(Tick(s), ReaderScopes(t)))))
  {
    hide Move, DoScanDone, DoReadTokens, Seen, StartReader, Reads, HasReader, ReaderScopes, Critical, Pending, LocalOf;
    var u := Reads(t, Reader(Reading, map[], map[]));
    var v := Reads(t, Seen(Tick(s), ReaderScopes(t)));
    ReadsKeeps(t, Reader(Reading, map[], map[]), Seen(Tick(s), ReaderScopes(t)));
    ScanEffect(s, th, t);
    var s1 := Tick(Place(s, th, u));
    SeenSame(s1, Tick(s), ReaderScopes(t));
    TokensEffect(s1, th, u);
    assert s1.threads[th := v] == s.threads[th := v];
  }

  lemma {:induction false} SeenSame(s: Sys, r: Sys, scopes: set<Scope>)
    requires s.tokens == r.tokens && s.now == r.now
    ensures Seen(s, scopes) == Seen(r, scopes)
  {
  }

  lemma {:induction false} BeginEffect(s: Sys, th: Tid, q: Query, fill: bool)
    requires Ready(s, th, q)
    ensures DoBegin(s, th, q, fill)
         == Place(s, th, Snapshotting(q, fill, StartReader(Scopes(q)))).(lock := s.lock[th.pid := th])
  {
    MoveTakes(s, th, Snapshotting(q, fill, StartReader(Scopes(q))));
    hide Move;
  }

  lemma {:induction false} SnapshotDoneEffect(s: Sys, th: Tid, q: Query, fill: bool, rd: Reader)
    requires Th(s.threads, th) == Snapshotting(q, fill, rd) && rd.stage.Reading? && rd.got.Keys == Scopes(q)
    ensures DoSnapshotDone(s, th)
         == Place(s, th, Snapshotted(Key(q, Vector(rd.got)), fill)).(lock := s.lock - {th.pid})
  {
    MoveReleases(s, th, Snapshotted(Key(q, Vector(rd.got)), fill));
    hide Move, Scopes;
  }

  lemma {:induction false} SnapshotReads(s: Sys, th: Tid, q: Query, fill: bool)
    requires Ready(s, th, q)
    ensures ReadPass(Tick(DoBegin(s, th, q, fill)), th)
         == Place(s, th, Snapshotting(q, fill, Seen(Tick(Tick(s)), Scopes(q)))).(lock := s.lock[th.pid := th], now := s.now + 3)
  {
    hide Move, DoBegin, ReadPass, Scopes, Seen;
    var t := Snapshotting(q, fill, StartReader(Scopes(q)));
    BeginEffect(s, th, q, fill);
    var s1 := Tick(Place(s, th, t).(lock := s.lock[th.pid := th]));
    ReadPassEffect(s1, th, t);
    SeenSame(Tick(s1), Tick(Tick(s)), Scopes(q));
    PlacedTwice(s, th, t, Snapshotting(q, fill, Seen(Tick(s1), Scopes(q))));
    hide Place, Tick;
  }

  lemma {:induction false} PlacedTwice(s: Sys, th: Tid, t: Thread, u: Thread)
    ensures Tick(Place(Tick(Tick(Place(s, th, t).(lock := s.lock[th.pid := th]))), th, u))
         == Place(s, th, u).(lock := s.lock[th.pid := th], now := s.now + 3)
  {
    assert s.threads[th := t][th := u] == s.threads[th := u];
  }

  /** A snapshot with nothing in between reads the current token of every scope. */
  lemma {:induction false} SnapshotPassEffect(s: Sys, th: Tid, q: Query, fill: bool)
    requires Ready(s, th, q)
    ensures SnapshotPass(s, th, q, fill)
         == Place(s, th, Snapshotted(Key(q, Vec(s, q)), fill)).(now := s.now + 4)
  {
    hide Move, DoBegin, DoSnapshotDone, ReadPass, Scopes, Seen, Vec, Vector, Pending, LocalOf;
    SnapshotReads(s, th, q, fill);
    var rd := Seen(Tick(Tick(s)), Scopes(q));
    SeenVector(Tick(Tick(s)), s, q);
    var u := Snapshotting(q, fill, rd);
    var s3 := Place(s, th, u).(lock := s.lock[th.pid := th], now := s.now + 3);
    SnapshotDoneEffect(s3, th, q, fill, rd);
    assert s.lock[th.pid := th] - {th.pid} == s.lock;
    var v := Snapshotted(Key(q, Vec(s, q)), fill);
    assert s.threads[th := u][th := v] == s.threads[th := v];
  }

  lemma {:induction false} SeenVector(s: Sys, r: Sys, q: Query)
    requires Scopes(q) <= r.tokens.Keys && s.tokens == r.tokens
    ensures Vector(Seen(s, Scopes(q)).got) == Vec(r, q) && Seen(s, Scopes(q)).got.Keys == Scopes(q)
    ensures Seen(s, Scopes(q)).stage.Reading?
  {
    hide Scopes;
  }

  /** `key` would be served to `th` now: stored, not blocked, under current tokens. */
  ghost predicate Servable(s: Sys, th: Tid, key: Key) {
    && key in s.results && key !in LocalOf(s.local, th.pid).blocked && !LocalOf(s.local, th.pid).clearFailed
    && key.gens.Keys !! Pending(s.local, th.pid)
    && (forall sc :: sc in key.gens ==> Current(s, sc, key.gens[sc]))
  }

  lemma {:induction false} LookupEffect(s: Sys, th: Tid, key: Key, fill: bool)
    requires Th(s.threads, th) == Snapshotted(key, fill) && Free(s, th) && Servable(s, th, key)
    ensures DoLookup(s, th, false)
         == Place(s, th, Checking(key, fill, s.results[key], StartReader(key.gens.Keys))).(lock := s.lock[th.pid := th])
  {
    MoveTakes(s, th, Checking(key, fill, s.results[key], StartReader(key.gens.Keys)));
    hide Move;
  }

  lemma {:induction false} CheckDoneEffect(s: Sys, th: Tid, key: Key, fill: bool, rows: Rows, rd: Reader)
    requires Th(s.threads, th) == Checking(key, fill, rows, rd) && rd.stage.Reading?
    requires rd.got.Keys == key.gens.Keys && Vector(rd.got) == key.gens
    ensures Th(DoCheckDone(s, th).threads, th) == Hit(key, rows, map sc | sc in rd.got :: rd.got[sc].when)
  {
    hide Register;
  }

  /** A lookup of a servable key with nothing in between is a hit on what is stored. */
  lemma {:induction false} HitPassEffect(s: Sys, th: Tid, key: Key, fill: bool)
    requires Th(s.threads, th) == Snapshotted(key, fill) && Free(s, th) && Servable(s, th, key)
    ensures var h := Th(HitPass(s, th).threads, th);
            h.Hit? && h.key == key && h.rows == s.results[key] && forall sc :: sc in h.when ==> s.now < h.when[sc]
  {
    hide Move, DoLookup, DoCheckDone, ReadPass;
    var t := Checking(key, fill, s.results[key], StartReader(key.gens.Keys));
    LookupEffect(s, th, key, fill);
    var s1 := Tick(Place(s, th, t).(lock := s.lock[th.pid := th]));
    ReadPassEffect(s1, th, t);
    var rd := Seen(Tick(s1), key.gens.Keys);
    var s3 := ReadPass(s1, th);
    assert Th(s3.threads, th) == Checking(key, fill, s.results[key], rd);
    assert Vector(rd.got) == key.gens;
    CheckDoneEffect(s3, th, key, fill, s.results[key], rd);
  }

  /** With nothing in between, a reader whose query is servable gets a hit. */
  lemma {:induction false} ServableIsServed(s: Sys, th: Tid, q: Query, fill: bool)
    requires Ready(s, th, q) && Servable(s, th, Key(q, Vec(s, q)))
    ensures var h := Th(HitPass(SnapshotPass(s, th, q, fill), th).threads, th);
            h.Hit? && h.key == Key(q, Vec(s, q)) && h.rows == s.results[Key(q, Vec(s, q))]
            && forall sc :: sc in h.when ==> s.now < h.when[sc]
  {
    hide HitPass, SnapshotPass, Scopes;
    SnapshotPassEffect(s, th, q, fill);
    HitPassEffect(SnapshotPass(s, th, q, fill), th, Key(q, Vec(s, q)), fill);
  }

  // ----- a replayed token write -----

  /** Nothing of the other threads and processes changes; `l` is the new bookkeeping. */
  ghost predicate OnlyMine(s: Sys, r: Sys, u: Tid, l: Local, t: Thread) {
    && r.commits == s.commits && r.results == s.results
    && r.local == s.local[u.pid := l] && r.threads == s.threads[u := t]
    && r.lock == (if Critical(t) then s.lock[u.pid := u] else s.lock - {u.pid})
  }

  lemma {:induction false} StartInvalidateEffect(s: Sys, u: Tid, model: string, names: set<string>, db: string)
    requires Th(s.threads, u).Idle? && Free(s, u) && names != {}
    ensures var r, l, sc := DoStartInvalidate(s, u, model, names, db), LocalOf(s.local, u.pid), Scope(model, db);
            && OnlyMine(s, r, u, l.(generation := l.generation + 1, pending := l.pending + {sc}),
                        Invalidating(sc, s.nextToken, names, db))
            && r.flying == s.flying[s.nextToken := Write(sc, false)] && r.tokens == s.tokens && r.birth == s.birth
            && r.now == s.now
  {
  }

  lemma {:induction false} RotatedEffect(s: Sys, u: Tid, sc: Scope, x: Token, names: set<string>, db: string)
    requires Th(s.threads, u) == Invalidating(sc, x, names, db) && x in s.birth
    ensures var r, l, all := DoInvalidateRotated(s, u, true), LocalOf(s.local, u.pid),
                             Matching(LocalOf(s.local, u.pid), names, db);
            && OnlyMine(s, r, u, Block(l.(pending := l.pending - {sc}), all), Deleting(all))
            && r.tokens == s.tokens && r.birth == s.birth && r.now == s.now
  {
    hide Matching, Block;
    var l := LocalOf(s.local, u.pid);
    MatchingSame(l, l.(pending := l.pending - {sc}), names, db);
  }

  /** Only the bookkeeping and the thread of `u` changed, which holds or leaves the lock. */
  ghost predicate OthersSame(s: Sys, r: Sys, u: Tid) {
    && r.commits == s.commits && r.tokens == s.tokens && r.birth == s.birth && r.lock - {u.pid} == s.lock - {u.pid}
    && (forall p :: p != u.pid ==> LocalOf(r.local, p) == LocalOf(s.local, p))
    && (forall th :: th != u ==> Th(r.threads, th) == Th(s.threads, th))
  }

  lemma {:induction false} DeleteEffect(s: Sys, u: Tid, todo: set<Key>, key: Key)
    requires Th(s.threads, u) == Deleting(todo) && (key in todo || todo == {})
    ensures var r := DoDeleteKey(s, u, key, true, true);
            && OthersSame(s, r, u) && r.now == s.now && r.results == s.results - (if key in todo then {key} else {})
            && Th(r.threads, u) == (if todo - {key} == {} then Idle else Deleting(todo - {key}))
            && (todo - {key} == {} ==> u.pid !in r.lock)
  {
    hide Unregister;
  }

  lemma {:induction false} DeletePassEffect(s: Sys, u: Tid, todo: set<Key>, keys: seq<Key>)
    requires Th(s.threads, u) == Deleting(todo) && Lists(keys, todo)
    ensures var r := DeletePass(s, u, keys);
            OthersSame(s, r, u) && r.now == s.now + |keys| && r.results == s.results - todo
            && Th(r.threads, u).Idle? && u.pid !in r.lock
    decreases |keys|
  {
    hide DoDeleteKey, OthersSame;
    var key, rest := keys[0], keys[1..];
    assert todo != {} ==> key in todo by { assert key in (set k | k in keys); }
    DeleteEffect(s, u, todo, key);
    var s1 := Tick(DoDeleteKey(s, u, key, true, true));
    assert OthersSame(s, s1, u) by { SameAfterTick(s, DoDeleteKey(s, u, key, true, true), u); }
    if todo - {key} == {} {
      assert rest == [] by { LastOfList(keys, todo); }
      assert todo == {} || todo == {key};
    } else {
      RestOfList(keys, todo);
      DeletePassEffect(s1, u, todo - {key}, rest);
      SameTransitive(s, s1, DeletePass(s1, u, rest), u);
      assert s.results - {key} - (todo - {key}) == s.results - todo;
    }
  }

  lemma {:induction false} SameAfterTick(s: Sys, r: Sys, u: Tid)
    requires OthersSame(s, r, u)
    ensures OthersSame(s, Tick(r), u)
  {
  }

  lemma {:induction false} SameTransitive(s: Sys, m: Sys, r: Sys, u: Tid)
    requires OthersSame(s, m, u) && OthersSame(m, r, u)
    ensures OthersSame(s, r, u)
  {
  }

  lemma {:induction false} LastOfList(keys: seq<Key>, todo: set<Key>)
    requires Lists(keys, todo) && todo - {keys[0]} == {}
    ensures keys[1..] == []
  {
    if todo != {} {
      forall j: nat | j < |keys| ensures keys[j] == keys[0] {
        assert keys[j] in (set k | k in keys);
        assert keys[j] !in todo - {keys[0]};
      }
      var last := |keys| - 1;
      assert keys[last] == keys[0];
    }
  }

  lemma {:induction false} RestOfList(keys: seq<Key>, todo: set<Key>)
    requires Lists(keys, todo) && todo - {keys[0]} != {}
    ensures Lists(keys[1..], todo - {keys[0]})
  {
    assert keys == [keys[0]] + keys[1..];
    assert (set k | k in keys[1..]) == todo - {keys[0]} by {
      forall k ensures k in keys[1..] <==> k in todo - {keys[0]} {
        assert k in todo <==> k in keys;
      }
    }
    assert keys[1..] != [] by { var k: Key :| k in todo - {keys[0]}; assert k in keys[1..]; }
  }

  /** An undisturbed invalidation installs one fresh token, removes every key its process
      has indexed for the model, and changes nothing of any other process. */
  lemma {:induction false} InvalidatePassEffect(s: Sys, u: Tid, model: string, names: set<string>, db: string,
                                                keys: seq<Key>)
    requires Th(s.threads, u).Idle? && Free(s, u) && names != {} && s.nextToken !in s.flying
    requires Lists(keys, Matching(LocalOf(s.local, u.pid), names, db))
    ensures var r := InvalidatePass(s, u, model, names, db, keys);
            && r.now == s.now + 3 + |keys| && r.commits == s.commits && r.lock == s.lock
            && r.results == s.results - Matching(LocalOf(s.local, u.pid), names, db)
            && r.tokens == s.tokens[Scope(model, db) := s.nextToken]
            && r.birth == s.birth[s.nextToken := Landing(Scope(model, db), |s.commits|)]
            && (forall p :: p != u.pid ==> LocalOf(r.local, p) == LocalOf(s.local, p))
            && (forall th :: th != u ==> Th(r.threads, th) == Th(s.threads, th))
  {
    hide Matching, RotatePass, DoInvalidateRotated, DeletePass, Block, Lists;
    var sc, x, all := Scope(model, db), s.nextToken, Matching(LocalOf(s.local, u.pid), names, db);
    RotationLands(s, u, model, names, db);
    var s2 := RotatePass(s, u, model, names, db);
    MatchingSame(LocalOf(s.local, u.pid), LocalOf(s2.local, u.pid), names, db);
    RotatedEffect(s2, u, sc, x, names, db);
    var s3 := Tick(DoInvalidateRotated(s2, u, true));
    DeletePassEffect(s3, u, all, keys);
    var r := DeletePass(s3, u, keys);
    OnlyMineOutside(s, s2, u);
    OnlyMineOutside(s2, DoInvalidateRotated(s2, u, true), u);
    hide OnlyMine;
    LockReturned(s.lock, r.lock, u);
  }

  lemma {:induction false} LockReturned(before: map<nat, Tid>, after: map<nat, Tid>, u: Tid)
    requires u.pid !in before && u.pid !in after && after - {u.pid} == before[u.pid := u][u.pid := u] - {u.pid}
    ensures after == before
  {
    assert before[u.pid := u][u.pid := u] - {u.pid} == before;
    assert after - {u.pid} == after;
  }

  lemma {:induction false} OnlyMineOutside(s: Sys, r: Sys, u: Tid)
    requires exists l, t :: OnlyMine(s, r, u, l, t) && Critical(t)
    ensures r.commits == s.commits && r.results == s.results && r.lock == s.lock[u.pid := u]
    ensures forall p :: p != u.pid ==> LocalOf(r.local, p) == LocalOf(s.local, p)
    ensures forall th :: th != u ==> Th(r.threads, th) == Th(s.threads, th)
  {
  }

  /** The rotation is sent and arrives. */
  lemma {:induction false} RotationLands(s: Sys, u: Tid, model: string, names: set<string>, db: string)
    requires Th(s.threads, u).Idle? && Free(s, u) && names != {} && s.nextToken !in s.flying
    ensures var sc, l, r := Scope(model, db), LocalOf(s.local, u.pid), RotatePass(s, u, model, names, db);
            && OnlyMine(s, r, u, l.(generation := l.generation + 1, pending := l.pending + {sc}),
                        Invalidating(sc, s.nextToken, names, db))
            && r.tokens == s.tokens[sc := s.nextToken] && r.now == s.now + 2
            && r.birth == s.birth[s.nextToken := Landing(sc, |s.commits|)]
  {
    hide DoStartInvalidate;
    StartInvalidateEffect(s, u, model, names, db);
  }

  lemma {:induction false} MatchingSame(l: Local, r: Local, names: set<string>, db: string)
    requires l.modelKeys == r.modelKeys
    ensures Matching(l, names, db) == Matching(r, names, db)
  {
    forall n ensures Bucket(l, n) == Bucket(r, n) {
    }
  }

  /** The one thing the protocol excludes: a token write that arrived arrives again. */
  function Replay(s: Sys, x: Token): Sys {
    Tick(if x in s.birth then s.(tokens := s.tokens[s.birth[x].scope := x]) else s)
  }

  /** Why a write is sent once.  Take any reachable state in which a query is servable.
      Let a table of it change, and another process, which has not indexed this entry,
      invalidate it: the rotation arrives.
      The query is then no longer servable; but deliver the old token's write once more
      and the next lookup, all of whose checks follow the rotation, hits the rows that
      were read before the change. */
  lemma {:induction false} ReplayServesStaleRows(s: Sys, th: Tid, q: Query, u: Tid, model: string,
                                                 names: set<string>, db: string, keys: seq<Key>, table: Table)
    requires Inv(s) && Ready(s, th, q) && Servable(s, th, Key(q, Vec(s, q)))
    requires table in Tables(q) && s.results[Key(q, Vec(s, q))][table] <= |s.commits|
    requires u.pid != th.pid && Th(s.threads, u).Idle? && Free(s, u) && names != {}
    requires Lists(keys, Matching(LocalOf(s.local, u.pid), names, db)) && Scope(model, db) in Scopes(q)
    requires Key(q, Vec(s, q)) !in Matching(LocalOf(s.local, u.pid), names, db)
    ensures var key := Key(q, Vec(s, q));
            var changed := Step(s, Commit(table));
            var rotated := InvalidatePass(changed, u, model, names, db, keys);
            var replayed := Replay(rotated, key.gens[Scope(model, db)]);
            var h := Th(HitPass(SnapshotPass(replayed, th, q, false), th).threads, th);
            && !Servable(rotated, th, key)
            && h.Hit? && h.key == key && table in h.rows && h.rows[table] <= |s.commits|
            && (forall sc :: sc in h.when ==> rotated.now < h.when[sc])
  {
    hide HitPass, SnapshotPass, InvalidatePass, Inv, Matching;
    var key := Key(q, Vec(s, q));
    var sc := Scope(model, db);
    ServedFacts(s, th, key, sc);
    var changed := Step(s, Commit(table));
    InvalidatePassEffect(changed, u, model, names, db, keys);
    var rotated := InvalidatePass(changed, u, model, names, db, keys);
    var replayed := Replay(rotated, key.gens[sc]);
    assert replayed.tokens == s.tokens;
    assert Vec(replayed, q) == Vec(s, q);
    ServableIsServed(replayed, th, q, false);
  }

  lemma {:induction false} ServedFacts(s: Sys, th: Tid, key: Key, sc: Scope)
    requires Inv(s) && Servable(s, th, key) && sc in key.gens
    ensures key.gens[sc] in s.birth && s.birth[key.gens[sc]].scope == sc && key.gens[sc] != s.nextToken
    ensures s.nextToken !in s.flying && s.results[key].Keys == Tables(key.query)
  {
    hide ThreadsOk, LocksOk, IndexesOk, FencesOk, YoungestOk;
  }
}
