/** An undisturbed `_read_generations` of a process that has rotations to repeat and of a
    store that lacks tokens: it sends each pending rotation once and creates each missing
    token once, and then knows the current token of every scope
    (src/nova/cache/queryset_cache.py:216-238, src/nova/cache/backends/redis.py:98-145). */
module CoherenceRepair {
  import opened CacheTypes
  import opened CacheIndex
  import opened CoherenceSystem
  import opened CoherenceInvariant
  import opened CoherenceReplay

  // ----- the passes -----

  /** A pending rotation is sent, arrives and is acknowledged. */
  function RotateOne(s: Sys, th: Tid, sc: Scope): Sys {
    Tick(DoRotationAcked(Tick(DoLand(Tick(DoStartRotation(s, th, sc)), s.nextToken)), th))
  }

  function RotateEach(s: Sys, th: Tid, scopes: seq<Scope>): Sys {
    if scopes == [] then s else RotateOne(RotateEach(s, th, scopes[..|scopes| - 1]), th, scopes[|scopes| - 1])
  }

  /** A token is found missing, its creation arrives and is answered, and it is read. */
  function CreateOne(s: Sys, th: Tid, sc: Scope): Sys {
    Tick(DoReadToken(Tick(DoCreateAnswered(Tick(DoLand(Tick(DoReadToken(s, th, sc)), s.nextToken)), th)), th, sc))
  }

  function CreateEach(s: Sys, th: Tid, scopes: seq<Scope>): Sys {
    if scopes == [] then s else CreateOne(CreateEach(s, th, scopes[..|scopes| - 1]), th, scopes[|scopes| - 1])
  }

  /** The key of a query, with every repair on the way. */
  function RepairPass(s: Sys, th: Tid, q: Query, fill: bool, pending: seq<Scope>, missing: seq<Scope>): Sys {
    var read := ReadPass(RotateEach(Tick(DoBegin(s, th, q, fill)), th, pending), th);
    Tick(DoSnapshotDone(CreateEach(read, th, missing), th))
  }

  /** `list` holds the elements of `all`, each once. */
  ghost predicate ListOf<T(!new)>(list: seq<T>, all: set<T>) {
    && (forall i, j :: 0 <= i < j < |list| ==> list[i] != list[j])
    && (forall x :: x in list <==> x in all)
  }

  lemma {:induction false} ListInit<T(!new)>(list: seq<T>, all: set<T>)
    requires ListOf(list, all) && list != []
    ensures var init, last := list[..|list| - 1], list[|list| - 1]; last in all && ListOf(init, all - {last})
  {
    var init, last := list[..|list| - 1], list[|list| - 1];
    assert list == init + [last];
  }

  // ----- what they leave as it was -----

  /** Nothing changes but tokens of `scopes`, the pending ones of this process among them,
      and thread `th` with its lock: gaps are filled and pending scopes rotated, with tokens
      never drawn before. */
  ghost predicate Keeps(s: Sys, r: Sys, th: Tid, scopes: set<Scope>) {
    && r.commits == s.commits && r.results == s.results && r.sets == s.sets && s.nextToken <= r.nextToken
    && r.lock - {th.pid} == s.lock - {th.pid}
    && (forall u :: u != th ==> Th(r.threads, u) == Th(s.threads, u))
    && (forall p :: p != th.pid ==> LocalOf(r.local, p) == LocalOf(s.local, p))
    && LocalOf(r.local, th.pid) == LocalOf(s.local, th.pid).(pending := Pending(r.local, th.pid))
    && Pending(r.local, th.pid) <= Pending(s.local, th.pid)
    && (forall sc :: sc in s.tokens ==> sc in r.tokens)
    && (forall sc :: sc in r.tokens && !(sc in s.tokens && r.tokens[sc] == s.tokens[sc]) ==>
          sc in scopes && s.nextToken <= r.tokens[sc] && (sc in s.tokens ==> sc in Pending(s.local, th.pid)))
  }

  lemma {:induction false} KeepsBoth(s: Sys, m: Sys, r: Sys, th: Tid, scopes: set<Scope>)
    requires Keeps(s, m, th, scopes) && Keeps(m, r, th, scopes)
    ensures Keeps(s, r, th, scopes)
  {
    hide LocalOf, Th;
  }

  lemma {:induction false} KeepsSelf(s: Sys, th: Tid, scopes: set<Scope>)
    ensures Keeps(s, s, th, scopes)
  {
  }

  // ----- pending rotations -----

  /** `th` looks for the key of `q` and has these scopes left to scan. */
  ghost predicate Scanning(s: Sys, th: Tid, q: Query, fill: bool, todo: set<Scope>) {
    Th(s.threads, th) == Snapshotting(q, fill, Reader(Scan(todo), map[], map[])) && Holds(s, th)
  }

  lemma {:induction false} RotateOneEffect(s: Sys, th: Tid, q: Query, fill: bool, todo: set<Scope>, sc: Scope)
    requires Scanning(s, th, q, fill, todo) && sc in todo && sc in Scopes(q) && sc in Pending(s.local, th.pid)
    ensures var r := RotateOne(s, th, sc);
            && Scanning(r, th, q, fill, todo - {sc}) && Keeps(s, r, th, Scopes(q))
            && Pending(r.local, th.pid) == Pending(s.local, th.pid) - {sc}
            && r.tokens == s.tokens[sc := s.nextToken]
  {
    hide Scopes;
    var x, l := s.nextToken, LocalOf(s.local, th.pid);
    var t := Snapshotting(q, fill, Reader(Rotating(todo, sc, x), map[], map[]));
    MoveHeld(Send(s, Write(sc, false)), th, t);
    var s1 := Tick(DoStartRotation(s, th, sc));
    assert s1 == Tick(Place(Send(s, Write(sc, false)), th, t));
    var s2 := Tick(DoLand(s1, x));
    assert s2 == Tick(Install(s1, x, sc));
    var u := Snapshotting(q, fill, Reader(Scan(todo - {sc}), map[], map[]));
    var m := SetLocal(s2, th.pid, l.(pending := l.pending - {sc}));
    MoveHeld(m, th, u);
    assert Th(s2.threads, th) == t && x in s2.birth && LocalOf(s2.local, th.pid) == l;
    assert DoRotationAcked(s2, th) == Place(m, th, u);
  }

  lemma {:induction false} RotateEachEffect(s: Sys, th: Tid, q: Query, fill: bool, list: seq<Scope>, all: set<Scope>)
    requires Scanning(s, th, q, fill, Scopes(q)) && ListOf(list, all) && all <= Scopes(q) * Pending(s.local, th.pid)
    ensures var r := RotateEach(s, th, list);
            && Scanning(r, th, q, fill, Scopes(q) - all) && Keeps(s, r, th, Scopes(q))
            && Pending(r.local, th.pid) == Pending(s.local, th.pid) - all
            && r.tokens.Keys == s.tokens.Keys + all
            && (forall sc :: sc in all ==> s.nextToken <= r.tokens[sc])
  {
    hide Scopes, Keeps, Scanning, RotateOne, Pending;
    if list == [] {
      assert all == {} && Scopes(q) - all == Scopes(q);
      KeepsSelf(s, th, Scopes(q));
    } else {
      var init, last := list[..|list| - 1], list[|list| - 1];
      ListInit(list, all);
      RotateEachEffect(s, th, q, fill, init, all - {last});
      var m := RotateEach(s, th, init);
      RotateOneEffect(m, th, q, fill, Scopes(q) - (all - {last}), last);
      KeepsBoth(s, m, RotateOne(m, th, last), th, Scopes(q));
      assert Scopes(q) - (all - {last}) - {last} == Scopes(q) - all;
      assert s.nextToken <= m.nextToken by { assert Keeps(s, m, th, Scopes(q)); OnlyForward(s, m, th, Scopes(q)); }
    }
  }

  lemma {:induction false} OnlyForward(s: Sys, r: Sys, th: Tid, scopes: set<Scope>)
    requires Keeps(s, r, th, scopes)
    ensures s.nextToken <= r.nextToken
  {
  }

  // ----- missing tokens -----

  /** `th` has read the current token of every scope of `q` that has one; `created` are the
      scopes it created one for. */
  ghost predicate Knows(s: Sys, th: Tid, q: Query, fill: bool, created: set<Scope>) {
    var t := Th(s.threads, th);
    && Holds(s, th) && t.Snapshotting? && t.query == q && t.fill == fill
    && t.rd.stage.Reading? && t.rd.tries.Keys == created
    && t.rd.got.Keys == Scopes(q) * s.tokens.Keys
    && (forall sc :: sc in t.rd.got ==> t.rd.got[sc].token == s.tokens[sc])
  }

  lemma {:induction false} ReadPassKnows(s: Sys, th: Tid, q: Query, fill: bool, todo: set<Scope>)
    requires Scanning(s, th, q, fill, todo) && todo !! Pending(s.local, th.pid)
    ensures var r := ReadPass(s, th);
            && Knows(r, th, q, fill, {}) && Keeps(s, r, th, Scopes(q)) && r.tokens == s.tokens
            && Pending(r.local, th.pid) == Pending(s.local, th.pid) && r.nextToken == s.nextToken
  {
    hide Scopes, Move, DoScanDone, DoReadTokens, Seen, Pending, LocalOf;
    var t := Snapshotting(q, fill, Reader(Reading, map[], map[]));
    ScanEnds(s, th, q, fill, todo);
    var s1 := Tick(Place(s, th, t));
    TokensEffect(s1, th, t);
    var v := Snapshotting(q, fill, Seen(s1, Scopes(q)));
    assert s.threads[th := t][th := v] == s.threads[th := v];
    assert ReadPass(s, th) == Place(s, th, v).(now := s.now + 2);
    SeenKnows(s, s1, th, q, fill);
  }

  lemma {:induction false} ScanEnds(s: Sys, th: Tid, q: Query, fill: bool, todo: set<Scope>)
    requires Scanning(s, th, q, fill, todo) && todo !! Pending(s.local, th.pid)
    ensures DoScanDone(s, th) == Place(s, th, Snapshotting(q, fill, Reader(Reading, map[], map[])))
  {
    hide Scopes, Move, Pending, LocalOf;
    MoveHeld(s, th, Snapshotting(q, fill, Reader(Reading, map[], map[])));
    assert todo * Pending(s.local, th.pid) == {};
    ReadsScan(s, th);
  }

  lemma {:induction false} ReadsScan(s: Sys, th: Tid)
    ensures var t := Th(s.threads, th);
            HasReader(t) && t.rd.stage.Scan? && t.rd.stage.todo * Pending(s.local, th.pid) == {} ==>
              DoScanDone(s, th) == Move(s, th, Reads(t, t.rd.(stage := Reading)))
  {
    hide Move;
  }

  lemma {:induction false} SeenKnows(s: Sys, m: Sys, th: Tid, q: Query, fill: bool)
    requires Holds(s, th) && m.tokens == s.tokens
    ensures var r := Place(s, th, Snapshotting(q, fill, Seen(m, Scopes(q)))).(now := s.now + 2);
            Knows(r, th, q, fill, {}) && Keeps(s, r, th, Scopes(q))
  {
    hide Scopes;
  }

  /** The state after a token was created for `sc`, `n` steps later. */
  function Created(s: Sys, th: Tid, t: Thread, sc: Scope, n: nat): Sys {
    s.(now := s.now + n, tokens := s.tokens[sc := s.nextToken], nextToken := s.nextToken + 1,
       flying := s.flying - {s.nextToken}, birth := s.birth[s.nextToken := Landing(sc, |s.commits|)],
       threads := s.threads[th := t])
  }

  lemma {:induction false} CreateOneEffect(s: Sys, th: Tid, q: Query, fill: bool, created: set<Scope>, sc: Scope)
    requires Knows(s, th, q, fill, created) && sc in Scopes(q) && sc !in s.tokens && sc !in created
    ensures var r := CreateOne(s, th, sc);
            && Knows(r, th, q, fill, created + {sc}) && Keeps(s, r, th, Scopes(q))
            && Pending(r.local, th.pid) == Pending(s.local, th.pid) && r.tokens == s.tokens[sc := s.nextToken]
  {
    hide Scopes, CreateOne, Created, Keeps;
    var rd := Th(s.threads, th).rd;
    assert Th(s.threads, th) == Snapshotting(q, fill, rd);
    CreateOneIs(s, th, q, fill, rd, sc);
    CreatedKnows(s, th, q, fill, created, sc);
    var u := Snapshotting(q, fill, Reader(rd.stage, rd.tries[sc := 1], rd.got[sc := Obs(s.nextToken, s.now + 3)]));
    CreatedHas(s, th, u, sc, 4);
  }

  lemma {:induction false} CreateOneIs(s: Sys, th: Tid, q: Query, fill: bool, rd: Reader, sc: Scope)
    requires Th(s.threads, th) == Snapshotting(q, fill, rd) && Holds(s, th) && rd.stage.Reading?
    requires sc in Scopes(q) - rd.got.Keys && sc !in s.tokens && sc !in rd.tries
    ensures var u := Snapshotting(q, fill, Reader(rd.stage, rd.tries[sc := 1], rd.got[sc := Obs(s.nextToken, s.now + 3)]));
            CreateOne(s, th, sc) == Created(s, th, u, sc, 4)
  {
    hide Scopes, DoReadToken, DoLand, DoCreateAnswered, Created, Place, Tick, Th;
    var tried := rd.(tries := rd.tries[sc := 1]);
    var t := Snapshotting(q, fill, tried.(stage := Creating(sc, s.nextToken)));
    TokenCreated(s, th, q, fill, rd, sc);
    CreatedHas(s, th, t, sc, 2);
    var s2, t3 := Created(s, th, t, sc, 2), Snapshotting(q, fill, tried);
    CreationAnswered(s2, th, q, fill, tried, sc, s.nextToken);
    CreatedTick(s, th, t, t3, sc, 2);
    CreatedHas(s, th, t3, sc, 3);
    CreatedIsRead(Created(s, th, t3, sc, 3), th, q, fill, tried, sc, s.nextToken);
    CreatedTick(s, th, t3, Snapshotting(q, fill, tried.(got := tried.got[sc := Obs(s.nextToken, s.now + 3)])), sc, 3);
  }

  lemma {:induction false} CreatedHas(s: Sys, th: Tid, t: Thread, sc: Scope, n: nat)
    ensures var r := Created(s, th, t, sc, n);
            && Th(r.threads, th) == t && r.lock == s.lock && r.now == s.now + n && r.local == s.local
            && r.tokens == s.tokens[sc := s.nextToken] && s.nextToken !in r.flying
  {
  }

  lemma {:induction false} CreatedTick(s: Sys, th: Tid, t: Thread, u: Thread, sc: Scope, n: nat)
    ensures Tick(Place(Created(s, th, t, sc, n), th, u)) == Created(s, th, u, sc, n + 1)
  {
    assert s.threads[th := t][th := u] == s.threads[th := u];
  }

  lemma {:induction false} TokenCreated(s: Sys, th: Tid, q: Query, fill: bool, rd: Reader, sc: Scope)
    requires Th(s.threads, th) == Snapshotting(q, fill, rd) && Holds(s, th) && rd.stage.Reading?
    requires sc in Scopes(q) - rd.got.Keys && sc !in s.tokens && sc !in rd.tries
    ensures Tick(DoLand(Tick(DoReadToken(s, th, sc)), s.nextToken))
         == Created(s, th, Snapshotting(q, fill, Reader(Creating(sc, s.nextToken), rd.tries[sc := 1], rd.got)), sc, 2)
  {
    hide Scopes, Move, DoReadToken, DoLand;
    CreationSent(s, th, q, fill, rd, sc);
    var s1 := Tick(DoReadToken(s, th, sc));
    CreationArrives(s1, s.nextToken, sc);
    assert s.flying[s.nextToken := Write(sc, true)] - {s.nextToken} == s.flying - {s.nextToken};
  }

  lemma {:induction false} CreatedKnows(s: Sys, th: Tid, q: Query, fill: bool, created: set<Scope>, sc: Scope)
    requires Knows(s, th, q, fill, created) && sc in Scopes(q) && sc !in s.tokens
    ensures var rd := Th(s.threads, th).rd;
            var u := Snapshotting(q, fill, Reader(rd.stage, rd.tries[sc := 1], rd.got[sc := Obs(s.nextToken, s.now + 3)]));
            var r := Created(s, th, u, sc, 4);
            Knows(r, th, q, fill, created + {sc}) && Keeps(s, r, th, Scopes(q))
  {
    hide Scopes;
  }

  lemma {:induction false} CreationSent(s: Sys, th: Tid, q: Query, fill: bool, rd: Reader, sc: Scope)
    requires Th(s.threads, th) == Snapshotting(q, fill, rd) && Holds(s, th) && rd.stage.Reading?
    requires sc in Scopes(q) - rd.got.Keys && sc !in s.tokens && sc !in rd.tries
    ensures DoReadToken(s, th, sc)
         == Place(Send(s, Write(sc, true)), th,
                  Snapshotting(q, fill, Reader(Creating(sc, s.nextToken), rd.tries[sc := 1], rd.got)))
  {
    MoveHeld(Send(s, Write(sc, true)), th,
             Snapshotting(q, fill, Reader(Creating(sc, s.nextToken), rd.tries[sc := 1], rd.got)));
    hide Scopes, Move;
  }

  lemma {:induction false} CreationArrives(s: Sys, x: Token, sc: Scope)
    requires x in s.flying && s.flying[x] == Write(sc, true) && sc !in s.tokens
    ensures DoLand(s, x) == Install(s, x, sc)
  {
  }

  lemma {:induction false} CreationAnswered(s: Sys, th: Tid, q: Query, fill: bool, rd: Reader, sc: Scope, x: Token)
    requires Th(s.threads, th) == Snapshotting(q, fill, rd.(stage := Creating(sc, x))) && Holds(s, th)
    requires rd.stage.Reading? && x !in s.flying
    ensures DoCreateAnswered(s, th) == Place(s, th, Snapshotting(q, fill, rd))
  {
    MoveHeld(s, th, Snapshotting(q, fill, rd));
    hide Move;
  }

  lemma {:induction false} CreatedIsRead(s: Sys, th: Tid, q: Query, fill: bool, rd: Reader, sc: Scope, x: Token)
    requires Th(s.threads, th) == Snapshotting(q, fill, rd) && Holds(s, th) && rd.stage.Reading?
    requires sc in s.tokens && s.tokens[sc] == x && sc in Scopes(q) - rd.got.Keys
    ensures DoReadToken(s, th, sc) == Place(s, th, Snapshotting(q, fill, rd.(got := rd.got[sc := Obs(x, s.now)])))
  {
    MoveHeld(s, th, Snapshotting(q, fill, rd.(got := rd.got[sc := Obs(x, s.now)])));
    hide Scopes, Move;
  }

  lemma {:induction false} CreateEachEffect(s: Sys, th: Tid, q: Query, fill: bool, list: seq<Scope>, all: set<Scope>)
    requires Knows(s, th, q, fill, {}) && ListOf(list, all) && all <= Scopes(q) - s.tokens.Keys
    ensures var r := CreateEach(s, th, list);
            && Knows(r, th, q, fill, all) && Keeps(s, r, th, Scopes(q))
            && Pending(r.local, th.pid) == Pending(s.local, th.pid)
            && r.tokens.Keys == s.tokens.Keys + all
            && (forall sc :: sc in all ==> s.nextToken <= r.tokens[sc])
  {
    hide Scopes, Keeps, Knows, CreateOne, Pending;
    if list == [] {
      assert all == {};
      KeepsSelf(s, th, Scopes(q));
    } else {
      var init, last := list[..|list| - 1], list[|list| - 1];
      ListInit(list, all);
      CreateEachEffect(s, th, q, fill, init, all - {last});
      var m := CreateEach(s, th, init);
      CreateOneEffect(m, th, q, fill, all - {last}, last);
      KeepsBoth(s, m, CreateOne(m, th, last), th, Scopes(q));
      OnlyForward(s, m, th, Scopes(q));
      assert all - {last} + {last} == all;
    }
  }

  // ----- the whole pass -----

  /** A thread may begin: only the failed-clear flag stands in the way of the cache. */
  ghost predicate Willing(s: Sys, th: Tid, q: Query) {
    Th(s.threads, th).Idle? && Free(s, th) && q.names != {} && !LocalOf(s.local, th.pid).clearFailed
  }

  /** What is left to repair for `q`: rotations of this process, and tokens. */
  ghost predicate Repairs(s: Sys, th: Tid, q: Query, pending: seq<Scope>, missing: seq<Scope>) {
    && ListOf(pending, Scopes(q) * Pending(s.local, th.pid))
    && ListOf(missing, Scopes(q) - s.tokens.Keys - Pending(s.local, th.pid))
  }

  lemma {:induction false} BeginScans(s: Sys, th: Tid, q: Query, fill: bool)
    requires Willing(s, th, q)
    ensures var r := Tick(DoBegin(s, th, q, fill));
            && Scanning(r, th, q, fill, Scopes(q)) && Keeps(s, r, th, Scopes(q))
            && r.tokens == s.tokens && r.local == s.local && r.nextToken == s.nextToken
  {
    hide Scopes;
    MoveTakes(s, th, Snapshotting(q, fill, StartReader(Scopes(q))));
  }

  lemma {:induction false} SnapshotEnds(s: Sys, th: Tid, q: Query, fill: bool, created: set<Scope>)
    requires Knows(s, th, q, fill, created) && Scopes(q) <= s.tokens.Keys
    ensures var r := Tick(DoSnapshotDone(s, th));
            && Th(r.threads, th) == Snapshotted(Key(q, Vec(s, q)), fill) && Free(r, th) && Keeps(s, r, th, Scopes(q))
            && r.tokens == s.tokens && r.local == s.local
  {
    hide Scopes;
    var t := Th(s.threads, th);
    assert t.rd.got.Keys == Scopes(q);
    assert Vector(t.rd.got) == Vec(s, q);
    MoveReleases(s, th, Snapshotted(Key(q, Vec(s, q)), fill));
    SnapshotDoneEffect(s, th, q, fill, t.rd);
  }

  /** Afterwards the thread holds the current token of every scope, nothing of its query is
      pending any more, every scope that was pending or missing has a token never drawn
      before, and all else is as it was. */
  lemma {:induction false} RepairPassEffect(s: Sys, th: Tid, q: Query, fill: bool, pending: seq<Scope>,
                                            missing: seq<Scope>)
    requires Willing(s, th, q) && Repairs(s, th, q, pending, missing)
    ensures var r := RepairPass(s, th, q, fill, pending, missing);
            && Keeps(s, r, th, Scopes(q)) && Free(r, th) && Scopes(q) <= r.tokens.Keys
            && Scopes(q) !! Pending(r.local, th.pid)
            && Th(r.threads, th) == Snapshotted(Key(q, Vec(r, q)), fill)
            && (forall sc :: sc in pending + missing ==> sc in r.tokens && s.nextToken <= r.tokens[sc])
  {
    hide Scopes, Keeps, Knows, Scanning, ReadPass, DoBegin, DoSnapshotDone, RotateEach, CreateEach, Pending, Vec, ListOf, Free, Holds, LocalOf, Th;
    var rotated := Scopes(q) * Pending(s.local, th.pid);
    var created := Scopes(q) - s.tokens.Keys - Pending(s.local, th.pid);
    var m0 := Tick(DoBegin(s, th, q, fill));
    BeginScans(s, th, q, fill);
    RotateEachEffect(m0, th, q, fill, pending, rotated);
    var m1 := RotateEach(m0, th, pending);
    KeepsBoth(s, m0, m1, th, Scopes(q));
    ReadPassKnows(m1, th, q, fill, Scopes(q) - rotated);
    var m2 := ReadPass(m1, th);
    KeepsBoth(s, m1, m2, th, Scopes(q));
    CreateEachEffect(m2, th, q, fill, missing, created);
    var m3 := CreateEach(m2, th, missing);
    KeepsBoth(s, m2, m3, th, Scopes(q));
    SnapshotEnds(m3, th, q, fill, created);
    var r := Tick(DoSnapshotDone(m3, th));
    KeepsBoth(s, m3, r, th, Scopes(q));
    forall sc | sc in pending + missing ensures sc in r.tokens && s.nextToken <= r.tokens[sc] {
      NewTokens(s, m0, m2, m3, th, q, pending, missing, sc);
    }
    assert Vec(r, q) == Vec(m3, q) by { VecOfTokens(r, m3, q); }
  }

  lemma {:induction false} VecOfTokens(r: Sys, s: Sys, q: Query)
    requires Scopes(q) <= s.tokens.Keys && r.tokens == s.tokens
    ensures Vec(r, q) == Vec(s, q)
  {
    hide Scopes;
  }

  lemma {:induction false} NewTokens(s: Sys, m0: Sys, m2: Sys, m3: Sys, th: Tid, q: Query, pending: seq<Scope>,
                                     missing: seq<Scope>, sc: Scope)
    requires Repairs(s, th, q, pending, missing) && sc in pending + missing
    requires m0.nextToken == s.nextToken && Keeps(s, m2, th, Scopes(q)) && Keeps(m2, m3, th, Scopes(q))
    requires forall x :: x in Scopes(q) * Pending(s.local, th.pid) ==> x in m2.tokens && s.nextToken <= m2.tokens[x]
    requires forall x :: x in Scopes(q) - s.tokens.Keys - Pending(s.local, th.pid) ==>
               x in m3.tokens && m2.nextToken <= m3.tokens[x]
    ensures sc in m3.tokens && s.nextToken <= m3.tokens[sc]
  {
    hide Scopes;
  }
}
