/** What every step of the coherence protocol keeps, whatever the interleaving. */
module CoherenceInvariant {
  import opened CacheTypes
  import opened CacheIndex
  import opened CoherenceSystem

  /** How long the commit log was when a token arrived. */
  function Born(birth: map<Token, Landing>, x: Token): nat {
    if x in birth then birth[x].at else 0
  }

  /** How much of the commit log process `p` has invalidated scope `sc` for. */
  function FenceOf(fence: map<(nat, Scope), nat>, p: nat, sc: Scope): nat {
    if (p, sc) in fence then fence[(p, sc)] else 0
  }

  function Pending(local: map<nat, Local>, p: nat): set<Scope> {
    LocalOf(local, p).pending
  }

  /** Tokens: a write in flight has not arrived, a current token has, and of the tokens
      that ever arrived at a scope the current one arrived last. */
  ghost predicate TokensOk(s: Sys) {
    && (forall x :: x in s.flying ==> x < s.nextToken && x !in s.birth)
    && (forall x :: x in s.birth ==> x < s.nextToken && s.birth[x].at <= |s.commits|)
    && (forall sc :: sc in s.tokens ==> s.tokens[sc] in s.birth && s.birth[s.tokens[sc]].scope == sc)
    && YoungestOk(s.tokens, s.birth)
  }

  ghost predicate YoungestOk(tokens: map<Scope, Token>, birth: map<Token, Landing>) {
    forall x :: x in birth && birth[x].scope in tokens ==> birth[x].at <= Born(birth, tokens[birth[x].scope])
  }

  ghost predicate KeyOk(birth: map<Token, Landing>, key: Key) {
    && key.query.names != {}
    && key.gens.Keys == Scopes(key.query)
    && (forall sc :: sc in key.gens ==> key.gens[sc] in birth)
  }

  /** `rows` were read, table by table, after every token in `key` had arrived. */
  ghost predicate ReadAfter(birth: map<Token, Landing>, key: Key, rows: Rows) {
    && KeyOk(birth, key)
    && rows.Keys <= Tables(key.query)
    && (forall sc, t :: sc in key.gens && t in rows ==> Born(birth, key.gens[sc]) <= rows[t])
  }

  ghost predicate Complete(birth: map<Token, Landing>, key: Key, rows: Rows) {
    ReadAfter(birth, key, rows) && rows.Keys == Tables(key.query)
  }

  ghost predicate StoreOk(s: Sys) {
    && (forall k :: k in s.results ==> Complete(s.birth, k, s.results[k]))
    && (forall k, r :: (k, r) in s.sets ==> Complete(s.birth, k, r))
  }

  ghost predicate LocksOk(s: Sys) {
    forall th :: Critical(Th(s.threads, th)) ==> th.pid in s.lock && s.lock[th.pid] == th
  }

  /** A fenced scope is either still pending in the process that fenced it, or its
      current token arrived after the fence. */
  ghost predicate FencesOk(s: Sys) {
    && (forall p, sc :: FenceOf(s.fence, p, sc) <= |s.commits|)
    && (forall p, sc :: sc in s.tokens && sc !in Pending(s.local, p) ==> FenceOf(s.fence, p, sc) <= Born(s.birth, s.tokens[sc]))
  }

  /** `x` was sent by process `p` to rotate `sc` after the fence of `sc`. */
  ghost predicate RotationOk(s: Sys, p: nat, sc: Scope, x: Token) {
    && x < s.nextToken
    && (x in s.flying ==> s.flying[x] == Write(sc, false))
    && (x in s.birth ==> s.birth[x].scope == sc && FenceOf(s.fence, p, sc) <= s.birth[x].at)
  }

  /** Every token seen had arrived and, once the pending rotations are done, was not
      older than this process's own fence for its scope. */
  ghost predicate ReaderOk(s: Sys, p: nat, scopes: set<Scope>, rd: Reader) {
    && rd.got.Keys <= scopes && (forall sc :: sc in rd.tries ==> rd.tries[sc] <= 3)
    && (forall sc :: sc in rd.got ==> rd.got[sc].token in s.birth)
    && (forall sc :: sc in rd.got ==> FenceOf(s.fence, p, sc) <= Born(s.birth, rd.got[sc].token))
    && (rd.stage.Rotating? ==> RotationOk(s, p, rd.stage.scope, rd.stage.token))
    && (if rd.stage.Scan? || rd.stage.Rotating?
        then rd.got == map[] && (scopes - rd.stage.todo) !! Pending(s.local, p)
        else scopes !! Pending(s.local, p))
  }

  ghost predicate ThreadOk(s: Sys, p: nat, t: Thread) {
    match t
    case Idle => true
    case Snapshotting(q, _, rd) => q.names != {} && ReaderOk(s, p, Scopes(q), rd)
    case Snapshotted(key, _) => KeyOk(s.birth, key)
    case Checking(key, _, rows, rd) => Complete(s.birth, key, rows) && ReaderOk(s, p, key.gens.Keys, rd)
    case Hit(key, rows, when) => Complete(s.birth, key, rows)
    case Querying(key, _, rows) => ReadAfter(s.birth, key, rows)
    case Rechecking(key, rows, rd) => Complete(s.birth, key, rows) && ReaderOk(s, p, key.gens.Keys, rd)
    case Invalidating(sc, x, names, db) => RotationOk(s, p, sc, x)
    case Deleting(_) => true
    case Clearing(doomed) => DoomedOk(s, p, doomed)
  }

  /** While a clear runs, a current token older than a fence is one it will remove. */
  ghost predicate DoomedOk(s: Sys, p: nat, doomed: map<Scope, Token>) {
    forall sc :: sc in s.tokens && Born(s.birth, s.tokens[sc]) < FenceOf(s.fence, p, sc) ==>
      sc in doomed && doomed[sc] == s.tokens[sc]
  }

  ghost predicate IndexesOk(s: Sys) {
    forall p :: Consistent(LocalOf(s.local, p))
  }

  ghost predicate ThreadsOk(s: Sys) {
    forall th: Tid :: ThreadOk(s, th.pid, Th(s.threads, th))
  }

  ghost predicate Inv(s: Sys) {
    TokensOk(s) && StoreOk(s) && LocksOk(s) && FencesOk(s) && IndexesOk(s) && ThreadsOk(s)
  }

  lemma {:induction false} ThreadAt(s: Sys, th: Tid)
    requires Inv(s)
    ensures ThreadOk(s, th.pid, Th(s.threads, th)) && Consistent(LocalOf(s.local, th.pid))
  {
    hide TokensOk, StoreOk, LocksOk, FencesOk, Consistent;
  }

  // ----- the shared part only moves forward -----

  ghost predicate Forward(s: Sys, r: Sys) {
    && |s.commits| <= |r.commits|
    && s.nextToken <= r.nextToken
    && (forall x :: x in s.birth ==> x in r.birth && r.birth[x] == s.birth[x])
    && (forall x :: x in r.birth && x !in s.birth ==>
          x in s.flying && r.birth[x] == Landing(s.flying[x].scope, |s.commits|))
    && (forall x :: x in r.flying && x < s.nextToken ==> x in s.flying && r.flying[x] == s.flying[x])
    && (forall sc :: sc in r.tokens && (sc !in s.tokens || r.tokens[sc] != s.tokens[sc]) ==>
          r.tokens[sc] !in s.birth && Born(r.birth, r.tokens[sc]) == |s.commits|)
  }

  ghost predicate SameFor(s: Sys, r: Sys, p: nat) {
    Pending(s.local, p) == Pending(r.local, p) && forall sc :: FenceOf(s.fence, p, sc) == FenceOf(r.fence, p, sc)
  }

  lemma {:induction false} CompleteForward(s: Sys, r: Sys, key: Key, rows: Rows)
    requires Forward(s, r) && ReadAfter(s.birth, key, rows)
    ensures ReadAfter(r.birth, key, rows)
  {
  }

  lemma {:induction false} RotationForward(s: Sys, r: Sys, p: nat, sc: Scope, x: Token)
    requires Forward(s, r) && FencesOk(s) && RotationOk(s, p, sc, x)
    requires SameFor(s, r, p)
    ensures RotationOk(r, p, sc, x)
  {
  }

  lemma {:induction false} ReaderForward(s: Sys, r: Sys, p: nat, scopes: set<Scope>, rd: Reader)
    requires Forward(s, r) && FencesOk(s) && ReaderOk(s, p, scopes, rd)
    requires SameFor(s, r, p)
    ensures ReaderOk(r, p, scopes, rd)
  {
    if rd.stage.Rotating? {
      RotationForward(s, r, p, rd.stage.scope, rd.stage.token);
    }
  }

  lemma {:induction false} DoomedForward(s: Sys, r: Sys, p: nat, doomed: map<Scope, Token>)
    requires Forward(s, r) && FencesOk(s) && DoomedOk(s, p, doomed) && TokensOk(s)
    requires SameFor(s, r, p)
    ensures DoomedOk(r, p, doomed)
  {
  }

  lemma {:induction false} ThreadForward(s: Sys, r: Sys, p: nat, t: Thread)
    requires TokensOk(s) && FencesOk(s) && ThreadOk(s, p, t) && Forward(s, r)
    requires Critical(t) ==> SameFor(s, r, p)
    ensures ThreadOk(r, p, t)
  {
    match t {
      case Idle =>
      case Snapshotting(q, _, rd) => ReaderForward(s, r, p, Scopes(q), rd);
      case Snapshotted(key, _) =>
      case Checking(key, _, rows, rd) =>
        CompleteForward(s, r, key, rows);
        ReaderForward(s, r, p, key.gens.Keys, rd);
      case Hit(key, rows, _) => CompleteForward(s, r, key, rows);
      case Querying(key, _, rows) => CompleteForward(s, r, key, rows);
      case Rechecking(key, rows, rd) =>
        CompleteForward(s, r, key, rows);
        ReaderForward(s, r, p, key.gens.Keys, rd);
      case Invalidating(sc, x, names, db) => RotationForward(s, r, p, sc, x);
      case Deleting(_) =>
      case Clearing(doomed) => DoomedForward(s, r, p, doomed);
    }
  }

  lemma {:induction false} StoreForward(s: Sys, r: Sys)
    requires Forward(s, r) && StoreOk(s)
    requires forall k :: k in r.results ==> k in s.results && r.results[k] == s.results[k]
    requires r.sets == s.sets
    ensures StoreOk(r)
  {
    forall k | k in r.results ensures Complete(r.birth, k, r.results[k]) {
      CompleteForward(s, r, k, r.results[k]);
    }
    forall k, rows | (k, rows) in r.sets ensures Complete(r.birth, k, rows) {
      CompleteForward(s, r, k, rows);
    }
  }

  // ----- what one thread's step may do -----

  predicate Current(s: Sys, sc: Scope, x: Token) {
    sc in s.tokens && s.tokens[sc] == x
  }

  /** From its last check to the hit: all tokens read again, all as in the key. */
  ghost predicate Confirms(t: Thread, hit: Thread)
    requires hit.Hit?
  {
    && t.Checking? && t.key == hit.key && t.rows == hit.rows
    && t.rd.got.Keys == hit.when.Keys == t.key.gens.Keys
    && (forall sc :: sc in hit.when ==> t.rd.got[sc] == Obs(t.key.gens[sc], hit.when[sc]))
  }

  /** What a reader has seen, it saw before this step or sees in this step; a hit is one
      from before, or is confirmed by this step; and rows are those from before, or read in
      this step. */
  ghost predicate Honest(s: Sys, t: Thread, u: Thread) {
    && (HasReader(u) ==> forall sc :: sc in u.rd.got ==>
          || (Current(s, sc, u.rd.got[sc].token) && u.rd.got[sc].when == s.now)
          || (HasReader(t) && sc in t.rd.got && t.rd.got[sc] == u.rd.got[sc]))
    && (u.Hit? ==> u == t || Confirms(t, u))
    && (u.Querying? ==> forall tab :: tab in u.rows ==> ReadEarlier(t, tab, u.rows[tab]) || u.rows[tab] == |s.commits|)
    && (u.Rechecking? ==> Rechecks(t, u))
  }

  ghost predicate ReadEarlier(t: Thread, tab: Table, seen: nat) {
    t.Querying? && tab in t.rows && t.rows[tab] == seen
  }

  /** The second look at the tokens begins with none of them, after SQL has read `rows`. */
  ghost predicate Rechecks(t: Thread, u: Thread)
    requires u.Rechecking?
  {
    (t.Rechecking? && t.rows == u.rows) || (t.Querying? && t.rows == u.rows && u.rd.got == map[])
  }

  /** Token writes may be sent and the present may be fenced; nothing becomes current. */
  ghost predicate Calm(s: Sys, r: Sys) {
    && r.now == s.now && r.tokens == s.tokens && r.birth == s.birth && r.commits == s.commits
    && s.nextToken <= r.nextToken
    && (forall x :: x in r.flying && x < s.nextToken ==> x in s.flying && r.flying[x] == s.flying[x])
    && (forall p, sc :: FenceOf(r.fence, p, sc) == FenceOf(s.fence, p, sc) || FenceOf(r.fence, p, sc) == |s.commits|)
  }

  /** A thread's own step leaves every other thread where it is. */
  ghost predicate Quiet(s: Sys, r: Sys, th: Tid) {
    && Calm(s, r)
    && (forall u :: u != th ==> Th(r.threads, u) == Th(s.threads, u))
    && Honest(s, Th(s.threads, th), Th(r.threads, th))
  }

  ghost predicate Good(s: Sys, r: Sys, th: Tid) {
    Inv(r) && Quiet(s, r, th)
  }

  lemma {:induction false} Stutter(s: Sys, th: Tid)
    requires Inv(s)
    ensures Good(s, s, th)
  {
    hide Inv;
  }

  lemma {:induction false} GoodAfter(s: Sys, m: Sys, r: Sys, th: Tid)
    requires Calm(s, m) && m.threads == s.threads && Good(m, r, th)
    ensures Good(s, r, th)
  {
    hide Inv;
  }

  /** Threads, locks and the clock do not enter what is known of the shared part. */
  lemma {:induction false} SameShared(m: Sys, r: Sys)
    requires r == m.(threads := r.threads, lock := r.lock, now := r.now)
    requires TokensOk(m) && StoreOk(m) && FencesOk(m) && IndexesOk(m)
    ensures TokensOk(r) && StoreOk(r) && FencesOk(r) && IndexesOk(r)
  {
    hide Consistent, Complete;
  }

  lemma {:induction false} SameForThread(m: Sys, r: Sys, p: nat, t: Thread)
    requires TokensOk(m) && FencesOk(m) && ThreadOk(m, p, t)
    requires r == m.(threads := r.threads, lock := r.lock, now := r.now)
    ensures ThreadOk(r, p, t)
  {
    ThreadForward(m, r, p, t);
  }

  lemma {:induction false} CalmMove(s: Sys, m: Sys, th: Tid, t: Thread)
    requires Calm(s, m)
    ensures Calm(s, Move(m, th, t))
  {
  }

  /** A thread moves after `m` changed the shared part: only that thread needs a look,
      provided it holds (or can take) the lock when it touches its process's fences. */
  lemma {:induction false} MoveInv(s: Sys, m: Sys, th: Tid, t: Thread)
    requires Inv(s) && Forward(s, m)
    requires TokensOk(m) && StoreOk(m) && FencesOk(m) && IndexesOk(m)
    requires m.threads == s.threads && m.lock == s.lock
    requires Critical(t) ==> Critical(Th(s.threads, th)) || Free(s, th)
    requires forall p :: p != th.pid ==> SameFor(s, m, p)
    requires SameFor(s, m, th.pid) || Critical(Th(s.threads, th)) || Free(s, th)
    requires ThreadOk(m, th.pid, t)
    requires Calm(s, m) && Honest(s, Th(s.threads, th), t)
    ensures Good(s, Move(m, th, t), th)
  {
    hide TokensOk, StoreOk, FencesOk, IndexesOk, ThreadOk, Forward, SameFor, Calm, Honest;
    var r := Move(m, th, t);
    assert Calm(s, r) by { CalmMove(s, m, th, t); }
    SameShared(m, r);
    forall u: Tid ensures ThreadOk(r, u.pid, Th(r.threads, u)) {
      ThreadAt(s, u);
      if u == th {
        SameForThread(m, r, u.pid, t);
      } else {
        assert Critical(Th(s.threads, u)) && u.pid == th.pid ==> SameFor(s, m, u.pid);
        ThreadForward(s, m, u.pid, Th(s.threads, u));
        SameForThread(m, r, u.pid, Th(s.threads, u));
      }
    }
    forall u | Critical(Th(r.threads, u)) ensures u.pid in r.lock && r.lock[u.pid] == u {
      if u != th {
        assert Critical(Th(s.threads, u));
      }
    }
  }

  lemma {:induction false} TickInv(s: Sys, n: nat)
    requires Inv(s)
    ensures Inv(s.(now := n))
  {
    hide TokensOk, StoreOk, FencesOk, IndexesOk, ThreadOk;
    var r := s.(now := n);
    SameShared(s, r);
    forall th: Tid ensures ThreadOk(r, th.pid, Th(r.threads, th)) {
      ThreadAt(s, th);
      SameForThread(s, r, th.pid, Th(s.threads, th));
    }
  }
}
