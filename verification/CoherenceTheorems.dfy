/** What the coherence protocol promises, over every run. */
module CoherenceTheorems {
  import opened CacheTypes
  import opened CacheIndex
  import opened CoherenceSystem
  import opened CoherenceInvariant
  import opened CoherenceSteps

  // ----- tokens -----

  /** A token that was current and has been replaced or evicted is never current again:
      it has arrived already, and it arrives once. */
  lemma {:induction false} NeverCurrentAgain(es: seq<Event>, i: nat, j: nat, k: nat, sc: Scope, x: Token)
    requires i <= j <= k <= |es|
    requires Current(At(es, i), sc, x) && !Current(At(es, j), sc, x)
    ensures x in At(es, k).birth && !Current(At(es, k), sc, x)
    decreases k
  {
    hide Inv, Act, Step;
    if j < k {
      NeverCurrentAgain(es, i, j, k - 1, sc, x);
      Advance(es, k);
    } else {
      WasBorn(es, i, k, sc, x);
    }
  }

  /** One step of a run: the shared part moves forward. */
  lemma {:induction false} Advance(es: seq<Event>, k: nat)
    requires 0 < k <= |es|
    ensures Forward(At(es, k - 1), At(es, k))
  {
    hide Inv, Act, Step, Forward;
    RunInv(es, k - 1);
    StepInv(At(es, k - 1), es[k - 1]);
  }

  lemma {:induction false} WasBorn(es: seq<Event>, i: nat, k: nat, sc: Scope, x: Token)
    requires i <= k <= |es| && Current(At(es, i), sc, x)
    ensures x in At(es, k).birth && Born(At(es, k).birth, x) == Born(At(es, i).birth, x)
    decreases k
  {
    hide Act, Step;
    if i < k {
      hide Inv;
      WasBorn(es, i, k - 1, sc, x);
      Advance(es, k);
    } else {
      RunInv(es, i);
    }
  }

  /** If `x` is current now and was not at some earlier point, it arrived in between. */
  lemma {:induction false} ArrivedSince(es: seq<Event>, a: nat, b: nat, sc: Scope, x: Token)
    requires a <= b <= |es|
    requires !Current(At(es, a), sc, x) && Current(At(es, b), sc, x)
    ensures |At(es, a).commits| <= Born(At(es, b).birth, x)
    ensures |At(es, a).commits| <= |At(es, b - 1).commits|
    decreases b
  {
    hide Inv, Act, Step;
    Advance(es, b);
    if Current(At(es, b - 1), sc, x) {
      WasBorn(es, b - 1, b, sc, x);
      ArrivedSince(es, a, b - 1, sc, x);
      Advance(es, b - 1);
    } else {
      CommitsGrow(es, a, b - 1);
    }
  }

  lemma {:induction false} CommitsGrow(es: seq<Event>, a: nat, b: nat)
    requires a <= b <= |es|
    ensures |At(es, a).commits| <= |At(es, b).commits|
    decreases b
  {
    hide Inv, Act, Step;
    if a < b {
      CommitsGrow(es, a, b - 1);
      Advance(es, b);
    }
  }

  // ----- observations -----

  /** Whatever a reader holds, it really saw: that token was current at that step. */
  lemma {:induction false} Observed(es: seq<Event>, i: nat, th: Tid, sc: Scope)
    requires i <= |es|
    requires var t := Th(At(es, i).threads, th); HasReader(t) && sc in t.rd.got
    ensures var o := Th(At(es, i).threads, th).rd.got[sc];
            o.when < i && Current(At(es, o.when), sc, o.token)
  {
    hide Inv, Act, Forward;
    if i > 0 {
      var s := At(es, i - 1);
      RunInv(es, i - 1);
      ActInv(s, es[i - 1]);
      if !Shared(es[i - 1]) && es[i - 1].th == th && !(HasReader(Th(s.threads, th)) && sc in Th(s.threads, th).rd.got
           && Th(s.threads, th).rd.got[sc] == Th(At(es, i).threads, th).rd.got[sc]) {
      } else {
        assert Th(At(es, i).threads, th).rd.got[sc] == Th(s.threads, th).rd.got[sc];
        Observed(es, i - 1, th, sc);
      }
    }
  }

  /** A hit was confirmed scope by scope: at step `when[sc]`, the token in its key was
      the current token of `sc`. */
  lemma {:induction false} HitConfirmed(es: seq<Event>, n: nat, th: Tid, sc: Scope)
    requires n <= |es| && Th(At(es, n).threads, th).Hit?
    requires sc in Th(At(es, n).threads, th).when || sc in Th(At(es, n).threads, th).key.gens
    ensures var t := Th(At(es, n).threads, th);
            && sc in t.when && sc in t.key.gens && t.when[sc] < n
            && Current(At(es, t.when[sc]), sc, t.key.gens[sc])
  {
    hide Inv, Act, Forward;
    if n > 0 {
      var s := At(es, n - 1);
      RunInv(es, n - 1);
      ActInv(s, es[n - 1]);
      if Th(s.threads, th) == Th(At(es, n).threads, th) {
        HitConfirmed(es, n - 1, th, sc);
      } else {
        Observed(es, n - 1, th, sc);
      }
    }
  }

  // ----- the promise to readers -----

  /** Freshness.  If the last check of scope `sc` behind a hit comes after a moment at
      which the key's token was not current (it was rotated, evicted, cleared, or not
      yet there), every table of the query was read after that moment. */
  lemma {:induction false} HitsAreFresh(es: seq<Event>, n: nat, th: Tid, sc: Scope, a: nat, t: Table)
    requires n <= |es| && Th(At(es, n).threads, th).Hit?
    requires var h := Th(At(es, n).threads, th);
             sc in h.key.gens && sc in h.when && a <= h.when[sc] && a <= n && t in Tables(h.key.query)
             && !Current(At(es, a), sc, h.key.gens[sc])
    ensures var h := Th(At(es, n).threads, th); t in h.rows && |At(es, a).commits| <= h.rows[t]
  {
    hide Act, Step, Forward, TokensOk, StoreOk, FencesOk, LocksOk, IndexesOk;
    var h := Th(At(es, n).threads, th);
    HitConfirmed(es, n, th, sc);
    var w, x := h.when[sc], h.key.gens[sc];
    ArrivedSince(es, a, w, sc, x);
    WasBorn(es, w, n, sc, x);
    RunInv(es, n);
    ThreadAt(At(es, n), th);
  }

  /** The promise: if a rotation of `sc` arrives after commit `c` and the reader's last
      check of `sc` comes after that arrival, the hit's rows of every table were read
      after `c`.  This holds for any interleaving, token eviction, failed or late write,
      and with SQL running outside every lock. */
  lemma {:induction false} HitsFollowRotation(es: seq<Event>, n: nat, th: Tid, sc: Scope, c: nat, a: nat, t: Table)
    requires c < a < n <= |es| && Th(At(es, n).threads, th).Hit?
    requires var h := Th(At(es, n).threads, th);
             sc in h.key.gens && sc in h.when && a < h.when[sc] && t in Tables(h.key.query)
    requires es[c].Commit?
    requires es[a].Land? && es[a].token in At(es, a).flying
    requires At(es, a).flying[es[a].token] == Write(sc, false)
    ensures var h := Th(At(es, n).threads, th); t in h.rows && |At(es, c).commits| < h.rows[t]
  {
    hide Inv, Act, Step;
    var h := Th(At(es, n).threads, th);
    var x := es[a].token;
    CommitCounts(es, c);
    CommitsGrow(es, c + 1, a);
    RunInv(es, a);
    FlyingNotCurrent(At(es, a), sc, x);
    if h.key.gens[sc] == x {
      HitsAreFresh(es, n, th, sc, a, t);
    } else {
      LandingInstalls(es, a, sc);
      CommitsGrow(es, a, a + 1);
      HitsAreFresh(es, n, th, sc, a + 1, t);
    }
  }

  lemma {:induction false} FlyingNotCurrent(s: Sys, sc: Scope, x: Token)
    requires Inv(s) && x in s.flying
    ensures !Current(s, sc, x)
  {
    hide StoreOk, FencesOk, LocksOk, IndexesOk, ThreadsOk, YoungestOk;
  }

  lemma {:induction false} CommitCounts(es: seq<Event>, c: nat)
    requires c < |es| && es[c].Commit?
    ensures |At(es, c + 1).commits| == |At(es, c).commits| + 1
  {
  }

  lemma {:induction false} LandingInstalls(es: seq<Event>, a: nat, sc: Scope)
    requires a < |es| && es[a].Land? && es[a].token in At(es, a).flying
    requires At(es, a).flying[es[a].token] == Write(sc, false)
    ensures Current(At(es, a + 1), sc, es[a].token)
  {
  }

  // ----- the promise to the process that invalidates -----

  lemma {:induction false} FencesGrow(es: seq<Event>, i: nat, m: nat, p: nat, sc: Scope)
    requires i <= m <= |es|
    ensures FenceOf(At(es, i).fence, p, sc) <= FenceOf(At(es, m).fence, p, sc)
    decreases m
  {
    hide Inv, Act, Forward, Honest;
    if i < m {
      FencesGrow(es, i, m - 1, p, sc);
      RunInv(es, m - 1);
      FencesArePast(At(es, m - 1), p, sc);
      ActInv(At(es, m - 1), es[m - 1]);
    }
  }

  lemma {:induction false} FencesArePast(s: Sys, p: nat, sc: Scope)
    requires Inv(s)
    ensures FenceOf(s.fence, p, sc) <= |s.commits|
  {
    hide TokensOk, StoreOk, LocksOk, IndexesOk, ThreadsOk;
  }

  /** Local invalidation.  Once `invalidate_model` has begun in a process (and so once
      it has returned), no lookup confirmed later in that process is a hit on rows read
      before it, for any query whose scopes include the invalidated one; whether the
      rotation succeeded, failed or is still on its way, whether deletes failed, and
      whatever clears and fills ran in between. */
  lemma {:induction false} InvalidationIsFinal(es: seq<Event>, i: nat, m: nat, th: Tid, t: Table)
    requires i < m < |es|
    requires var e := es[i];
             && e.StartInvalidate? && e.th.pid == th.pid && e.names != {}
             && Th(At(es, i).threads, e.th).Idle? && Free(At(es, i), e.th)
    requires es[m] == CheckDone(th) && !Th(At(es, m).threads, th).Hit?
    requires var h := Th(At(es, m + 1).threads, th);
             && h.Hit? && es[i].model in h.key.query.models && es[i].db in {"*", h.key.query.db}
             && t in Tables(h.key.query)
    ensures var h := Th(At(es, m + 1).threads, th); t in h.rows && |At(es, i).commits| <= h.rows[t]
  {
    hide Inv, Act, Forward, Calm;
    var sc := Scope(es[i].model, es[i].db);
    InvalidationFences(es, i);
    FencesGrow(es, i + 1, m, th.pid, sc);
    RunInv(es, m);
    ActInv(At(es, m), es[m]);
    ConfirmedAfterFence(At(es, m), th, Th(At(es, m + 1).threads, th), sc, t);
  }

  /** The lookup that confirms a hit holds the lock, so no fence can slip in between. */
  lemma {:induction false} ConfirmedAfterFence(s: Sys, th: Tid, hit: Thread, sc: Scope, t: Table)
    requires Inv(s) && hit.Hit? && Confirms(Th(s.threads, th), hit)
    requires sc in Scopes(hit.key.query) && t in Tables(hit.key.query)
    ensures t in hit.rows && FenceOf(s.fence, th.pid, sc) <= hit.rows[t]
  {
    hide Inv;
    ThreadAt(s, th);
  }

  lemma {:induction false} InvalidationFences(es: seq<Event>, i: nat)
    requires i < |es|
    requires var e := es[i];
             && e.StartInvalidate? && e.names != {}
             && Th(At(es, i).threads, e.th).Idle? && Free(At(es, i), e.th)
    ensures FenceOf(At(es, i + 1).fence, es[i].th.pid, Scope(es[i].model, es[i].db)) == |At(es, i).commits|
  {
  }

  /** Over every run, in every process, the two indexes are inverse relations without
      empty buckets, and every blocked key is still indexed. */
  lemma {:induction false} IndexesStayConsistent(es: seq<Event>, n: nat, p: nat)
    requires n <= |es|
    ensures Consistent(LocalOf(At(es, n).local, p))
  {
    hide TokensOk, StoreOk, FencesOk, LocksOk, ThreadsOk, Consistent, Act, Step;
    RunInv(es, n);
  }

  /** Over every run, no reader sends more than three creations for one scope. */
  lemma {:induction false} CreationsAreBounded(es: seq<Event>, n: nat, th: Tid, sc: Scope)
    requires n <= |es|
    ensures var t := Th(At(es, n).threads, th); HasReader(t) && sc in t.rd.tries ==> t.rd.tries[sc] <= 3
  {
    hide Inv, Complete, Act, Step;
    RunInv(es, n);
    ThreadAt(At(es, n), th);
  }

  // ----- falling back to the database -----

  predicate Fills(t: Thread) {
    (t.Snapshotting? || t.Snapshotted? || t.Checking?) && t.fill
  }

  /** Whatever fails while tokens are read or checked, the section ends: its lock is free, no
      bookkeeping and nothing stored has changed, and the thread is done or goes on to SQL,
      the latter exactly after a lookup of `get_or_set`. */
  lemma {:induction false} FailureFallsBack(es: seq<Event>, n: nat, th: Tid)
    requires n < |es| && es[n] == Unavailable(th) && HasReader(Th(At(es, n).threads, th))
    ensures var s, r := At(es, n), At(es, n + 1);
            var t, u := Th(s.threads, th), Th(r.threads, th);
            && Free(r, th) && r.local == s.local && r.results == s.results && r.tokens == s.tokens
            && (u.Idle? || u.Querying?) && (u.Querying? <==> t.Checking? && t.fill)
  {
    hide Inv, Step, DoUnavailable;
    RunInv(es, n);
    UnavailableEnds(At(es, n), th);
    assert Step(At(es, n), es[n]) == DoUnavailable(At(es, n), th).(now := At(es, n).now + 1) by { UnavailableStep(At(es, n), th); }
  }

  lemma {:induction false} UnavailableStep(s: Sys, th: Tid)
    ensures Step(s, Unavailable(th)) == DoUnavailable(s, th).(now := s.now + 1)
  {
    hide DoUnavailable;
  }

  lemma {:induction false} UnavailableEnds(s: Sys, th: Tid)
    requires HasReader(Th(s.threads, th))
    ensures var r := DoUnavailable(s, th);
            var t, u := Th(s.threads, th), Th(r.threads, th);
            && Free(r, th) && r.local == s.local && r.results == s.results && r.tokens == s.tokens
            && (u.Idle? || u.Querying?) && (u.Querying? <==> t.Checking? && t.fill)
  {
    hide Move;
    var t := Th(s.threads, th);
    Leaves(s, th, Idle);
    if t.Checking? { Leaves(s, th, Querying(t.key, LocalOf(s.local, th.pid).generation, map[])); }
  }

  /** A thread that leaves a section gives the lock back. */
  lemma {:induction false} Leaves(s: Sys, th: Tid, t: Thread)
    ensures var r := Move(s, th, t);
            && Th(r.threads, th) == t && r.local == s.local && r.results == s.results && r.tokens == s.tokens
            && (Critical(Th(s.threads, th)) && !Critical(t) ==> Free(r, th))
  {
  }

  /** A miss of `get` never reads the database; a miss of `get_or_set` always does. */
  lemma {:induction false} MissesFill(s: Sys, th: Tid, readFails: bool)
    ensures var t, u := Th(s.threads, th), Th(DoLookup(s, th, readFails).threads, th);
            t.Snapshotted? && !u.Snapshotted? && !u.Checking? ==> if Fills(t) then u.Querying? else u.Idle?
    ensures var t, u := Th(s.threads, th), Th(DoCheckDone(s, th).threads, th);
            t.Checking? && !u.Checking? && !u.Hit? ==> if Fills(t) then u.Querying? else u.Idle?
  {
    hide Register, Move;
    var t, l := Th(s.threads, th), LocalOf(s.local, th.pid);
    if t.Snapshotted? || t.Checking? {
      MissedMoves(s, th, t.key, t.fill);
      if t.Checking? {
        Leaves(SetLocal(s, th.pid, Register(l, t.key, t.key.query.names)), th,
               Hit(t.key, t.rows, map sc | sc in t.rd.got :: t.rd.got[sc].when));
      } else if t.key in s.results {
        Leaves(s, th, Checking(t.key, t.fill, s.results[t.key], StartReader(t.key.gens.Keys)));
      }
    }
  }

  lemma {:induction false} MissedMoves(s: Sys, th: Tid, key: Key, fill: bool)
    ensures var u := Th(Missed(s, th, key, fill).threads, th); if fill then u.Querying? else u.Idle?
  {
  }

  // ----- what is published -----

  /** SQL results are of the past. */
  lemma {:induction false} RowsArePast(es: seq<Event>, n: nat, th: Tid, t: Table)
    requires n <= |es|
    requires var u := Th(At(es, n).threads, th); (u.Querying? || u.Rechecking?) && t in u.rows
    ensures Th(At(es, n).threads, th).rows[t] <= |At(es, n).commits|
  {
    hide Inv, Act, Forward;
    if n > 0 {
      var s := At(es, n - 1);
      RunInv(es, n - 1);
      ActInv(s, es[n - 1]);
      CommitsGrow(es, n - 1, n);
      var before, u := Th(s.threads, th), Th(At(es, n).threads, th);
      if (before.Querying? || before.Rechecking?) && t in before.rows { RowsArePast(es, n - 1, th, t); }
    }
  }

  /** Every token that the second look at the tokens has seen was current at that step, and
      by then SQL had read every table. */
  lemma {:induction false} RecheckedAfterReading(es: seq<Event>, n: nat, th: Tid, sc: Scope, t: Table)
    requires n <= |es|
    requires var u := Th(At(es, n).threads, th); u.Rechecking? && sc in u.rd.got && t in u.rows
    ensures var u := Th(At(es, n).threads, th);
            u.rd.got[sc].when < n && u.rows[t] <= |At(es, u.rd.got[sc].when).commits|
  {
    hide Inv, Act, Forward;
    if n > 0 {
      var s := At(es, n - 1);
      RunInv(es, n - 1);
      ActInv(s, es[n - 1]);
      var before, u := Th(s.threads, th), Th(At(es, n).threads, th);
      if before.Rechecking? && sc in before.rd.got && before.rd.got[sc] == u.rd.got[sc] && before.rows == u.rows {
        RecheckedAfterReading(es, n - 1, th, sc, t);
      } else {
        RowsArePast(es, n - 1, th, t);
      }
    }
  }

  /** The end of a publish sends these rows to the store. */
  ghost predicate Sends(s: Sys, th: Tid, acked: bool, key: Key, rows: Rows) {
    (key, rows) in DoPublishDone(s, th, acked).sets && (key, rows) !in s.sets
  }

  /** Over every run: whatever is sent to be stored, each token of its key was seen to be
      current at a definite step after SQL had read each of its tables. */
  lemma {:induction false} PublishedIsConfirmed(es: seq<Event>, n: nat, key: Key, rows: Rows, sc: Scope, t: Table)
      returns (m: nat)
    requires n < |es| && es[n].PublishDone? && Sends(At(es, n), es[n].th, es[n].acked, key, rows)
    requires sc in key.gens && t in rows
    ensures m < n && Current(At(es, m), sc, key.gens[sc]) && rows[t] <= |At(es, m).commits|
  {
    hide Inv, Step, HasReader, Sends;
    var th := es[n].th;
    PublishSends(At(es, n), th, es[n].acked, key, rows);
    assert HasReader(Th(At(es, n).threads, th)) by { RecheckingReads(Th(At(es, n).threads, th)); }
    RecheckedAfterReading(es, n, th, sc, t);
    Observed(es, n, th, sc);
    m := Th(At(es, n).threads, th).rd.got[sc].when;
  }

  lemma {:induction false} RecheckingReads(t: Thread)
    requires t.Rechecking?
    ensures HasReader(t)
  {
  }

  lemma {:induction false} PublishSends(s: Sys, th: Tid, acked: bool, key: Key, rows: Rows)
    requires Sends(s, th, acked, key, rows)
    ensures var t := Th(s.threads, th);
            && t.Rechecking? && t.key == key && t.rows == rows && t.rd.got.Keys == key.gens.Keys
            && forall sc :: sc in key.gens ==> t.rd.got[sc].token == key.gens[sc]
  {
    MoveKeepsSets();
    hide Move, Publish;
  }

  /** Nothing else sends rows. */
  lemma {:induction false} OnlyPublishSends(s: Sys, e: Event)
    ensures !e.PublishDone? ==> Act(s, e).sets == s.sets
  {
    hide Act;
    if OfReader(e) {
      ReaderSendsNoRows(s, e);
    } else if Shared(e) {
      StoreSendsNoRows(s, e);
    } else if e.StartInvalidate? || e.InvalidateRotated? || e.DeleteKey? {
      InvalidationSendsNoRows(s, e);
    } else if e.StartClear? || e.ClearDone? {
      ClearSendsNoRows(s, e);
    } else if !e.PublishDone? {
      LookupSendsNoRows(s, e);
    }
  }

  predicate OfReader(e: Event) {
    e.StartRotation? || e.RotationAcked? || e.ScanDone? || e.ReadToken? || e.ReadTokens? || e.CreateAnswered?
  }

  lemma {:induction false} ReaderSendsNoRows(s: Sys, e: Event)
    requires OfReader(e)
    ensures Act(s, e).sets == s.sets
  {
    MoveKeepsSets();
    hide Move, Scopes, Tables, Reads, ReaderScopes, Vector;
  }

  lemma {:induction false} StoreSendsNoRows(s: Sys, e: Event)
    requires Shared(e)
    ensures Act(s, e).sets == s.sets
  {
  }

  lemma {:induction false} InvalidationSendsNoRows(s: Sys, e: Event)
    requires e.StartInvalidate? || e.InvalidateRotated? || e.DeleteKey?
    ensures Act(s, e).sets == s.sets
  {
    MoveKeepsSets();
    hide Move, Unregister, Matching, Block, Free, Th, LocalOf;
  }

  lemma {:induction false} ClearSendsNoRows(s: Sys, e: Event)
    requires e.StartClear? || e.ClearDone?
    ensures Act(s, e).sets == s.sets
  {
    MoveKeepsSets();
    hide Move, Cleared, Free, Th, LocalOf;
  }

  lemma {:induction false} LookupSendsNoRows(s: Sys, e: Event)
    requires e.Unavailable? || e.Begin? || e.SnapshotDone? || e.Lookup? || e.CheckDone? || e.ReadTable?
             || e.StartPublish? || e.Leave?
    ensures Act(s, e).sets == s.sets
  {
    MoveKeepsSets();
    hide Move, Register, Scopes, Tables, Reads, ReaderScopes, Vector;
  }

  lemma {:induction false} MoveKeepsSets()
    ensures forall r: Sys, th: Tid, t: Thread :: Move(r, th, t).sets == r.sets
  {
  }
}
