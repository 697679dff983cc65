/** Every event of the coherence protocol keeps the invariant. */
module CoherenceSteps {
  import opened CacheTypes
  import opened CacheIndex
  import opened CoherenceSystem
  import opened CoherenceInvariant

  lemma {:induction false} EnvironmentInv(s: Sys, r: Sys)
    requires Inv(s) && Forward(s, r) && TokensOk(r) && StoreOk(r) && FencesOk(r)
    requires r.threads == s.threads && r.lock == s.lock && r.local == s.local && r.fence == s.fence
    ensures Inv(r)
  {
    hide Consistent, TokensOk, StoreOk, FencesOk, ThreadOk, Forward;
    forall th: Tid ensures ThreadOk(r, th.pid, Th(r.threads, th)) {
      ThreadAt(s, th);
      assert SameFor(s, r, th.pid);
      ThreadForward(s, r, th.pid, Th(s.threads, th));
    }
  }

  lemma {:induction false} CommitInv(s: Sys, table: Table)
    requires Inv(s)
    ensures Inv(s.(commits := s.commits + [table])) && Forward(s, s.(commits := s.commits + [table]))
  {
    hide Consistent, ThreadsOk;
    var r := s.(commits := s.commits + [table]);
    StoreForward(s, r);
    EnvironmentInv(s, r);
  }

  lemma {:induction false} InstallForward(s: Sys, x: Token)
    requires TokensOk(s) && x in s.flying
    ensures Forward(s, Install(s, x, s.flying[x].scope))
  {
    hide YoungestOk;
  }

  /** The token that just arrived is the youngest of its scope. */
  lemma {:induction false} InstallTokens(s: Sys, x: Token, sc: Scope)
    requires TokensOk(s) && x in s.flying
    ensures TokensOk(Install(s, x, sc))
  {
    var r := Install(s, x, sc);
    assert YoungestOk(r.tokens, r.birth) by {
      forall y | y in r.birth && r.birth[y].scope in r.tokens
        ensures r.birth[y].at <= Born(r.birth, r.tokens[r.birth[y].scope])
      {
        if r.birth[y].scope != sc {
          assert y in s.birth;
          assert r.tokens[r.birth[y].scope] == s.tokens[r.birth[y].scope];
        }
      }
    }
    hide YoungestOk;
  }

  /** A create that lost to a present token just disappears. */
  lemma {:induction false} RefusedForward(s: Sys, x: Token)
    requires TokensOk(s)
    ensures Forward(s, s.(flying := s.flying - {x})) && TokensOk(s.(flying := s.flying - {x}))
  {
    hide YoungestOk;
  }

  lemma {:induction false} LandFences(s: Sys, r: Sys)
    requires TokensOk(s) && FencesOk(s) && Forward(s, r) && TokensOk(r)
    requires r.local == s.local && r.fence == s.fence
    ensures FencesOk(r)
  {
    hide LocalOf;
    forall p, sc | sc in r.tokens && sc !in Pending(r.local, p)
      ensures FenceOf(r.fence, p, sc) <= Born(r.birth, r.tokens[sc])
    {
      assert FenceOf(s.fence, p, sc) <= |s.commits|;
    }
  }

  lemma {:induction false} LandInv(s: Sys, x: Token)
    requires Inv(s)
    ensures Inv(DoLand(s, x)) && Forward(s, DoLand(s, x))
  {
    hide Consistent, ThreadsOk, LocksOk, TokensOk, FencesOk, Forward, StoreOk;
    if x in s.flying {
      InstallForward(s, x);
      InstallTokens(s, x, s.flying[x].scope);
      RefusedForward(s, x);
    } else {
      assert Forward(s, s) by { RefusedForward(s, x); assert s.flying - {x} == s.flying; }
    }
    LandFences(s, DoLand(s, x));
    StoreForward(s, DoLand(s, x));
    EnvironmentInv(s, DoLand(s, x));
  }

  lemma {:induction false} LandResultInv(s: Sys, k: Key, rows: Rows)
    requires Inv(s)
    ensures Inv(DoLandResult(s, k, rows)) && Forward(s, DoLandResult(s, k, rows))
  {
    hide Consistent, ThreadsOk, Complete, LocksOk, TokensOk, FencesOk, IndexesOk;
    if (k, rows) in s.sets {
      ResultSentInv(s, k, rows);
      assert s.sets + {(k, rows)} == s.sets;
    }
  }

  lemma {:induction false} EvictTokenInv(s: Sys, sc: Scope)
    requires Inv(s)
    ensures Inv(s.(tokens := s.tokens - {sc})) && Forward(s, s.(tokens := s.tokens - {sc}))
  {
    hide Consistent, ThreadsOk, LocksOk;
    var r := s.(tokens := s.tokens - {sc});
    StoreForward(s, r);
    EnvironmentInv(s, r);
  }

  lemma {:induction false} EvictResultInv(s: Sys, k: Key)
    requires Inv(s)
    ensures Inv(s.(results := s.results - {k})) && Calm(s, s.(results := s.results - {k}))
    ensures Forward(s, s.(results := s.results - {k}))
  {
    hide Consistent, ThreadsOk, LocksOk, YoungestOk, Complete;
    var r := s.(results := s.results - {k});
    StoreForward(s, r);
    EnvironmentInv(s, r);
  }

  /** A token write is sent: nothing that was known about any token changes. */
  lemma {:induction false} SendInv(s: Sys, w: Write)
    requires Inv(s)
    ensures Inv(Send(s, w))
    ensures s.nextToken !in s.birth && Send(s, w).flying[s.nextToken] == w
    ensures Calm(s, Send(s, w))
  {
    hide Consistent, ThreadsOk, LocksOk, YoungestOk;
    StoreForward(s, Send(s, w));
    EnvironmentInv(s, Send(s, w));
  }

  /** Only the local bookkeeping of one process changes, and not what it has pending. */
  lemma {:induction false} LocalForward(s: Sys, p: nat, l: Local)
    requires Inv(s) && Consistent(l)
    ensures Forward(s, SetLocal(s, p, l)) && TokensOk(SetLocal(s, p, l)) && StoreOk(SetLocal(s, p, l))
    ensures IndexesOk(SetLocal(s, p, l))
    ensures forall q :: q != p ==> SameFor(s, SetLocal(s, p, l), q)
    ensures LocalOf(s.local, p).pending <= l.pending ==> FencesOk(SetLocal(s, p, l))
  {
    hide Consistent, ThreadsOk, LocksOk, Complete;
    var r := SetLocal(s, p, l);
    forall q ensures Consistent(LocalOf(r.local, q)) {
      assert Consistent(LocalOf(s.local, q));
    }
    assert forall q :: q != p ==> Pending(r.local, q) == Pending(s.local, q);
    if LocalOf(s.local, p).pending <= l.pending {
      forall q, sc | sc in r.tokens && sc !in Pending(r.local, q)
        ensures FenceOf(r.fence, q, sc) <= Born(r.birth, r.tokens[sc])
      {
        assert sc !in Pending(s.local, q);
      }
    }
  }

  /** A step in which only the thread itself changes. */
  lemma {:induction false} OnlyThreadInv(s: Sys, th: Tid, t: Thread)
    requires Inv(s) && ThreadOk(s, th.pid, t) && Honest(s, Th(s.threads, th), t)
    requires Critical(t) ==> Critical(Th(s.threads, th)) || Free(s, th)
    ensures Good(s, Move(s, th, t), th)
  {
    hide TokensOk, StoreOk, FencesOk, IndexesOk, ThreadsOk, ThreadOk, LocksOk, Honest;
    MoveInv(s, s, th, t);
  }

  /** A step in which the thread and its process's bookkeeping change. */
  lemma {:induction false} LocalMoveInv(s: Sys, th: Tid, l: Local, t: Thread)
    requires Inv(s) && Consistent(l) && ThreadOk(SetLocal(s, th.pid, l), th.pid, t)
    requires FencesOk(SetLocal(s, th.pid, l)) && Honest(s, Th(s.threads, th), t)
    requires Critical(Th(s.threads, th)) || Free(s, th)
    ensures Good(s, Move(SetLocal(s, th.pid, l), th, t), th)
  {
    hide TokensOk, StoreOk, FencesOk, IndexesOk, ThreadsOk, ThreadOk, LocksOk, Consistent, SameFor, Forward, Honest;
    LocalForward(s, th.pid, l);
    MoveInv(s, SetLocal(s, th.pid, l), th, t);
  }

  lemma {:induction false} StartRotationInv(s: Sys, th: Tid, sc: Scope)
    requires Inv(s)
    ensures Good(s, DoStartRotation(s, th, sc), th)
  {
    hide TokensOk, StoreOk, FencesOk, IndexesOk, ThreadsOk, LocksOk, Complete, Calm, Inv;
    var t := Th(s.threads, th);
    ThreadAt(s, th);
    Stutter(s, th);
    if HasReader(t) && t.rd.stage.Scan? && sc in t.rd.stage.todo && sc in LocalOf(s.local, th.pid).pending {
      SendInv(s, Write(sc, false));
      var m := Send(s, Write(sc, false));
      ThreadAt(m, th);
      var u := Reads(t, t.rd.(stage := Rotating(t.rd.stage.todo, sc, s.nextToken)));
      OnlyThreadInv(m, th, u);
      GoodAfter(s, m, Move(m, th, u), th);
    }
  }

  /** A rotation that arrived closes the window its scope was pending for. */
  lemma {:induction false} FencesAfterAck(s: Sys, p: nat, l: Local, sc: Scope, x: Token)
    requires Inv(s) && RotationOk(s, p, sc, x) && x in s.birth
    requires LocalOf(s.local, p).pending <= l.pending + {sc}
    ensures FencesOk(SetLocal(s, p, l))
  {
    hide Consistent, ThreadsOk, LocksOk, StoreOk, IndexesOk;
    var m := SetLocal(s, p, l);
    forall q, sc' | sc' in m.tokens && sc' !in Pending(m.local, q)
      ensures FenceOf(m.fence, q, sc') <= Born(m.birth, m.tokens[sc'])
    {
      if q == p && sc' == sc {
        assert s.birth[x].scope == sc;
      } else {
        assert sc' !in Pending(s.local, q);
      }
    }
  }

  lemma {:induction false} RotationAckedInv(s: Sys, th: Tid)
    requires Inv(s)
    ensures Good(s, DoRotationAcked(s, th), th)
  {
    hide TokensOk, StoreOk, FencesOk, IndexesOk, ThreadsOk, LocksOk, Complete, Consistent, Calm, Inv;
    var t := Th(s.threads, th);
    ThreadAt(s, th);
    Stutter(s, th);
    if HasReader(t) && t.rd.stage.Rotating? && t.rd.stage.token in s.birth {
      var l := LocalOf(s.local, th.pid);
      var sc := t.rd.stage.scope;
      var l' := l.(pending := l.pending - {sc});
      IndexSame(l, l');
      FencesAfterAck(s, th.pid, l', sc, t.rd.stage.token);
      var u := Reads(t, t.rd.(stage := Scan(t.rd.stage.todo - {sc})));
      AckedThreadOk(s, th.pid, l', t);
      assert Honest(s, t, u);
      hide ThreadOk, Honest, Reads;
      LocalMoveInv(s, th, l', u);
    }
  }

  lemma {:induction false} AckedThreadOk(s: Sys, p: nat, l: Local, t: Thread)
    requires HasReader(t) && t.rd.stage.Rotating? && ThreadOk(s, p, t)
    requires l.pending == Pending(s.local, p) - {t.rd.stage.scope}
    ensures ThreadOk(SetLocal(s, p, l), p, Reads(t, t.rd.(stage := Scan(t.rd.stage.todo - {t.rd.stage.scope}))))
  {
    hide Complete, RotationOk;
  }

  lemma {:induction false} SplitDisjoint(all: set<Scope>, todo: set<Scope>, pending: set<Scope>)
    requires (all - todo) !! pending && todo * pending == {}
    ensures all !! pending
  {
    forall sc | sc in all && sc in pending ensures sc in (all - todo) * pending + todo * pending {
    }
  }

  lemma {:induction false} ScanDoneInv(s: Sys, th: Tid)
    requires Inv(s)
    ensures Good(s, DoScanDone(s, th), th)
  {
    hide TokensOk, StoreOk, FencesOk, IndexesOk, ThreadsOk, LocksOk, Complete, Consistent, Calm, Inv;
    var t := Th(s.threads, th);
    ThreadAt(s, th);
    Stutter(s, th);
    if HasReader(t) && t.rd.stage.Scan? && t.rd.stage.todo * LocalOf(s.local, th.pid).pending == {} {
      var scopes := ReaderScopes(t);
      SplitDisjoint(scopes, t.rd.stage.todo, Pending(s.local, th.pid));
      OnlyThreadInv(s, th, Reads(t, t.rd.(stage := Reading)));
    }
  }

  lemma {:induction false} ReadTokensInv(s: Sys, th: Tid)
    requires Inv(s)
    ensures Good(s, DoReadTokens(s, th), th)
  {
    hide StoreOk, IndexesOk, ThreadsOk, LocksOk, Complete, Consistent, Calm;
    var t := Th(s.threads, th);
    ThreadAt(s, th);
    Stutter(s, th);
    if HasReader(t) && t.rd.stage.Reading? {
      OnlyThreadInv(s, th, Reads(t, t.rd.(got := map sc | sc in ReaderScopes(t) && sc in s.tokens :: Obs(s.tokens[sc], s.now))));
    }
  }

  lemma {:induction false} CreateAnsweredInv(s: Sys, th: Tid)
    requires Inv(s)
    ensures Good(s, DoCreateAnswered(s, th), th)
  {
    hide TokensOk, StoreOk, FencesOk, IndexesOk, ThreadsOk, LocksOk, Complete, Consistent, Calm, Inv;
    var t := Th(s.threads, th);
    ThreadAt(s, th);
    Stutter(s, th);
    if HasReader(t) && t.rd.stage.Creating? {
      OnlyThreadInv(s, th, Reads(t, t.rd.(stage := Reading)));
    }
  }

  lemma {:induction false} ReadTokenInv(s: Sys, th: Tid, sc: Scope)
    requires Inv(s)
    ensures Good(s, DoReadToken(s, th, sc), th)
  {
    hide TokensOk, StoreOk, FencesOk, IndexesOk, ThreadsOk, LocksOk, Complete, Consistent, Calm, ReaderOk, Inv;
    var t := Th(s.threads, th);
    ThreadAt(s, th);
    Stutter(s, th);
    if HasReader(t) && t.rd.stage.Reading? && sc in ReaderScopes(t) - t.rd.got.Keys {
      if sc in s.tokens {
        SeeTokenInv(s, th, sc);
      } else {
        TriesAt(s, th);
        var tries := if sc in t.rd.tries then t.rd.tries[sc] else 0;
        if tries < ATTEMPTS { CreateInv(s, th, sc, t.rd.tries[sc := tries + 1]); }
      }
    }
  }

  lemma {:induction false} SeeTokenInv(s: Sys, th: Tid, sc: Scope)
    requires Inv(s) && HasReader(Th(s.threads, th)) && Th(s.threads, th).rd.stage.Reading?
    requires sc in ReaderScopes(Th(s.threads, th)) && sc in s.tokens
    ensures var t := Th(s.threads, th);
            Good(s, Move(s, th, Reads(t, t.rd.(got := t.rd.got[sc := Obs(s.tokens[sc], s.now)]))), th)
  {
    hide StoreOk, IndexesOk, ThreadsOk, LocksOk, Complete, Consistent, Calm, YoungestOk;
    var t := Th(s.threads, th);
    ThreadAt(s, th);
    OnlyThreadInv(s, th, Reads(t, t.rd.(got := t.rd.got[sc := Obs(s.tokens[sc], s.now)])));
  }

  lemma {:induction false} TriesAt(s: Sys, th: Tid)
    requires Inv(s) && HasReader(Th(s.threads, th))
    ensures forall sc :: sc in Th(s.threads, th).rd.tries ==> Th(s.threads, th).rd.tries[sc] <= 3
  {
    hide TokensOk, StoreOk, FencesOk, IndexesOk, LocksOk, Complete;
  }

  lemma {:induction false} CreateInv(s: Sys, th: Tid, sc: Scope, tries: map<Scope, nat>)
    requires Inv(s) && HasReader(Th(s.threads, th)) && Th(s.threads, th).rd.stage.Reading?
    requires forall x :: x in tries ==> tries[x] <= 3
    ensures Good(s, Move(Send(s, Write(sc, true)), th,
                         Reads(Th(s.threads, th), Th(s.threads, th).rd.(stage := Creating(sc, s.nextToken), tries := tries))), th)
  {
    hide TokensOk, StoreOk, FencesOk, IndexesOk, ThreadsOk, LocksOk, Complete, Consistent, Calm, Inv;
    var t := Th(s.threads, th);
    var m := Send(s, Write(sc, true));
    SendInv(s, Write(sc, true));
    ThreadAt(m, th);
    var u := Reads(t, t.rd.(stage := Creating(sc, s.nextToken), tries := tries));
    OnlyThreadInv(m, th, u);
    GoodAfter(s, m, Move(m, th, u), th);
  }

  /** Any section may end in a miss: a get_or_set thread goes on to SQL with no rows yet. */
  lemma {:induction false} MissedInv(s: Sys, th: Tid, key: Key, fill: bool)
    requires Inv(s) && KeyOk(s.birth, key)
    ensures Good(s, Missed(s, th, key, fill), th) && Good(s, Move(s, th, Idle), th)
  {
    hide TokensOk, StoreOk, FencesOk, IndexesOk, ThreadsOk, LocksOk, KeyOk, Consistent;
    OnlyThreadInv(s, th, Idle);
    OnlyThreadInv(s, th, Querying(key, LocalOf(s.local, th.pid).generation, map[]));
  }

  lemma {:induction false} UnavailableInv(s: Sys, th: Tid)
    requires Inv(s)
    ensures Good(s, DoUnavailable(s, th), th)
  {
    hide TokensOk, StoreOk, FencesOk, IndexesOk, ThreadsOk, LocksOk, KeyOk, Consistent, Calm, Inv;
    var t := Th(s.threads, th);
    ThreadAt(s, th);
    Stutter(s, th);
    OnlyThreadInv(s, th, Idle);
    if t.Checking? {
      MissedInv(s, th, t.key, t.fill);
    }
  }

  lemma {:induction false} BeginInv(s: Sys, th: Tid, q: Query, fill: bool)
    requires Inv(s)
    ensures Good(s, DoBegin(s, th, q, fill), th)
  {
    hide TokensOk, StoreOk, FencesOk, IndexesOk, ThreadsOk, LocksOk, KeyOk, Consistent, Calm, Inv;
    Stutter(s, th);
    if Th(s.threads, th).Idle? && Free(s, th) && q.names != {} {
      OnlyThreadInv(s, th, Snapshotting(q, fill, StartReader(Scopes(q))));
    }
  }

  lemma {:induction false} SnapshotDoneInv(s: Sys, th: Tid)
    requires Inv(s)
    ensures Good(s, DoSnapshotDone(s, th), th)
  {
    hide TokensOk, StoreOk, FencesOk, IndexesOk, ThreadsOk, LocksOk, Consistent, Calm, Inv;
    var t := Th(s.threads, th);
    ThreadAt(s, th);
    Stutter(s, th);
    if t.Snapshotting? && ReadAll(t) {
      OnlyThreadInv(s, th, Snapshotted(Key(t.query, Vector(t.rd.got)), t.fill));
    }
  }

  lemma {:induction false} LookupInv(s: Sys, th: Tid, readFails: bool)
    requires Inv(s)
    ensures Good(s, DoLookup(s, th, readFails), th)
  {
    hide TokensOk, FencesOk, IndexesOk, ThreadsOk, LocksOk, KeyOk, Consistent, Calm;
    var t := Th(s.threads, th);
    ThreadAt(s, th);
    Stutter(s, th);
    if t.Snapshotted? && Free(s, th) {
      MissedInv(s, th, t.key, t.fill);
      if t.key in s.results {
        OnlyThreadInv(s, th, Checking(t.key, t.fill, s.results[t.key], StartReader(t.key.gens.Keys)));
      }
    }
  }

  lemma {:induction false} CheckDoneInv(s: Sys, th: Tid)
    requires Inv(s)
    ensures Good(s, DoCheckDone(s, th), th)
  {
    hide TokensOk, StoreOk, FencesOk, IndexesOk, ThreadsOk, LocksOk, Consistent, Calm, Inv, Forward, SameFor;
    var t := Th(s.threads, th);
    ThreadAt(s, th);
    Stutter(s, th);
    if t.Checking? && ReadAll(t) {
      if Vector(t.rd.got) == t.key.gens {
        var l := LocalOf(s.local, th.pid);
        RegisterConsistent(l, t.key, t.key.query.names);
        LocalForward(s, th.pid, Register(l, t.key, t.key.query.names));
        LocalMoveInv(s, th, Register(l, t.key, t.key.query.names),
                     Hit(t.key, t.rows, map sc | sc in t.rd.got :: t.rd.got[sc].when));
      } else {
        MissedInv(s, th, t.key, t.fill);
      }
    }
  }

  lemma {:induction false} ReadTableInv(s: Sys, th: Tid, table: Table)
    requires Inv(s)
    ensures Good(s, DoReadTable(s, th, table), th)
  {
    hide StoreOk, FencesOk, IndexesOk, ThreadsOk, LocksOk, Consistent, Calm;
    var t := Th(s.threads, th);
    ThreadAt(s, th);
    Stutter(s, th);
    if t.Querying? && table in Tables(t.key.query) - t.rows.Keys {
      OnlyThreadInv(s, th, Querying(t.key, t.generation, t.rows[table := |s.commits|]));
    }
  }

  lemma {:induction false} StartPublishInv(s: Sys, th: Tid)
    requires Inv(s)
    ensures Good(s, DoStartPublish(s, th), th)
  {
    hide TokensOk, StoreOk, FencesOk, IndexesOk, ThreadsOk, LocksOk, ReadAfter, Consistent, Calm, Inv;
    var t := Th(s.threads, th);
    ThreadAt(s, th);
    Stutter(s, th);
    if t.Querying? && t.rows.Keys == Tables(t.key.query) && Free(s, th) {
      OnlyThreadInv(s, th, Rechecking(t.key, t.rows, StartReader(t.key.gens.Keys)));
      OnlyThreadInv(s, th, Idle);
    }
  }

  lemma {:induction false} LeaveInv(s: Sys, th: Tid)
    requires Inv(s)
    ensures Good(s, DoLeave(s, th), th)
  {
    hide Inv, Calm;
    Stutter(s, th);
    OnlyThreadInv(s, th, Idle);
  }

  lemma {:induction false} PublishConsistent(l: Local, key: Key)
    requires Consistent(l) && key.query.names != {}
    ensures Consistent(Publish(l, key)) && Publish(l, key).pending == l.pending
  {
    RegisterConsistent(l, key, key.query.names);
    var r, p := Register(l, key, key.query.names), Publish(l, key);
    forall n, k ensures k in Bucket(p, n) <==> n in NamesOf(p, k) {
      assert k in Bucket(r, n) <==> n in NamesOf(r, k);
    }
  }

  /** Sending a complete result, and its arrival, in any combination. */
  lemma {:induction false} ResultSentInv(s: Sys, key: Key, rows: Rows)
    requires Inv(s) && Complete(s.birth, key, rows)
    ensures Inv(s.(sets := s.sets + {(key, rows)}))
    ensures Inv(s.(sets := s.sets + {(key, rows)}, results := s.results[key := rows]))
    ensures Calm(s, s.(sets := s.sets + {(key, rows)}))
    ensures Calm(s, s.(sets := s.sets + {(key, rows)}, results := s.results[key := rows]))
  {
    hide Inv, Calm;
    var sent := s.(sets := s.sets + {(key, rows)});
    SentInv(s, key, rows);
    StoredInv(sent, key, rows);
    CalmResults(s, sent);
    CalmResults(s, sent.(results := s.results[key := rows]));
    assert sent.(results := s.results[key := rows]) == s.(sets := s.sets + {(key, rows)}, results := s.results[key := rows]);
  }

  lemma {:induction false} SentInv(s: Sys, key: Key, rows: Rows)
    requires Inv(s) && Complete(s.birth, key, rows)
    ensures Inv(s.(sets := s.sets + {(key, rows)}))
  {
    hide Complete, LocksOk, ThreadsOk, Consistent;
    EnvironmentInv(s, s.(sets := s.sets + {(key, rows)}));
  }

  lemma {:induction false} StoredInv(s: Sys, key: Key, rows: Rows)
    requires Inv(s) && Complete(s.birth, key, rows)
    ensures Inv(s.(results := s.results[key := rows]))
  {
    hide Complete, LocksOk, ThreadsOk, Consistent;
    EnvironmentInv(s, s.(results := s.results[key := rows]));
  }

  lemma {:induction false} CalmResults(s: Sys, r: Sys)
    requires r == s.(sets := r.sets, results := r.results)
    ensures Calm(s, r)
  {
  }

  lemma {:induction false} PublishDoneInv(s: Sys, th: Tid, acked: bool)
    requires Inv(s)
    ensures Good(s, DoPublishDone(s, th, acked), th)
  {
    hide TokensOk, StoreOk, FencesOk, IndexesOk, ThreadsOk, LocksOk, Consistent, Publish, Forward, SameFor, ReaderOk, Calm, Inv;
    var t := Th(s.threads, th);
    ThreadAt(s, th);
    Stutter(s, th);
    if t.Rechecking? && ReadAll(t) {
      hide Move;
      OnlyThreadInv(s, th, Idle);
      SentWithoutAck(s, th, t.key, t.rows);
      PublishedInv(s, th, t.key, t.rows);
    }
  }

  lemma {:induction false} SentWithoutAck(s: Sys, th: Tid, key: Key, rows: Rows)
    requires Inv(s) && Complete(s.birth, key, rows)
    ensures Good(s, Move(s.(sets := s.sets + {(key, rows)}), th, Idle), th)
  {
    hide TokensOk, StoreOk, FencesOk, IndexesOk, ThreadsOk, LocksOk, Complete, Calm, Inv, Move;
    ResultSentInv(s, key, rows);
    var sent := s.(sets := s.sets + {(key, rows)});
    OnlyThreadInv(sent, th, Idle);
    GoodAfter(s, sent, Move(sent, th, Idle), th);
  }

  /** The write was acknowledged: the entry is stored, indexed and readable. */
  lemma {:induction false} PublishedInv(s: Sys, th: Tid, key: Key, rows: Rows)
    requires Inv(s) && Complete(s.birth, key, rows) && Th(s.threads, th).Rechecking?
    ensures var stored := s.(sets := s.sets + {(key, rows)}, results := s.results[key := rows]);
            Good(s, Move(SetLocal(stored, th.pid, Publish(LocalOf(s.local, th.pid), key)), th, Idle), th)
  {
    hide TokensOk, StoreOk, FencesOk, IndexesOk, ThreadsOk, LocksOk, Complete, Calm, Inv, Move, Consistent, Publish;
    ThreadAt(s, th);
    NamesNotEmpty(s.birth, key, rows);
    ResultSentInv(s, key, rows);
    var stored := s.(sets := s.sets + {(key, rows)}, results := s.results[key := rows]);
    var l := Publish(LocalOf(s.local, th.pid), key);
    PublishConsistent(LocalOf(s.local, th.pid), key);
    LocalForward(stored, th.pid, l);
    LocalMoveInv(stored, th, l, Idle);
    GoodAfter(s, stored, Move(SetLocal(stored, th.pid, l), th, Idle), th);
  }

  lemma {:induction false} NamesNotEmpty(birth: map<Token, Landing>, key: Key, rows: Rows)
    requires Complete(birth, key, rows)
    ensures key.query.names != {}
  {
  }

  /** The scope is fenced and pending at once; nothing else of the process is. */
  lemma {:induction false} FencedInv(s: Sys, p: nat, l: Local, sc: Scope)
    requires Inv(s) && Consistent(l) && l.pending == LocalOf(s.local, p).pending + {sc}
    ensures var m := SetLocal(s, p, l).(fence := s.fence[(p, sc) := |s.commits|]);
            && Forward(s, m) && TokensOk(m) && StoreOk(m) && FencesOk(m) && IndexesOk(m)
            && Calm(s, m)
            && forall q :: q != p ==> SameFor(s, m, q)
  {
    hide TokensOk, StoreOk, FencesOk, IndexesOk, ThreadsOk, LocksOk, Consistent, Forward, Calm, SameFor;
    LocalForward(s, p, l);
    var m := SetLocal(s, p, l);
    LocalIsCalm(s, p, l);
    FenceRaised(m, p, sc);
    FenceIsNoShare(s, m, m.(fence := s.fence[(p, sc) := |s.commits|]), p, sc);
  }

  lemma {:induction false} LocalIsCalm(s: Sys, p: nat, l: Local)
    ensures Calm(s, SetLocal(s, p, l)) && LocalOf(SetLocal(s, p, l).local, p) == l
  {
  }

  /** Fencing a scope that is pending keeps what is known of the shared part. */
  lemma {:induction false} FenceRaised(m: Sys, p: nat, sc: Scope)
    requires TokensOk(m) && StoreOk(m) && FencesOk(m) && IndexesOk(m) && sc in Pending(m.local, p)
    ensures var r := m.(fence := m.fence[(p, sc) := |m.commits|]);
            TokensOk(r) && StoreOk(r) && FencesOk(r) && IndexesOk(r)
  {
    hide Consistent, Complete, YoungestOk;
    var fence := m.fence[(p, sc) := |m.commits|];
    forall q, sc' ensures FenceOf(fence, q, sc') == if q == p && sc' == sc then |m.commits| else FenceOf(m.fence, q, sc') {
    }
  }

  lemma {:induction false} FenceIsNoShare(s: Sys, m: Sys, r: Sys, p: nat, sc: Scope)
    requires Forward(s, m) && Calm(s, m) && m.fence == s.fence && r == m.(fence := s.fence[(p, sc) := |s.commits|])
    requires forall q :: q != p ==> SameFor(s, m, q)
    ensures Forward(s, r) && Calm(s, r) && forall q :: q != p ==> SameFor(s, r, q)
  {
    forall q | q != p ensures SameFor(s, r, q) {
      assert SameFor(s, m, q);
      assert forall sc' :: FenceOf(r.fence, q, sc') == FenceOf(s.fence, q, sc');
    }
  }

  lemma {:induction false} StartInvalidateInv(s: Sys, th: Tid, model: string, names: set<string>, db: string)
    requires Inv(s)
    ensures Good(s, DoStartInvalidate(s, th, model, names, db), th)
  {
    hide TokensOk, StoreOk, FencesOk, IndexesOk, ThreadsOk, LocksOk, Consistent, SameFor, Forward, Calm, Inv;
    Stutter(s, th);
    if Th(s.threads, th).Idle? && Free(s, th) && names != {} {
      var sc := Scope(model, db);
      SendInv(s, Write(sc, false));
      var sent := Send(s, Write(sc, false));
      var l := LocalOf(s.local, th.pid);
      ThreadAt(s, th);
      var l' := l.(generation := l.generation + 1, pending := l.pending + {sc});
      IndexSame(l, l');
      var f := SetLocal(sent, th.pid, l').(fence := s.fence[(th.pid, sc) := |s.commits|]);
      FencedMoveInv(sent, th, l', sc, s.nextToken, names, db);
      GoodAfter(s, sent, Move(f, th, Invalidating(sc, s.nextToken, names, db)), th);
    }
  }

  lemma {:induction false} FencedMoveInv(s: Sys, th: Tid, l: Local, sc: Scope, x: Token, names: set<string>, db: string)
    requires Inv(s) && Consistent(l) && l.pending == LocalOf(s.local, th.pid).pending + {sc}
    requires Th(s.threads, th).Idle? && Free(s, th)
    requires x < s.nextToken && x !in s.birth && x in s.flying && s.flying[x] == Write(sc, false)
    ensures var f := SetLocal(s, th.pid, l).(fence := s.fence[(th.pid, sc) := |s.commits|]);
            Good(s, Move(f, th, Invalidating(sc, x, names, db)), th)
  {
    hide TokensOk, StoreOk, FencesOk, IndexesOk, ThreadsOk, LocksOk, Consistent, SameFor, Forward, Calm, Inv;
    FencedInv(s, th.pid, l, sc);
    MoveInv(s, SetLocal(s, th.pid, l).(fence := s.fence[(th.pid, sc) := |s.commits|]), th, Invalidating(sc, x, names, db));
  }

  lemma {:induction false} InvalidateRotatedInv(s: Sys, th: Tid, acked: bool)
    requires Inv(s)
    ensures Good(s, DoInvalidateRotated(s, th, acked), th)
  {
    hide TokensOk, StoreOk, FencesOk, IndexesOk, ThreadsOk, LocksOk, Consistent, Calm, Inv;
    var t := Th(s.threads, th);
    ThreadAt(s, th);
    Stutter(s, th);
    if t.Invalidating? && (acked ==> t.token in s.birth) {
      var l0 := LocalOf(s.local, th.pid);
      var l := if acked then l0.(pending := l0.pending - {t.scope}) else l0;
      IndexSame(l0, l);
      MatchingIndexed(l, t.names, t.db);
      var keys := Matching(l, t.names, t.db);
      LocalForward(s, th.pid, Block(l, keys));
      if acked {
        FencesAfterAck(s, th.pid, Block(l, keys), t.scope, t.token);
      }
      LocalMoveInv(s, th, Block(l, keys), Deleting(keys));
    }
  }

  /** A delete that was applied; if it was also acknowledged, the key is forgotten. */
  lemma {:induction false} DeletedInv(s: Sys, th: Tid, key: Key, u: Thread)
    requires Inv(s) && Th(s.threads, th).Deleting? && (u.Idle? || u.Deleting?)
    ensures Good(s, Move(s.(results := s.results - {key}), th, u), th)
    ensures Good(s, Move(SetLocal(s, th.pid, Unregister(LocalOf(s.local, th.pid), key)).(results := s.results - {key}), th, u), th)
  {
    hide TokensOk, StoreOk, FencesOk, IndexesOk, ThreadsOk, LocksOk, Consistent, Calm, Inv, Unregister;
    var l := LocalOf(s.local, th.pid);
    ThreadAt(s, th);
    UnregisterConsistent(l, key);
    EvictResultInv(s, key);
    var gone := s.(results := s.results - {key});
    OnlyThreadInv(gone, th, u);
    GoodAfter(s, gone, Move(gone, th, u), th);
    LocalForward(gone, th.pid, Unregister(l, key));
    LocalMoveInv(gone, th, Unregister(l, key), u);
    GoodAfter(s, gone, Move(SetLocal(gone, th.pid, Unregister(l, key)), th, u), th);
  }

  lemma {:induction false} DeleteKeyInv(s: Sys, th: Tid, key: Key, acked: bool, applied: bool)
    requires Inv(s)
    ensures Good(s, DoDeleteKey(s, th, key, acked, applied), th)
  {
    hide ThreadsOk, Calm, Inv, Unregister, Good;
    var t := Th(s.threads, th);
    Stutter(s, th);
    if t.Deleting? {
      if key in t.todo {
        var left := t.todo - {key};
        var u := if left == {} then Idle else Deleting(left);
        OnlyThreadInv(s, th, u);
        DeletedInv(s, th, key, u);
      } else if t.todo == {} {
        OnlyThreadInv(s, th, Idle);
      }
    }
  }

  lemma {:induction false} StartClearInv(s: Sys, th: Tid)
    requires Inv(s)
    ensures Good(s, DoStartClear(s, th), th)
  {
    hide TokensOk, StoreOk, FencesOk, IndexesOk, ThreadsOk, LocksOk, Consistent, Calm, Inv;
    Stutter(s, th);
    if Th(s.threads, th).Idle? && Free(s, th) {
      var l := LocalOf(s.local, th.pid);
      ThreadAt(s, th);
      IndexSame(l, l.(generation := l.generation + 1));
      LocalForward(s, th.pid, l.(generation := l.generation + 1));
      LocalMoveInv(s, th, l.(generation := l.generation + 1), Clearing(s.tokens));
    }
  }

  /** An acknowledged clear: whatever token is current now arrived after it began. */
  lemma {:induction false} FencesAfterClear(s: Sys, p: nat, doomed: map<Scope, Token>, l: Local)
    requires Inv(s) && DoomedOk(s, p, doomed)
    requires forall sc :: sc in doomed && sc in s.tokens ==> s.tokens[sc] != doomed[sc]
    ensures FencesOk(SetLocal(s, p, l))
  {
    hide ThreadsOk, LocksOk, StoreOk, IndexesOk;
    var m := SetLocal(s, p, l);
    forall q, sc | sc in m.tokens && sc !in Pending(m.local, q)
      ensures FenceOf(m.fence, q, sc) <= Born(m.birth, m.tokens[sc])
    {
      if q != p { assert sc !in Pending(s.local, q); }
    }
  }

  lemma {:induction false} ClearDoneInv(s: Sys, th: Tid, acked: bool)
    requires Inv(s)
    ensures Good(s, DoClearDone(s, th, acked), th)
  {
    hide TokensOk, StoreOk, FencesOk, IndexesOk, ThreadsOk, LocksOk, Calm, Inv;
    var t := Th(s.threads, th);
    ThreadAt(s, th);
    Stutter(s, th);
    if t.Clearing? {
      var l := LocalOf(s.local, th.pid);
      if !acked {
        IndexSame(l, l.(clearFailed := true));
        LocalForward(s, th.pid, l.(clearFailed := true));
        LocalMoveInv(s, th, l.(clearFailed := true), Idle);
      } else if forall sc :: sc in t.doomed && sc in s.tokens ==> s.tokens[sc] != t.doomed[sc] {
        FencesAfterClear(s, th.pid, t.doomed, Cleared(l));
        LocalMoveInv(s, th, Cleared(l), Idle);
      }
    }
  }

  /** Events of the database and the store; all others belong to one thread. */
  predicate Shared(e: Event) {
    e.Commit? || e.Land? || e.LandResult? || e.EvictToken? || e.EvictResult?
  }

  lemma {:induction false} LandKeepsThreads(s: Sys, x: Token)
    ensures DoLand(s, x).threads == s.threads && DoLand(s, x).fence == s.fence
  {
  }

  lemma {:induction false} SharedKeepsThreads(s: Sys, e: Event)
    requires Shared(e)
    ensures Act(s, e).threads == s.threads && Act(s, e).fence == s.fence
  {
    hide DoStartRotation, DoRotationAcked, DoScanDone, DoReadToken, DoReadTokens, DoCreateAnswered, DoUnavailable, DoBegin, DoSnapshotDone,
      DoLookup, DoCheckDone, DoReadTable, DoStartPublish, DoPublishDone, DoLeave, DoStartInvalidate, DoInvalidateRotated,
      DoDeleteKey, DoStartClear, DoClearDone, DoLand;
    if e.Land? { LandKeepsThreads(s, e.token); }
  }

  lemma {:induction false} CalmForward(s: Sys, r: Sys)
    requires Calm(s, r)
    ensures Forward(s, r)
  {
  }

  lemma {:induction false} SharedInv(s: Sys, e: Event)
    requires Inv(s) && Shared(e)
    ensures Inv(Act(s, e)) && Forward(s, Act(s, e))
  {
    hide Inv, Calm, Honest, Forward, Th, Move, Good, 
      DoLand, DoLandResult, DoStartRotation, DoRotationAcked, DoScanDone, DoReadToken, DoReadTokens, DoCreateAnswered, DoUnavailable,
      DoBegin, DoSnapshotDone, DoLookup, DoCheckDone, DoReadTable, DoStartPublish, DoPublishDone, DoLeave,
      DoStartInvalidate, DoInvalidateRotated, DoDeleteKey, DoStartClear, DoClearDone;
    match e {
      case Commit(table) => CommitInv(s, table);
      case Land(x) => LandInv(s, x);
      case LandResult(k, rows) => LandResultInv(s, k, rows);
      case EvictToken(sc) => EvictTokenInv(s, sc);
      case EvictResult(k) => EvictResultInv(s, k);
    }
  }

  lemma {:induction false} ThreadInv(s: Sys, e: Event)
    requires Inv(s) && !Shared(e)
    ensures Good(s, Act(s, e), e.th)
  {
    hide Inv, Calm, Honest, Forward, Th, Move, Good, 
      DoLand, DoLandResult, DoStartRotation, DoRotationAcked, DoScanDone, DoReadToken, DoReadTokens, DoCreateAnswered, DoUnavailable,
      DoBegin, DoSnapshotDone, DoLookup, DoCheckDone, DoReadTable, DoStartPublish, DoPublishDone, DoLeave,
      DoStartInvalidate, DoInvalidateRotated, DoDeleteKey, DoStartClear, DoClearDone;
    match e {
      case StartRotation(th, sc) => StartRotationInv(s, th, sc);
      case RotationAcked(th) => RotationAckedInv(s, th);
      case ScanDone(th) => ScanDoneInv(s, th);
      case ReadToken(th, sc) => ReadTokenInv(s, th, sc);
      case ReadTokens(th) => ReadTokensInv(s, th);
      case CreateAnswered(th) => CreateAnsweredInv(s, th);
      case Unavailable(th) => UnavailableInv(s, th);
      case Begin(th, q, fill) => BeginInv(s, th, q, fill);
      case SnapshotDone(th) => SnapshotDoneInv(s, th);
      case Lookup(th, fails) => LookupInv(s, th, fails);
      case CheckDone(th) => CheckDoneInv(s, th);
      case ReadTable(th, table) => ReadTableInv(s, th, table);
      case StartPublish(th) => StartPublishInv(s, th);
      case PublishDone(th, acked) => PublishDoneInv(s, th, acked);
      case Leave(th) => LeaveInv(s, th);
      case StartInvalidate(th, model, names, db) => StartInvalidateInv(s, th, model, names, db);
      case InvalidateRotated(th, acked) => InvalidateRotatedInv(s, th, acked);
      case DeleteKey(th, key, acked, applied) => DeleteKeyInv(s, th, key, acked, applied);
      case StartClear(th) => StartClearInv(s, th);
      case ClearDone(th, acked) => ClearDoneInv(s, th, acked);
    }
  }

  lemma {:induction false} ActInv(s: Sys, e: Event)
    requires Inv(s)
    ensures Inv(Act(s, e)) && Forward(s, Act(s, e))
    ensures if Shared(e) then Act(s, e).threads == s.threads && Act(s, e).fence == s.fence
            else Quiet(s, Act(s, e), e.th)
  {
    hide Inv, Calm, Honest, Forward, Act;
    if Shared(e) {
      SharedInv(s, e);
      SharedKeepsThreads(s, e);
    } else {
      ThreadInv(s, e);
      CalmForward(s, Act(s, e));
    }
  }

  lemma {:induction false} StepInv(s: Sys, e: Event)
    requires Inv(s)
    ensures Inv(Step(s, e)) && Forward(s, Step(s, e))
  {
    hide Inv, Act, Quiet;
    ActInv(s, e);
    TickInv(Act(s, e), s.now + 1);
  }

  lemma {:induction false} StartInv()
    ensures Inv(START)
  {
  }

  lemma {:induction false} RunInv(es: seq<Event>, i: nat)
    requires i <= |es|
    ensures Inv(At(es, i)) && At(es, i).now == i
  {
    hide Inv, Act, Forward;
    if i == 0 {
      StartInv();
    } else {
      RunInv(es, i - 1);
      StepInv(At(es, i - 1), es[i - 1]);
    }
  }
}
