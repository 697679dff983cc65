/** `QuerySetCache` as its methods run: the bookkeeping of one process, updated in place
    under the lock, over a store whose every command may fail.  Each method is proved
    against the value functions of CacheIndex, which the concurrent models use. */
module QuerySetCacheClass {
  import opened CacheTypes
  import opened CacheIndex

  /** The backend.  A failed command may or may not have been applied; `failures` counts
      the failed ones. */
  class Store {
    var results: map<Key, Rows>
    var tokens: map<Scope, Token>
    var nextToken: Token
    ghost var failures: nat

    constructor ()
      ensures results == map[] && tokens == map[] && nextToken == 0
    {
      results, tokens, nextToken, failures := map[], map[], 0, 0;
    }

    method Get(key: Key) returns (answered: bool, found: bool, rows: Rows)
      modifies this`failures
      ensures failures == old(failures) + (if answered then 0 else 1)
      ensures answered ==> found == (key in results) && (found ==> rows == results[key])
    {
      answered := *;
      failures := failures + (if answered then 0 else 1);
      found := key in results;
      rows := if found then results[key] else map[];
    }

    method Set(key: Key, rows: Rows) returns (acked: bool)
      modifies this`results, this`failures
      ensures failures == old(failures) + (if acked then 0 else 1)
      ensures acked ==> results == old(results)[key := rows]
      ensures !acked ==> results == old(results) || results == old(results)[key := rows]
    {
      acked := *;
      failures := failures + (if acked then 0 else 1);
      var applied: bool := *;
      if acked || applied {
        results := results[key := rows];
      }
    }

    /** `existed` is meaningful only when acknowledged. */
    method Delete(key: Key) returns (acked: bool, existed: bool)
      modifies this`results, this`failures
      ensures failures == old(failures) + (if acked then 0 else 1)
      ensures acked ==> results == old(results) - {key} && existed == (key in old(results))
      ensures !acked ==> results == old(results) || results == old(results) - {key}
    {
      acked := *;
      failures := failures + (if acked then 0 else 1);
      var applied: bool := *;
      existed := key in results;
      if acked || applied {
        results := results - {key};
      }
    }

    method Rotate(scope: Scope) returns (acked: bool)
      modifies this`tokens, this`nextToken, this`failures
      ensures failures == old(failures) + (if acked then 0 else 1)
      ensures nextToken == old(nextToken) + 1
      ensures acked ==> tokens == old(tokens)[scope := old(nextToken)]
      ensures !acked ==> tokens == old(tokens) || tokens == old(tokens)[scope := old(nextToken)]
    {
      acked := *;
      failures := failures + (if acked then 0 else 1);
      var applied: bool := *;
      if acked || applied {
        tokens := tokens[scope := nextToken];
      }
      nextToken := nextToken + 1;
    }

    /** An absent token is created, never replaced. */
    method Generation(scope: Scope) returns (acked: bool, token: Token)
      modifies this`tokens, this`nextToken, this`failures
      ensures failures == old(failures) + (if acked then 0 else 1)
      ensures old(nextToken) <= nextToken
      ensures acked ==> scope in tokens && tokens[scope] == token
      ensures tokens == old(tokens) || (scope !in old(tokens) && tokens == old(tokens)[scope := old(nextToken)])
    {
      acked := *;
      failures := failures + (if acked then 0 else 1);
      if scope !in tokens {
        tokens := tokens[scope := nextToken];
        nextToken := nextToken + 1;
      }
      token := tokens[scope];
    }

    method Clear() returns (acked: bool)
      modifies this
      ensures failures == old(failures) + (if acked then 0 else 1)
      ensures nextToken == old(nextToken)
      ensures acked ==> results == map[] && tokens == map[]
      ensures results.Items <= old(results).Items && tokens.Items <= old(tokens).Items
    {
      acked := *;
      failures := failures + (if acked then 0 else 1);
      var applied: bool := *;
      if acked || applied {
        results, tokens := map[], map[];
      }
    }
  }

  /** Between two moments tokens were replaced only for `rotated` and created only for
      `created` scopes; none was lost. */
  ghost predicate Touched(before: map<Scope, Token>, after: map<Scope, Token>, rotated: set<Scope>,
                          created: set<Scope>) {
    && (forall sc :: sc in before ==> sc in after && (after[sc] == before[sc] || sc in rotated))
    && (forall sc :: sc in after && sc !in before ==> sc in created)
  }

  lemma {:induction false} NothingTouched(tokens: map<Scope, Token>, scopes: set<Scope>)
    ensures Touched(tokens, tokens, scopes, scopes)
  {
  }

  /** How a section ends: rows, no rows, or the backend's error reaches the caller. */
  datatype Outcome = Found(rows: Rows) | Missing | Raised

  class QuerySetCache {
    const store: Store
    const shared: bool
    var generation: nat
    var modelKeys: map<string, set<Key>>
    var keyModels: map<Key, set<string>>
    var invalidatedKeys: set<Key>
    var pendingGenerations: set<Scope>
    var clearFailed: bool

    constructor (store: Store, shared: bool)
      ensures this.store == store && this.shared == shared
      ensures View() == EMPTY && Consistent(View())
    {
      this.store, this.shared := store, shared;
      generation, modelKeys, keyModels, invalidatedKeys, pendingGenerations, clearFailed := 0, map[], map[], {}, {}, false;
    }

    ghost function View(): Local
      reads this
    {
      Local(generation, modelKeys, keyModels, invalidatedKeys, pendingGenerations, clearFailed)
    }

    method RegisterKey(key: Key, names: set<string>)
      modifies this`modelKeys, this`keyModels
      ensures View() == Register(old(View()), key, names)
    {
      var todo := names;
      while todo != {}
        invariant todo <= names && keyModels == old(keyModels)
        invariant modelKeys.Keys == old(modelKeys).Keys + (names - todo)
        invariant forall n :: n in modelKeys ==>
                    modelKeys[n] == if n in names - todo then Bucket(old(View()), n) + {key} else old(modelKeys)[n]
        decreases todo
      {
        var name :| name in todo;
        modelKeys := modelKeys[name := (if name in modelKeys then modelKeys[name] else {}) + {key}];
        todo := todo - {name};
      }
      keyModels := keyModels[key := (if key in keyModels then keyModels[key] else {}) + names];
      ghost var r := Register(old(View()), key, names);
      assert modelKeys == r.modelKeys && keyModels == r.keyModels;
    }

    method UnregisterKey(key: Key)
      modifies this`modelKeys, this`keyModels, this`invalidatedKeys
      ensures View() == Unregister(old(View()), key)
    {
      var names := if key in keyModels then keyModels[key] else {};
      keyModels := keyModels - {key};
      var todo := names;
      while todo != {}
        invariant todo <= names && keyModels == old(keyModels) - {key} && invalidatedKeys == old(invalidatedKeys)
        invariant forall n :: n in modelKeys <==>
                    n in old(modelKeys) && !(n in names - todo && old(modelKeys)[n] - {key} == {})
        invariant forall n :: n in modelKeys ==>
                    modelKeys[n] == if n in names - todo then old(modelKeys)[n] - {key} else old(modelKeys)[n]
        decreases todo
      {
        var name :| name in todo;
        if name in modelKeys {
          var bucket := modelKeys[name] - {key};
          modelKeys := if bucket == {} then modelKeys - {name} else modelKeys[name := bucket];
        }
        todo := todo - {name};
      }
      invalidatedKeys := invalidatedKeys - {key};
      ghost var r := Unregister(old(View()), key);
      assert modelKeys == r.modelKeys && keyModels == r.keyModels && invalidatedKeys == r.blocked;
    }

    /** `_read_generations`: pending rotations first, then one token per scope.  If it
        succeeds, every scope is answered with its current token, and a scope that was
        pending with one drawn by this call. */
    method ReadGenerations(scopes: set<Scope>) returns (ok: bool, gens: map<Scope, Token>)
      modifies this`pendingGenerations, store`tokens, store`nextToken, store`failures
      ensures store.failures == old(store.failures) + (if ok then 0 else 1)
      ensures Touched(old(store.tokens), store.tokens, scopes * old(pendingGenerations), scopes)
      ensures View() == old(View()).(pending := pendingGenerations)
      ensures old(pendingGenerations) - scopes <= pendingGenerations <= old(pendingGenerations)
      ensures ok && shared ==> gens.Keys == scopes && scopes !! pendingGenerations
      ensures ok && shared ==> forall sc :: sc in scopes ==> sc in store.tokens && gens[sc] == store.tokens[sc]
      ensures ok && shared ==> forall sc :: sc in scopes * old(pendingGenerations) ==> old(store.nextToken) <= gens[sc]
      ensures !shared ==> ok && gens == map[] && pendingGenerations == old(pendingGenerations) && store.tokens == old(store.tokens)
    {
      gens := map[];
      if !shared { return true, gens; }
      var todo := scopes;
      while todo != {}
        invariant todo <= scopes && old(store.nextToken) <= store.nextToken && store.failures == old(store.failures)
        invariant Touched(old(store.tokens), store.tokens, scopes * old(pendingGenerations), scopes)
        invariant old(pendingGenerations) - (scopes - todo) <= pendingGenerations <= old(pendingGenerations)
        invariant (scopes - todo) !! pendingGenerations
        invariant forall sc :: sc in (scopes - todo) * old(pendingGenerations) ==>
                    sc in store.tokens && old(store.nextToken) <= store.tokens[sc]
        decreases todo
      {
        var scope :| scope in todo;
        if scope in pendingGenerations {
          var acked := store.Rotate(scope);
          if !acked { return false, map[]; }
          pendingGenerations := pendingGenerations - {scope};
        }
        todo := todo - {scope};
      }
      todo := scopes;
      while todo != {}
        invariant todo <= scopes && old(store.nextToken) <= store.nextToken && store.failures == old(store.failures)
        invariant Touched(old(store.tokens), store.tokens, scopes * old(pendingGenerations), scopes)
        invariant old(pendingGenerations) - scopes <= pendingGenerations <= old(pendingGenerations)
        invariant scopes !! pendingGenerations
        invariant gens.Keys == scopes - todo
        invariant forall sc :: sc in gens ==> sc in store.tokens && gens[sc] == store.tokens[sc]
        invariant forall sc :: sc in scopes * old(pendingGenerations) ==>
                    sc in store.tokens && old(store.nextToken) <= store.tokens[sc]
        decreases todo
      {
        var scope :| scope in todo;
        var acked, token := store.Generation(scope);
        if !acked { return false, map[]; }
        gens := gens[scope := token];
        todo := todo - {scope};
      }
      ok := true;
    }

    ghost predicate AllCurrent(key: Key)
      reads store
    {
      forall sc :: sc in key.gens ==> sc in store.tokens && store.tokens[sc] == key.gens[sc]
    }

    /** `_generations_match`: the tokens in the key, and nothing else, are current now. */
    method GenerationsMatch(key: Key) returns (same: bool)
      requires shared || key.gens == map[]
      modifies this`pendingGenerations, store`tokens, store`nextToken, store`failures
      ensures same ==> store.failures == old(store.failures)
      ensures !same ==> store.failures == old(store.failures) + 1 || !AllCurrent(key)
      ensures store.failures <= old(store.failures) + 1
      ensures Touched(old(store.tokens), store.tokens, key.gens.Keys * old(pendingGenerations), key.gens.Keys)
      ensures View() == old(View()).(pending := pendingGenerations)
      ensures old(pendingGenerations) - key.gens.Keys <= pendingGenerations <= old(pendingGenerations)
      ensures same && shared ==> key.gens.Keys !! pendingGenerations
      ensures same && shared ==> AllCurrent(key)
      ensures same && shared ==> forall sc :: sc in key.gens.Keys * old(pendingGenerations) ==> old(store.nextToken) <= key.gens[sc]
      ensures !shared || key.gens == map[] ==> same
      ensures !shared ==> pendingGenerations == old(pendingGenerations) && store.tokens == old(store.tokens)
    {
      if key.gens == map[] { return true; }
      var ok, gens := ReadGenerations(key.gens.Keys);
      same := ok && gens == key.gens;
      if ok && !same {
        assert exists sc :: sc in key.gens && gens[sc] != key.gens[sc];
      }
    }

    /** The lookup section of `get` and `get_or_set`.  A hit is stored, was readable and,
        on a shared backend, is confirmed; it is indexed under all its names.  Without a
        hit one of these was missing, or a store command failed. */
    method Lookup(key: Key) returns (outcome: Outcome)
      requires shared || key.gens == map[]
      modifies this`pendingGenerations, this`modelKeys, this`keyModels, store`tokens, store`nextToken, store`failures
      ensures outcome.Found? ==> store.failures == old(store.failures)
      ensures outcome.Missing? ==>
                || clearFailed || key in invalidatedKeys || key !in store.results || !AllCurrent(key)
                || store.failures > old(store.failures)
      ensures store.results == old(store.results)
      ensures Touched(old(store.tokens), store.tokens, key.gens.Keys * old(pendingGenerations), key.gens.Keys)
      ensures outcome.Found? ==>
                && !clearFailed && key !in invalidatedKeys && key in store.results && outcome.rows == store.results[key]
                && (shared ==> AllCurrent(key) && forall sc :: sc in key.gens ==>
                      sc !in pendingGenerations
                      && (sc in old(pendingGenerations) ==> old(store.nextToken) <= key.gens[sc]))
      ensures View() == if outcome.Found? then Register(old(View()).(pending := pendingGenerations), key, key.query.names)
                        else old(View()).(pending := pendingGenerations)
      ensures outcome.Raised? <==> key.gens == map[] && store.failures > old(store.failures)
    {
      if clearFailed || key in invalidatedKeys { return Missing; }
      var answered, found, rows := store.Get(key);
      if !answered { return if key.gens == map[] then Raised else Missing; }
      if !found { return Missing; }
      var same := GenerationsMatch(key);
      if !same { return Missing; }
      RegisterKey(key, key.query.names);
      outcome := Found(rows);
    }

    /** The store section of `get_or_set`.  Rows are offered to the backend only if
        nothing was invalidated or cleared since the miss and, on a shared backend, the
        key's tokens are current; only an acknowledged write is indexed.  Rows are kept
        back for no other reason but a store command that failed. */
    method StoreRows(key: Key, missedAt: nat, rows: Rows) returns (outcome: Outcome)
      requires shared || key.gens == map[]
      modifies this`pendingGenerations, this`modelKeys, this`keyModels, this`invalidatedKeys, store
      ensures store.results == old(store.results)
        || (store.results == old(store.results)[key := rows] && missedAt == generation && !clearFailed)
      ensures Touched(old(store.tokens), store.tokens, key.gens.Keys * old(pendingGenerations), key.gens.Keys)
      ensures shared && (outcome.Found? || store.results != old(store.results)) ==>
                && AllCurrent(key) && key.gens.Keys !! pendingGenerations
                && forall sc :: sc in key.gens.Keys * old(pendingGenerations) ==> old(store.nextToken) <= key.gens[sc]
      ensures outcome.Found? ==> outcome.rows == rows && store.results == old(store.results)[key := rows]
      ensures outcome.Found? ==> missedAt == generation && !clearFailed && store.failures == old(store.failures)
      ensures outcome.Found? ==>
                key !in invalidatedKeys && forall name :: name in key.query.names ==> name in modelKeys && key in modelKeys[name]
      ensures outcome.Missing? ==>
                missedAt != generation || clearFailed || !AllCurrent(key) || store.failures > old(store.failures)
      ensures View() == if outcome.Found? then Publish(old(View()).(pending := pendingGenerations), key)
                        else old(View()).(pending := pendingGenerations)
      ensures outcome.Raised? <==> key.gens == map[] && store.failures > old(store.failures)
    {
      if missedAt != generation || clearFailed { return Missing; }
      var same := GenerationsMatch(key);
      if !same { return Missing; }
      var acked := store.Set(key, rows);
      if !acked { return if key.gens == map[] then Raised else Missing; }
      RegisterKey(key, key.query.names);
      invalidatedKeys := invalidatedKeys - {key};
      outcome := Found(rows);
    }

    /** `invalidate_model` for already normalised names.  Every matching key is blocked;
        those whose delete was acknowledged are `gone` from the store and `forgotten`,
        all others stay indexed and blocked.  The scope stays pending exactly if the
        rotation was not acknowledged, and each command that was due was tried: the
        failures are those of the rotation and of the keys not forgotten. */
    method InvalidateModel(model: string, names: set<string>, db: string)
      returns (deleted: nat, ghost forgotten: set<Key>, ghost gone: set<Key>)
      requires Consistent(View())
      modifies this, store
      ensures Consistent(View())
      ensures var keys := Matching(old(View()), names, db);
              && View() == Forget(Block(old(View()), keys), forgotten).(generation := generation, pending := pendingGenerations)
              && forgotten <= gone <= keys && store.results == old(store.results) - gone
              && deleted == Existing(old(store.results), forgotten)
      ensures store.failures == old(store.failures) + Unanswered(Matching(old(View()), names, db), forgotten)
                                + (if names != {} && shared && Scope(model, db) in pendingGenerations then 1 else 0)
      ensures names == {} ==> View() == old(View()) && deleted == 0
      ensures names != {} ==> generation == old(generation) + 1
      ensures names != {} && shared && Scope(model, db) !in pendingGenerations ==>
                Scope(model, db) in store.tokens && store.tokens[Scope(model, db)] == old(store.nextToken)
      ensures pendingGenerations in {old(pendingGenerations), old(pendingGenerations) + {Scope(model, db)},
                                     old(pendingGenerations) - {Scope(model, db)}}
      ensures !shared || names == {} ==> pendingGenerations == old(pendingGenerations) && store.tokens == old(store.tokens)
      ensures Touched(old(store.tokens), store.tokens, {Scope(model, db)}, {Scope(model, db)})
    {
      hide Consistent, Matching, Forget, Block, Touched, Existing, Unanswered;
      NothingTouched(store.tokens, {Scope(model, db)});
      ghost var before := View();
      if names == {} {
        deleted, forgotten, gone := 0, {}, {};
        ForgetNothing(before);
        NothingMatches(before, db);
        NothingDone(store.results);
        return;
      }
      generation := generation + 1;
      if shared {
        Rotate(Scope(model, db));
      }
      ghost var l := View();
      IndexSame(before, l);
      deleted, forgotten, gone := DeleteMatching(names, db);
      MatchingOfIndex(before, l, names, db);
      BlockKeepsRest(before, l, Matching(l, names, db));
      ForgetKeepsRest(Block(before, Matching(l, names, db)), Block(l, Matching(l, names, db)), forgotten);
    }

    /** Every matching key is blocked before the first delete is tried. */
    method DeleteMatching(names: set<string>, db: string) returns (deleted: nat, ghost forgotten: set<Key>,
                          ghost gone: set<Key>)
      requires Consistent(View())
      modifies this`modelKeys, this`keyModels, this`invalidatedKeys, store`results, store`failures
      ensures Consistent(View())
      ensures var keys := Matching(old(View()), names, db);
              && View() == Forget(Block(old(View()), keys), forgotten)
              && forgotten <= gone <= keys && store.results == old(store.results) - gone
              && deleted == Existing(old(store.results), forgotten)
              && store.failures == old(store.failures) + Unanswered(keys, forgotten)
    {
      hide Consistent, Matching, Forget, Existing, Unanswered;
      ghost var l := View();
      var keys := Matching(Local(generation, modelKeys, keyModels, invalidatedKeys, pendingGenerations, clearFailed), names, db);
      MatchingIndexed(l, names, db);
      invalidatedKeys := invalidatedKeys + keys;
      assert View() == Block(l, keys);
      deleted, forgotten, gone := DeleteKeys(keys);
    }

    /** The scope is pending until its rotation is acknowledged. */
    method Rotate(scope: Scope)
      modifies this`pendingGenerations, store`tokens, store`nextToken, store`failures
      ensures store.failures == old(store.failures) + (if scope in pendingGenerations then 1 else 0)
      ensures View() == old(View()).(pending := pendingGenerations)
      ensures pendingGenerations in {old(pendingGenerations) + {scope}, old(pendingGenerations) - {scope}}
      ensures scope !in pendingGenerations ==> scope in store.tokens && store.tokens[scope] == old(store.nextToken)
      ensures Touched(old(store.tokens), store.tokens, {scope}, {scope})
    {
      pendingGenerations := pendingGenerations + {scope};
      var acked := store.Rotate(scope);
      if acked {
        pendingGenerations := pendingGenerations - {scope};
        assert pendingGenerations == old(pendingGenerations) - {scope};
      }
    }

    /** One delete; only an acknowledged one is forgotten. */
    method TryDelete(key: Key, ghost l: Local, ghost forgotten: set<Key>)
        returns (acked: bool, existed: bool, ghost applied: bool)
      requires Consistent(l) && View() == Forget(l, forgotten)
      modifies this`modelKeys, this`keyModels, this`invalidatedKeys, store`results, store`failures
      ensures store.failures == old(store.failures) + (if acked then 0 else 1)
      ensures View() == Forget(l, if acked then forgotten + {key} else forgotten)
      ensures store.results == if applied then old(store.results) - {key} else old(store.results)
      ensures acked ==> applied && existed == (key in old(store.results))
    {
      hide Consistent, Forget;
      acked, existed := store.Delete(key);
      applied := acked || store.results != old(store.results);
      if acked {
        ForgetOneMore(l, forgotten, key);
        UnregisterKey(key);
      }
    }

    /** The delete loop: every key is tried once, and only acknowledged ones are forgotten. */
    method DeleteKeys(keys: set<Key>) returns (deleted: nat, ghost forgotten: set<Key>, ghost gone: set<Key>)
      requires Consistent(View())
      modifies this`modelKeys, this`keyModels, this`invalidatedKeys, store`results, store`failures
      ensures store.failures == old(store.failures) + Unanswered(keys, forgotten)
      ensures Consistent(View()) && View() == Forget(old(View()), forgotten)
      ensures forgotten <= gone <= keys && store.results == old(store.results) - gone
      ensures deleted == Existing(old(store.results), forgotten)
    {
      hide Consistent, Forget, Existing, Unanswered;
      deleted, forgotten, gone := 0, {}, {};
      ghost var l, stored, done := View(), store.results, {};
      ForgetNothing(l);
      NothingDone(stored);
      var todo := keys;
      while todo != {}
        invariant View() == Forget(l, forgotten) && store.results == stored - gone
        invariant done + todo == keys && done !! todo && forgotten <= gone <= done
        invariant deleted == Existing(stored, forgotten)
        invariant store.failures == old(store.failures) + Unanswered(done, forgotten)
        decreases todo
      {
        var key :| key in todo;
        var acked, existed, applied := TryDelete(key, l, forgotten);
        OneMoreDelete(stored, gone, done, forgotten, key);
        done, todo := done + {key}, todo - {key};
        gone := if applied then gone + {key} else gone;
        forgotten := if acked then forgotten + {key} else forgotten;
        deleted := deleted + if acked && existed then 1 else 0;
      }
      ForgetConsistent(l, forgotten);
    }

    /** `clear`: on success nothing is remembered but the fill fence; on failure the
        cache is bypassed until a clear succeeds. */
    method Clear() returns (acked: bool)
      modifies this, store
      ensures View() == if acked then Cleared(old(View())).(generation := old(generation) + 1)
                        else old(View()).(generation := old(generation) + 1, clearFailed := true)
      ensures generation == old(generation) + 1 && clearFailed == !acked
      ensures acked ==> modelKeys == map[] && keyModels == map[] && invalidatedKeys == {} && pendingGenerations == {}
      ensures !acked ==> modelKeys == old(modelKeys) && keyModels == old(keyModels)
                         && invalidatedKeys == old(invalidatedKeys) && pendingGenerations == old(pendingGenerations)
      ensures acked ==> store.results == map[] && store.tokens == map[]
      ensures store.failures == old(store.failures) + (if acked then 0 else 1)
      ensures store.nextToken == old(store.nextToken)
    {
      generation := generation + 1;
      acked := store.Clear();
      if !acked {
        clearFailed := true;
        return;
      }
      modelKeys, keyModels, invalidatedKeys, pendingGenerations, clearFailed := map[], map[], {}, {}, false;
    }
  }

  lemma {:induction false} ForgetNothing(l: Local)
    requires Consistent(l)
    ensures Forget(l, {}) == l && Block(l, {}) == l
  {
    var f := Forget(l, {});
    assert forall n :: n in l.modelKeys ==> l.modelKeys[n] - {} == l.modelKeys[n];
    assert f.modelKeys == l.modelKeys;
    assert f.keyModels == l.keyModels;
    assert f.blocked == l.blocked;
  }

  /** How many of `keys` a store held. */
  ghost function Existing(stored: map<Key, Rows>, keys: set<Key>): nat {
    |keys * stored.Keys|
  }

  /** How many deletes of `keys` failed, if those of `forgotten` were acknowledged. */
  ghost function Unanswered(keys: set<Key>, forgotten: set<Key>): nat {
    |keys - forgotten|
  }

  lemma {:induction false} NothingDone(stored: map<Key, Rows>)
    ensures Existing(stored, {}) == 0 && Unanswered({}, {}) == 0 && stored - {} == stored
  {
  }

  lemma {:induction false} OneMoreGone(stored: map<Key, Rows>, gone: set<Key>, key: Key)
    requires key !in gone
    ensures stored - gone - {key} == stored - (gone + {key}) && (key in stored - gone <==> key in stored)
  {
  }

  lemma {:induction false} OneMoreFailed(done: set<Key>, forgotten: set<Key>, key: Key)
    requires key !in done && forgotten <= done
    ensures Unanswered(done + {key}, forgotten + {key}) == Unanswered(done, forgotten)
    ensures Unanswered(done + {key}, forgotten) == Unanswered(done, forgotten) + 1
  {
    assert done + {key} - (forgotten + {key}) == done - forgotten;
    assert done + {key} - forgotten == done - forgotten + {key};
  }

  lemma {:induction false} OneMoreExisted(stored: set<Key>, forgotten: set<Key>, key: Key)
    requires key !in forgotten
    ensures |(forgotten + {key}) * stored| == |forgotten * stored| + if key in stored then 1 else 0
  {
    if key in stored {
      assert (forgotten + {key}) * stored == forgotten * stored + {key};
    } else {
      assert (forgotten + {key}) * stored == forgotten * stored;
    }
  }

  /** One more key was tried: acknowledged, it counts if it was stored; otherwise it is one
      more failure. */
  lemma {:induction false} OneMoreDelete(stored: map<Key, Rows>, gone: set<Key>, done: set<Key>, forgotten: set<Key>,
                                         key: Key)
    requires key !in done && forgotten <= gone <= done
    ensures stored - gone - {key} == stored - (gone + {key}) && (key in stored - gone <==> key in stored)
    ensures Existing(stored, forgotten + {key}) == Existing(stored, forgotten) + if key in stored then 1 else 0
    ensures Unanswered(done + {key}, forgotten + {key}) == Unanswered(done, forgotten)
    ensures Unanswered(done + {key}, forgotten) == Unanswered(done, forgotten) + 1
  {
    hide Unanswered;
    OneMoreGone(stored, gone, key);
    OneMoreFailed(done, forgotten, key);
    OneMoreExisted(stored.Keys, forgotten, key);
  }

  lemma {:induction false} NothingMatches(l: Local, db: string)
    ensures Matching(l, {}, db) == {}
  {
  }

  /** Blocking and forgetting do not look at the fence, the pending scopes or the flag. */
  lemma {:induction false} BlockKeepsRest(l: Local, r: Local, keys: set<Key>)
    requires r == l.(generation := r.generation, pending := r.pending)
    ensures Block(r, keys) == Block(l, keys).(generation := r.generation, pending := r.pending)
  {
  }

  lemma {:induction false} ForgetKeepsRest(l: Local, r: Local, keys: set<Key>)
    requires r == l.(generation := r.generation, pending := r.pending)
    ensures Forget(r, keys) == Forget(l, keys).(generation := r.generation, pending := r.pending)
  {
  }

  lemma {:induction false} MatchingOfIndex(l: Local, r: Local, names: set<string>, db: string)
    requires l.modelKeys == r.modelKeys
    ensures Matching(l, names, db) == Matching(r, names, db)
  {
    forall n ensures Bucket(l, n) == Bucket(r, n) {
    }
  }
}
