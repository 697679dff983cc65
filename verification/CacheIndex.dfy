/** Vocabulary of the query cache, and the process-local bookkeeping that one
    QuerySetCache keeps under its lock (src/nova/cache/queryset_cache.py).

    The first module is data only; the second gives the bookkeeping as values,
    so that the concurrent models can share it; the class that updates the same
    bookkeeping in place is proved against it in QuerySetCache.dfy. */
module CacheTypes {

  /** A generation scope: the short model name and a database alias, or "*" for all. */
  datatype Scope = Scope(model: string, db: string)

  /** A table that SQL reads and that commits change. */
  datatype Table = Table(model: string, db: string)

  /** Generation tokens are random and never drawn twice, so only identity matters. */
  type Token = nat

  /** Everything that identifies a query apart from generations: `sql` stands for the
      compiled statement, parameters, result shape and prefetch plan; `models` are the
      short names of every model it depends on; `names` are its index names. */
  datatype Query = Query(sql: nat, db: string, models: set<string>, names: set<string>)

  /** The result key.  Digests are taken to be injective, so the key is its parts. */
  datatype Key = Key(query: Query, gens: map<Scope, Token>)

  /** Cached rows: for each table, how much of the commit log the read had seen. */
  type Rows = map<Table, nat>

  function Scopes(q: Query): set<Scope> {
    (set m | m in q.models :: Scope(m, "*")) + (set m | m in q.models :: Scope(m, q.db))
  }

  function Tables(q: Query): set<Table> {
    set m | m in q.models :: Table(m, q.db)
  }
}

module CacheIndex {
  import opened CacheTypes

  /** The fields of `_QuerySetCacheState` that change. */
  datatype Local = Local(
    generation: nat,
    modelKeys: map<string, set<Key>>,
    keyModels: map<Key, set<string>>,
    blocked: set<Key>,
    pending: set<Scope>,
    clearFailed: bool)

  const EMPTY := Local(0, map[], map[], {}, {}, false)

  function Bucket(l: Local, name: string): set<Key> {
    if name in l.modelKeys then l.modelKeys[name] else {}
  }

  function NamesOf(l: Local, key: Key): set<string> {
    if key in l.keyModels then l.keyModels[key] else {}
  }

  /** `_register_key`. */
  function Register(l: Local, key: Key, names: set<string>): Local {
    l.(modelKeys := map n | n in l.modelKeys.Keys + names ::
                      if n in names then Bucket(l, n) + {key} else Bucket(l, n),
       keyModels := l.keyModels[key := NamesOf(l, key) + names])
  }

  /** `_unregister_key`: an emptied bucket is dropped, and the key is readable again. */
  function Unregister(l: Local, key: Key): Local {
    l.(modelKeys := map n | n in l.modelKeys && !(n in NamesOf(l, key) && l.modelKeys[n] - {key} == {}) ::
                      if n in NamesOf(l, key) then l.modelKeys[n] - {key} else l.modelKeys[n],
       keyModels := l.keyModels - {key},
       blocked := l.blocked - {key})
  }

  /** The keys that invalidating `names` on `db` must remove. */
  function Matching(l: Local, names: set<string>, db: string): set<Key> {
    set n, k | n in names && k in Bucket(l, n) && (db == "*" || k.query.db == db) :: k
  }

  function Block(l: Local, keys: set<Key>): Local {
    l.(blocked := l.blocked + keys)
  }

  /** A fill that was acknowledged makes its key indexed and readable. */
  function Publish(l: Local, key: Key): Local {
    var r := Register(l, key, key.query.names);
    r.(blocked := r.blocked - {key})
  }

  /** A clear that was acknowledged forgets everything except the fill fence. */
  function Cleared(l: Local): Local {
    Local(l.generation, map[], map[], {}, {}, false)
  }

  /** The two indexes are inverse relations, no bucket is empty, and a blocked key
      is always still indexed, so that a later invalidation retries its delete. */
  ghost predicate Consistent(l: Local) {
    && (forall n, k :: k in Bucket(l, n) <==> n in NamesOf(l, k))
    && (forall n :: n in l.modelKeys ==> l.modelKeys[n] != {})
    && (forall k :: k in l.keyModels ==> l.keyModels[k] != {})
    && l.blocked <= l.keyModels.Keys
  }

  lemma {:induction false} RegisterConsistent(l: Local, key: Key, names: set<string>)
    requires Consistent(l) && names != {}
    ensures Consistent(Register(l, key, names))
    ensures NamesOf(Register(l, key, names), key) == NamesOf(l, key) + names
    ensures forall k :: k != key ==> NamesOf(Register(l, key, names), k) == NamesOf(l, k)
  {
    var r := Register(l, key, names);
    forall n, k ensures k in Bucket(r, n) <==> n in NamesOf(r, k) {
      assert k in Bucket(l, n) <==> n in NamesOf(l, k);
    }
  }

  lemma {:induction false} UnregisterConsistent(l: Local, key: Key)
    requires Consistent(l)
    ensures Consistent(Unregister(l, key)) && Unregister(l, key).pending == l.pending
    ensures forall k :: NamesOf(Unregister(l, key), k) == if k == key then {} else NamesOf(l, k)
  {
    var r := Unregister(l, key);
    forall n, k ensures k in Bucket(r, n) <==> n in NamesOf(r, k) {
      assert k in Bucket(l, n) <==> n in NamesOf(l, k);
    }
  }

  lemma {:induction false} IndexSame(l: Local, r: Local)
    requires Consistent(l)
    requires r == l.(generation := r.generation, pending := r.pending, clearFailed := r.clearFailed)
    ensures Consistent(r)
  {
    forall n, k ensures k in Bucket(r, n) <==> n in NamesOf(r, k) {
      assert k in Bucket(l, n) <==> n in NamesOf(l, k);
    }
  }

  lemma {:induction false} MatchingIntro(l: Local, names: set<string>, db: string, n: string, k: Key)
    requires n in names && k in Bucket(l, n) && (db == "*" || k.query.db == db)
    ensures k in Matching(l, names, db)
  {
  }

  lemma {:induction false} MatchingIndexed(l: Local, names: set<string>, db: string)
    requires Consistent(l)
    ensures Matching(l, names, db) <= l.keyModels.Keys
    ensures Consistent(Block(l, Matching(l, names, db)))
    ensures forall k :: k in Matching(l, names, db) <==>
              k in l.keyModels && l.keyModels[k] * names != {} && (db == "*" || k.query.db == db)
  {
    forall k | k in Matching(l, names, db)
      ensures k in l.keyModels && l.keyModels[k] * names != {} && (db == "*" || k.query.db == db)
    {
      var n :| n in names && k in Bucket(l, n) && (db == "*" || k.query.db == db);
      assert n in NamesOf(l, k) * names;
    }
    forall k | k in l.keyModels && l.keyModels[k] * names != {} && (db == "*" || k.query.db == db)
      ensures k in Matching(l, names, db)
    {
      var n :| n in l.keyModels[k] * names;
      assert n in NamesOf(l, k);
      assert k in Bucket(l, n);
      MatchingIntro(l, names, db, n, k);
    }
    var b := Block(l, Matching(l, names, db));
    forall n, k ensures k in Bucket(b, n) <==> n in NamesOf(b, k) {
      assert k in Bucket(l, n) <==> n in NamesOf(l, k);
    }
  }

  /** What acknowledged deletes of `keys` leave behind. */
  function Forget(l: Local, keys: set<Key>): Local {
    l.(modelKeys := map n | n in l.modelKeys && l.modelKeys[n] - keys != {} :: l.modelKeys[n] - keys,
       keyModels := l.keyModels - keys,
       blocked := l.blocked - keys)
  }

  lemma {:induction false} ForgetConsistent(l: Local, keys: set<Key>)
    requires Consistent(l)
    ensures Consistent(Forget(l, keys))
  {
    var f := Forget(l, keys);
    forall n, k ensures k in Bucket(f, n) <==> n in NamesOf(f, k) {
      assert k in Bucket(l, n) <==> n in NamesOf(l, k);
    }
  }

  /** Forgetting one more key is what `_unregister_key` does. */
  lemma {:induction false} ForgetOneMore(l: Local, keys: set<Key>, key: Key)
    requires Consistent(l)
    ensures Unregister(Forget(l, keys), key) == Forget(l, keys + {key})
  {
    var f := Forget(l, keys);
    ForgetConsistent(l, keys);
    var u, g := Unregister(f, key), Forget(l, keys + {key});
    forall n ensures n in u.modelKeys <==> n in g.modelKeys {
      assert key in Bucket(f, n) <==> n in NamesOf(f, key);
      if n in f.modelKeys {
        assert f.modelKeys[n] - {key} == l.modelKeys[n] - (keys + {key});
      }
    }
    forall n | n in u.modelKeys ensures u.modelKeys[n] == g.modelKeys[n] {
      assert key in Bucket(f, n) <==> n in NamesOf(f, key);
    }
    assert u.modelKeys == g.modelKeys;
    assert u.keyModels == g.keyModels;
    assert u.blocked == g.blocked;
  }
}
