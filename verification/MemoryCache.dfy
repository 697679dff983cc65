/** The in-memory cache backend: an ordered dictionary with expiry and eviction
    (src/nova/cache/backends/memory.py:34-119).  The store is first given as a value,
    then by the class that changes it in place, then over whole histories. */
module LruStore {

  datatype Entry<V> = Entry(key: string, value: V, expiresAt: real)

  /** The ordered dictionary, least recently used first. */
  type Store<V> = seq<Entry<V>>

  datatype Option<T> = None | Some(value: T)

  function Keys<V>(d: Store<V>): set<string> {
    set i | 0 <= i < |d| :: d[i].key
  }

  ghost predicate Distinct<V>(d: Store<V>) {
    forall i, j :: 0 <= i < j < |d| ==> d[i].key != d[j].key
  }

  function Find<V>(d: Store<V>, key: string): (r: Option<Entry<V>>)
    ensures r.Some? <==> key in Keys(d)
    ensures r.Some? ==> r.value in d && r.value.key == key
  {
    if d == [] then None
    else
      KeysStep(d);
      if d[0].key == key then Some(d[0]) else Find(d[1..], key)
  }

  lemma {:induction false} KeysStep<V>(d: Store<V>)
    requires d != []
    ensures Keys(d) == {d[0].key} + Keys(d[1..])
  {
    forall k | k in Keys(d) ensures k in {d[0].key} + Keys(d[1..]) {
      var i :| 0 <= i < |d| && d[i].key == k;
      if i > 0 { assert d[1..][i - 1].key == k; }
    }
    forall k | k in Keys(d[1..]) ensures k in Keys(d) {
      var i :| 0 <= i < |d[1..]| && d[1..][i].key == k;
      assert d[i + 1].key == k;
    }
  }

  function Without<V>(d: Store<V>, key: string): Store<V> {
    if d == [] then []
    else if d[0].key == key then Without(d[1..], key)
    else [d[0]] + Without(d[1..], key)
  }

  predicate Expired<V>(e: Entry<V>, now: real) {
    e.expiresAt <= now
  }

  function Purged<V>(d: Store<V>, now: real): Store<V> {
    if d == [] then []
    else if Expired(d[0], now) then Purged(d[1..], now)
    else [d[0]] + Purged(d[1..], now)
  }

  /** What is left when the oldest entries go while more than `maxsize` remain. */
  function Newest<V>(d: Store<V>, maxsize: int): Store<V> {
    if |d| <= maxsize || d == [] then d else Newest(d[1..], maxsize)
  }

  // ----- the operations as values -----

  function SetIn<V>(d: Store<V>, key: string, value: V, seconds: real, purgedAt: real, storedAt: real,
                    maxsize: int): Store<V> {
    if seconds <= 0.0 then Without(d, key)
    else Newest(Without(Purged(d, purgedAt), key) + [Entry(key, value, storedAt + seconds)], maxsize)
  }

  function Answer<V>(d: Store<V>, key: string, now: real): Option<V> {
    match Find(d, key)
    case None => None
    case Some(e) => if Expired(e, now) then None else Some(e.value)
  }

  function GetIn<V>(d: Store<V>, key: string, now: real): Store<V> {
    match Find(d, key)
    case None => d
    case Some(e) => if Expired(e, now) then Without(d, key) else Without(d, key) + [e]
  }

  // ----- dictionaries -----

  lemma {:induction false} WithoutMeans<V>(d: Store<V>, key: string)
    requires Distinct(d)
    ensures Distinct(Without(d, key)) && Keys(Without(d, key)) == Keys(d) - {key}
    ensures forall e :: e in Without(d, key) <==> e in d && e.key != key
    ensures |Without(d, key)| <= |d| && (key in Keys(d) ==> |Without(d, key)| < |d|)
  {
    if d != [] {
      DistinctTail(d);
      WithoutMeans(d[1..], key);
      KeysStep(d);
      assert d == [d[0]] + d[1..];
      if d[0].key != key { ConsKeys(d[0], Without(d[1..], key)); }
    }
  }

  lemma {:induction false} DistinctTail<V>(d: Store<V>)
    requires d != [] && Distinct(d)
    ensures Distinct(d[1..]) && d[0].key !in Keys(d[1..])
  {
  }

  lemma {:induction false} ConsKeys<V>(e: Entry<V>, d: Store<V>)
    requires Distinct(d) && e.key !in Keys(d)
    ensures Distinct([e] + d) && Keys([e] + d) == {e.key} + Keys(d)
  {
    KeysStep([e] + d);
    assert ([e] + d)[1..] == d;
    forall i | 0 <= i < |d| ensures d[i].key != e.key { assert d[i].key in Keys(d); }
  }

  lemma {:induction false} PurgedMeans<V>(d: Store<V>, now: real)
    requires Distinct(d)
    ensures Distinct(Purged(d, now)) && Keys(Purged(d, now)) <= Keys(d) && |Purged(d, now)| <= |d|
    ensures forall e :: e in Purged(d, now) <==> e in d && !Expired(e, now)
  {
    if d != [] {
      DistinctTail(d);
      PurgedMeans(d[1..], now);
      KeysStep(d);
      assert d == [d[0]] + d[1..];
      if !Expired(d[0], now) { ConsKeys(d[0], Purged(d[1..], now)); }
    }
  }

  lemma {:induction false} AppendMeans<V>(d: Store<V>, e: Entry<V>)
    requires Distinct(d) && e.key !in Keys(d)
    ensures Distinct(d + [e]) && Keys(d + [e]) == Keys(d) + {e.key}
  {
    forall i | 0 <= i < |d| ensures d[i].key != e.key { assert d[i].key in Keys(d); }
    forall k | k in Keys(d) + {e.key} ensures k in Keys(d + [e]) {
      if k in Keys(d) {
        var i :| 0 <= i < |d| && d[i].key == k;
        assert (d + [e])[i].key == k;
      } else {
        assert (d + [e])[|d|].key == k;
      }
    }
  }

  lemma {:induction false} NewestMeans<V>(d: Store<V>, maxsize: int)
    requires Distinct(d)
    ensures Distinct(Newest(d, maxsize)) && |Newest(d, maxsize)| <= if maxsize > 0 then maxsize else 0
    ensures forall e :: e in Newest(d, maxsize) ==> e in d
  {
    if !(|d| <= maxsize || d == []) {
      DistinctTail(d);
      NewestMeans(d[1..], maxsize);
    }
  }

  lemma {:induction false} FindMeans<V>(d: Store<V>, e: Entry<V>)
    requires Distinct(d) && e in d
    ensures Find(d, e.key) == Some(e)
  {
    var i :| 0 <= i < |d| && d[i] == e;
    assert e.key in Keys(d);
    var f := Find(d, e.key).value;
    var j :| 0 <= j < |d| && d[j] == f;
  }

  // ----- what comes after an entry -----

  /** The keys used more recently than `key`. */
  function After<V>(d: Store<V>, key: string): set<string> {
    if d == [] then {} else if d[0].key == key then Keys(d[1..]) else After(d[1..], key)
  }

  lemma {:induction false} AfterWithout<V>(d: Store<V>, other: string, key: string)
    requires Distinct(d) && key in Keys(d) && other != key
    ensures key in Keys(Without(d, other)) && After(Without(d, other), key) <= After(d, key)
  {
    WithoutMeans(d, other);
    DistinctTail(d);
    KeysStep(d);
    if d[0].key == key {
      WithoutMeans(d[1..], other);
      assert Without(d, other)[1..] == Without(d[1..], other);
    } else {
      AfterWithout(d[1..], other, key);
      if d[0].key != other { assert Without(d, other)[1..] == Without(d[1..], other); }
    }
  }

  lemma {:induction false} AfterPurged<V>(d: Store<V>, now: real, e: Entry<V>)
    requires Distinct(d) && e in d && !Expired(e, now)
    ensures e in Purged(d, now) && After(Purged(d, now), e.key) <= After(d, e.key)
  {
    PurgedMeans(d, now);
    DistinctTail(d);
    if d[0].key == e.key {
      FindMeans(d, e);
      PurgedMeans(d[1..], now);
      assert Purged(d, now)[1..] == Purged(d[1..], now);
    } else {
      assert e in d[1..];
      AfterPurged(d[1..], now, e);
      if !Expired(d[0], now) { assert Purged(d, now)[1..] == Purged(d[1..], now); }
    }
  }

  lemma {:induction false} AfterAppend<V>(d: Store<V>, e: Entry<V>, key: string)
    requires Distinct(d) && e.key !in Keys(d)
    ensures key in Keys(d) ==> After(d + [e], key) == After(d, key) + {e.key}
    ensures After(d + [e], e.key) == {}
  {
    if d == [] {
      assert [e][1..] == [];
    } else {
      DistinctTail(d);
      KeysStep(d);
      assert (d + [e])[1..] == d[1..] + [e];
      AfterAppend(d[1..], e, key);
      if d[0].key == key { AppendMeans(d[1..], e); }
    }
  }

  lemma {:induction false} DistinctCount<V>(d: Store<V>)
    requires Distinct(d)
    ensures |Keys(d)| == |d|
  {
    if d != [] {
      DistinctTail(d);
      KeysStep(d);
      DistinctCount(d[1..]);
    }
  }

  /** Eviction spares an entry that fewer than `maxsize` others follow. */
  lemma {:induction false} AfterNewest<V>(d: Store<V>, maxsize: int, key: string)
    requires Distinct(d) && key in Keys(d) && |After(d, key)| < maxsize
    ensures key in Keys(Newest(d, maxsize)) && After(Newest(d, maxsize), key) == After(d, key)
  {
    if |d| > maxsize {
      DistinctTail(d);
      KeysStep(d);
      DistinctCount(d[1..]);
      AfterNewest(d[1..], maxsize, key);
    }
  }
}

module MemoryCache {
  import opened LruStore

  /** `MemoryCacheBackend`; its lock makes every method one step. */
  class MemoryCacheBackend<V> {
    var data: Store<V>
    const maxsize: int
    const defaultTtl: real

    ghost predicate Valid()
      reads this
    {
      Distinct(data) && |data| <= if maxsize > 0 then maxsize else 0
    }

    constructor (maxsize: int, defaultTtl: real)
      ensures Valid() && data == [] && this.maxsize == maxsize && this.defaultTtl == defaultTtl
    {
      this.maxsize, this.defaultTtl := maxsize, defaultTtl;
      data := [];
    }

    function Seconds(ttl: Option<real>): real {
      if ttl.None? then defaultTtl else ttl.value
    }

    /** Collect the expired keys, then delete them one by one. */
    method PurgeExpired(now: real)
      requires Distinct(data)
      modifies this
      ensures data == Purged(old(data), now)
    {
      var keys := ExpiredKeys(data, now);
      assert keys[0..] == keys;
      for k := 0 to |keys|
        invariant WithoutAll(data, keys[k..]) == WithoutAll(old(data), keys)
      {
        data := Without(data, keys[k]);
        assert keys[k..][1..] == keys[k + 1..];
      }
      WithoutExpired(old(data), now);
    }

    /** `get`: a hit becomes the most recently used entry, an expired entry goes. */
    method Get(key: string, now: real) returns (r: Option<V>)
      requires Valid()
      modifies this
      ensures Valid() && r == Answer(old(data), key, now) && data == GetIn(old(data), key, now)
    {
      WithoutMeans(data, key);
      var entry := Find(data, key);
      if entry.None? { return None; }
      if Expired(entry.value, now) {
        data := Without(data, key);
        return None;
      }
      AppendMeans(Without(data, key), entry.value);
      data := Without(data, key) + [entry.value];
      r := Some(entry.value.value);
    }

    /** `set`; a negative `maxsize` empties the store and then raises `KeyError`. */
    method Set(key: string, value: V, ttl: Option<real>, purgedAt: real, storedAt: real) returns (ok: bool)
      requires Valid()
      modifies this
      ensures Valid() && ok == (Seconds(ttl) <= 0.0 || maxsize >= 0)
      ensures data == SetIn(old(data), key, value, Seconds(ttl), purgedAt, storedAt, maxsize)
      ensures maxsize > 0 && ttl.Some? && ttl.value > 0.0 ==> LivesUntil(data, key, value, storedAt + ttl.value)
      ensures maxsize > 0 && ttl.None? && defaultTtl > 0.0 ==> LivesUntil(data, key, value, storedAt + defaultTtl)
      ensures (if ttl.Some? then ttl.value <= 0.0 else defaultTtl <= 0.0) ==> key !in Keys(data)
      ensures forall e :: e in data && e.key != key ==> e in old(data)
    {
      hide Without, Purged, Distinct, Keys, LivesUntil;
      SetLasts(data, key, value, Seconds(ttl), purgedAt, storedAt, maxsize);
      forall e | e in SetIn(data, key, value, Seconds(ttl), purgedAt, storedAt, maxsize) && e.key != key ensures e in data {
        SetKeepsOthers(data, key, value, Seconds(ttl), purgedAt, storedAt, maxsize, e);
      }
      var seconds := Seconds(ttl);
      WithoutMeans(data, key);
      if seconds <= 0.0 {
        data := Without(data, key);
        return true;
      }
      PurgedMeans(data, purgedAt);
      PurgeExpired(purgedAt);
      WithoutMeans(data, key);
      AppendMeans(Without(data, key), Entry(key, value, storedAt + seconds));
      data := Without(data, key) + [Entry(key, value, storedAt + seconds)];
      ghost var full := data;
      NewestMeans(full, maxsize);
      while |data| > maxsize
        invariant Newest(data, maxsize) == Newest(full, maxsize)
        decreases |data|
      {
        if data == [] { return false; }
        data := data[1..];
      }
      ok := true;
    }

    /** `delete`: it reports only entries that were still live. */
    method Delete(key: string, now: real) returns (removed: bool)
      requires Valid()
      modifies this
      ensures Valid() && removed == Answer(old(data), key, now).Some? && data == Without(old(data), key)
    {
      WithoutMeans(data, key);
      var entry := Find(data, key);
      if entry.None? {
        NothingToRemove(data, key);
        return false;
      }
      removed := !Expired(entry.value, now);
      data := Without(data, key);
    }

    method Clear()
      modifies this
      ensures Valid() && data == []
    {
      data := [];
    }

    method Size(now: real) returns (n: nat)
      requires Valid()
      modifies this
      ensures Valid() && data == Purged(old(data), now) && n == |data|
    {
      PurgedMeans(data, now);
      PurgeExpired(now);
      n := |data|;
    }
  }

  /** Lookups of `key` answer `value` before the deadline, and nothing from then on. */
  ghost predicate LivesUntil<V>(d: Store<V>, key: string, value: V, deadline: real) {
    forall now: real :: Answer(d, key, now) == if now < deadline then Some(value) else None
  }

  lemma {:induction false} SetLasts<V>(d: Store<V>, key: string, value: V, seconds: real, purgedAt: real,
                                       storedAt: real, maxsize: int)
    requires Distinct(d)
    ensures var s := SetIn(d, key, value, seconds, purgedAt, storedAt, maxsize);
            && (seconds > 0.0 && maxsize > 0 ==> LivesUntil(s, key, value, storedAt + seconds))
            && (seconds <= 0.0 ==> key !in Keys(s))
  {
    hide Without, Purged, Distinct, Keys, Newest, After, Find;
    WithoutMeans(d, key);
    if seconds > 0.0 {
      var p, x := Purged(d, purgedAt), Entry(key, value, storedAt + seconds);
      PurgedMeans(d, purgedAt);
      WithoutMeans(p, key);
      var w := Without(p, key);
      AfterAppend(w, x, key);
      AppendMeans(w, x);
      NewestMeans(w + [x], maxsize);
      if maxsize > 0 {
        AfterNewest(w + [x], maxsize, key);
        assert Find(Newest(w + [x], maxsize), key) == Some(x);
      }
    }
  }

  lemma {:induction false} SetKeepsOthers<V>(d: Store<V>, key: string, value: V, seconds: real, purgedAt: real,
                                             storedAt: real, maxsize: int, e: Entry<V>)
    requires Distinct(d) && e.key != key && e in SetIn(d, key, value, seconds, purgedAt, storedAt, maxsize)
    ensures e in d
  {
    hide Without, Purged, Distinct, Keys, Newest;
    WithoutMeans(d, key);
    if seconds > 0.0 {
      var p, x := Purged(d, purgedAt), Entry(key, value, storedAt + seconds);
      PurgedMeans(d, purgedAt);
      WithoutMeans(p, key);
      AppendMeans(Without(p, key), x);
      NewestMeans(Without(p, key) + [x], maxsize);
    }
  }

  function ExpiredKeys<V>(d: Store<V>, now: real): seq<string> {
    if d == [] then []
    else (if Expired(d[0], now) then [d[0].key] else []) + ExpiredKeys(d[1..], now)
  }

  function WithoutAll<V>(d: Store<V>, keys: seq<string>): Store<V>
    decreases |keys|
  {
    if keys == [] then d else WithoutAll(Without(d, keys[0]), keys[1..])
  }

  lemma {:induction false} NothingToRemove<V>(d: Store<V>, key: string)
    requires key !in Keys(d)
    ensures Without(d, key) == d
  {
    if d != [] {
      KeysStep(d);
      NothingToRemove(d[1..], key);
    }
  }

  lemma {:induction false} ExpiredAreKeys<V>(d: Store<V>, now: real)
    ensures forall k :: k in ExpiredKeys(d, now) ==> k in Keys(d)
  {
    if d != [] {
      KeysStep(d);
      ExpiredAreKeys(d[1..], now);
    }
  }

  lemma {:induction false} WithoutAllSkips<V>(e: Entry<V>, d: Store<V>, keys: seq<string>)
    requires e.key !in keys
    ensures WithoutAll([e] + d, keys) == [e] + WithoutAll(d, keys)
    decreases |keys|
  {
    if keys != [] {
      assert ([e] + d)[1..] == d;
      assert Without([e] + d, keys[0]) == [e] + Without(d, keys[0]);
      WithoutAllSkips(e, Without(d, keys[0]), keys[1..]);
    }
  }

  lemma {:induction false} WithoutExpired<V>(d: Store<V>, now: real)
    requires Distinct(d)
    ensures WithoutAll(d, ExpiredKeys(d, now)) == Purged(d, now)
  {
    if d != [] {
      DistinctTail(d);
      WithoutExpired(d[1..], now);
      var keys := ExpiredKeys(d[1..], now);
      assert d == [d[0]] + d[1..];
      if Expired(d[0], now) {
        NothingToRemove(d[1..], d[0].key);
        assert ([d[0].key] + keys)[1..] == keys;
      } else {
        ExpiredAreKeys(d[1..], now);
        assert [] + keys == keys;
        WithoutAllSkips(d[0], d[1..], keys);
      }
    }
  }
}

/** Whole histories of one memory backend. */
module MemoryHistory {
  import opened LruStore
  import opened Sets

  datatype Op<V> =
    | Set(key: string, value: V, seconds: real, purgedAt: real, storedAt: real)
    | Get(key: string, now: real)
    | Delete(key: string, now: real)
    | Clear
    | Size(now: real)

  function Apply<V>(d: Store<V>, op: Op<V>, maxsize: int): Store<V> {
    match op
    case Set(k, v, seconds, purgedAt, storedAt) => SetIn(d, k, v, seconds, purgedAt, storedAt, maxsize)
    case Get(k, now) => GetIn(d, k, now)
    case Delete(k, _) => Without(d, k)
    case Clear => []
    case Size(now) => Purged(d, now)
  }

  function At<V>(ops: seq<Op<V>>, n: nat, maxsize: int): Store<V>
    requires n <= |ops|
  {
    if n == 0 then [] else Apply(At(ops, n - 1, maxsize), ops[n - 1], maxsize)
  }

  /** The `set` that a lookup of `key` before operation `n` may still answer from. */
  function LastSet<V>(ops: seq<Op<V>>, n: nat, key: string): (r: Option<nat>)
    requires n <= |ops|
    ensures r.Some? ==> r.value < n && ops[r.value].Set? && ops[r.value].key == key && ops[r.value].seconds > 0.0
  {
    if n == 0 then None
    else
      match ops[n - 1]
      case Set(k, _, seconds, _, _) =>
        if k == key then (if seconds > 0.0 then Some(n - 1) else None) else LastSet(ops, n - 1, key)
      case Delete(k, _) => if k == key then None else LastSet(ops, n - 1, key)
      case Clear => None
      case _ => LastSet(ops, n - 1, key)
  }

  function Deadline<V>(op: Op<V>): real
    requires op.Set?
  {
    op.storedAt + op.seconds
  }

  /** Operation `m` stored or hit its key. */
  predicate Touches<V>(ops: seq<Op<V>>, m: nat, maxsize: int, key: string)
    requires m < |ops|
  {
    || (ops[m].Set? && ops[m].key == key && ops[m].seconds > 0.0)
    || (ops[m].Get? && ops[m].key == key && Answer(At(ops, m, maxsize), key, ops[m].now).Some?)
  }

  function LastTouch<V>(ops: seq<Op<V>>, n: nat, maxsize: int, key: string): (r: Option<nat>)
    requires n <= |ops|
    ensures r.Some? ==> r.value < n && Touches(ops, r.value, maxsize, key)
    ensures LastSet(ops, n, key).Some? ==> r.Some? && LastSet(ops, n, key).value <= r.value
  {
    if n == 0 then None
    else if Touches(ops, n - 1, maxsize, key) then Some(n - 1)
    else LastTouch(ops, n - 1, maxsize, key)
  }

  /** The other keys set or hit after operation `t` and before operation `n`. */
  function OthersSince<V>(ops: seq<Op<V>>, t: nat, n: nat, maxsize: int, key: string): set<string>
    requires n <= |ops|
  {
    if n <= t + 1 then {}
    else
      OthersSince(ops, t, n - 1, maxsize, key)
      + (if (ops[n - 1].Set? || ops[n - 1].Get?) && ops[n - 1].key != key && Touches(ops, n - 1, maxsize, ops[n - 1].key)
         then {ops[n - 1].key} else {})
  }

  /** Every clock reading before operation `n` is at most `limit`. */
  ghost predicate ReadBy<V>(ops: seq<Op<V>>, n: nat, limit: real)
    requires n <= |ops|
  {
    forall m :: 0 <= m < n ==>
      match ops[m]
      case Set(_, _, _, purgedAt, storedAt) => purgedAt <= limit && storedAt <= limit
      case Get(_, now) => now <= limit
      case Delete(_, now) => now <= limit
      case Clear => true
      case Size(now) => now <= limit
  }

  // ----- size -----

  lemma {:induction false} StaysValid<V>(ops: seq<Op<V>>, n: nat, maxsize: int)
    requires n <= |ops|
    ensures Distinct(At(ops, n, maxsize))
    ensures |At(ops, n, maxsize)| <= if maxsize > 0 then maxsize else 0
  {
    if n > 0 {
      StaysValid(ops, n - 1, maxsize);
      StepValid(At(ops, n - 1, maxsize), ops[n - 1], maxsize);
    }
  }

  lemma {:induction false} StepValid<V>(d: Store<V>, op: Op<V>, maxsize: int)
    requires Distinct(d) && |d| <= if maxsize > 0 then maxsize else 0
    ensures Distinct(Apply(d, op, maxsize)) && |Apply(d, op, maxsize)| <= if maxsize > 0 then maxsize else 0
  {
    hide Without, Purged, Keys, Newest;
    match op
    case Set(k, v, seconds, purgedAt, storedAt) =>
      WithoutMeans(d, k);
      if seconds > 0.0 {
        PurgedMeans(d, purgedAt);
        WithoutMeans(Purged(d, purgedAt), k);
        AppendMeans(Without(Purged(d, purgedAt), k), Entry(k, v, storedAt + seconds));
        NewestMeans(Without(Purged(d, purgedAt), k) + [Entry(k, v, storedAt + seconds)], maxsize);
      }
    case Get(k, now) =>
      WithoutMeans(d, k);
      if k in Keys(d) { AppendMeans(Without(d, k), Find(d, k).value); }
    case Delete(k, _) => WithoutMeans(d, k);
    case Clear =>
    case Size(now) => PurgedMeans(d, now);
  }

  // ----- nothing stale -----

  ghost predicate FromLastSet<V>(e: Entry<V>, ops: seq<Op<V>>, n: nat)
    requires n <= |ops|
  {
    var last := LastSet(ops, n, e.key);
    last.Some? && e.value == ops[last.value].value && e.expiresAt == Deadline(ops[last.value])
  }

  lemma {:induction false} EntriesAreLastSet<V>(ops: seq<Op<V>>, n: nat, maxsize: int, e: Entry<V>)
    requires n <= |ops| && e in At(ops, n, maxsize)
    ensures FromLastSet(e, ops, n)
  {
    if n > 0 {
      var d, op := At(ops, n - 1, maxsize), ops[n - 1];
      StaysValid(ops, n - 1, maxsize);
      StepEntries(d, op, maxsize, e);
      if e in d { EntriesAreLastSet(ops, n - 1, maxsize, e); }
    }
  }

  /** A step keeps entries, or stores the one it was given; what it removes stays out. */
  lemma {:induction false} StepEntries<V>(d: Store<V>, op: Op<V>, maxsize: int, e: Entry<V>)
    requires Distinct(d) && e in Apply(d, op, maxsize)
    ensures !op.Clear? && (op.Delete? ==> e.key != op.key)
    ensures || (e in d && (op.Set? ==> e.key != op.key))
            || (op.Set? && op.seconds > 0.0 && e == Entry(op.key, op.value, Deadline(op)))
  {
    hide Without, Purged, Distinct, Keys, Newest;
    match op
    case Set(k, v, seconds, purgedAt, storedAt) =>
      WithoutMeans(d, k);
      if seconds > 0.0 {
        PurgedMeans(d, purgedAt);
        WithoutMeans(Purged(d, purgedAt), k);
        var w := Without(Purged(d, purgedAt), k);
        AppendMeans(w, Entry(k, v, storedAt + seconds));
        NewestMeans(w + [Entry(k, v, storedAt + seconds)], maxsize);
      }
    case Get(k, now) => WithoutMeans(d, k);
    case Delete(k, _) => WithoutMeans(d, k);
    case Clear =>
    case Size(now) => PurgedMeans(d, now);
  }

  /** An answer other than the default is the value last set, not deleted or cleared
      since, and not yet past its deadline. */
  lemma {:induction false} AnswersAreCurrent<V>(ops: seq<Op<V>>, n: nat, maxsize: int, key: string, now: real)
    requires n <= |ops| && Answer(At(ops, n, maxsize), key, now).Some?
    ensures var last := LastSet(ops, n, key);
            last.Some? && now < Deadline(ops[last.value])
            && Answer(At(ops, n, maxsize), key, now) == Some(ops[last.value].value)
  {
    EntriesAreLastSet(ops, n, maxsize, Find(At(ops, n, maxsize), key).value);
  }

  // ----- the LRU guarantee -----

  /** A live entry survives one step on other keys, and only those keys move behind it. */
  lemma {:induction false} Survives<V>(d: Store<V>, op: Op<V>, maxsize: int, e: Entry<V>, others: set<string>)
    requires Distinct(d) && e in d && After(d, e.key) <= others && |others| < maxsize
    requires (op.Set? || op.Get? || op.Delete?) ==> op.key != e.key
    requires !op.Clear?
    requires op.Set? ==> op.purgedAt < e.expiresAt && (op.seconds > 0.0 ==> op.key in others)
    requires op.Get? && Answer(d, op.key, op.now).Some? ==> op.key in others
    requires op.Size? ==> op.now < e.expiresAt
    ensures e.key in Keys(Apply(d, op, maxsize)) && After(Apply(d, op, maxsize), e.key) <= others
  {
    hide Without, Purged, After, Newest, Keys, Distinct, Find;
    match op
    case Set(k, v, seconds, purgedAt, storedAt) =>
      FindMeans(d, e);
      if seconds > 0.0 {
        SurvivesSet(d, op, maxsize, e, others);
      } else {
        AfterWithout(d, k, e.key);
      }
    case Get(k, now) => SurvivesGet(d, k, now, e, others);
    case Delete(k, _) =>
      FindMeans(d, e);
      AfterWithout(d, k, e.key);
    case Size(now) =>
      AfterPurged(d, now, e);
      PurgedMeans(d, now);
      FindMeans(Purged(d, now), e);
  }

  lemma {:induction false} SurvivesSet<V>(d: Store<V>, op: Op<V>, maxsize: int, e: Entry<V>, others: set<string>)
    requires Distinct(d) && e in d && After(d, e.key) <= others && |others| < maxsize
    requires op.Set? && op.key != e.key && op.purgedAt < e.expiresAt && op.seconds > 0.0 && op.key in others
    ensures e.key in Keys(Apply(d, op, maxsize)) && After(Apply(d, op, maxsize), e.key) <= others
  {
    hide Without, Purged, After, Newest, Keys, Distinct, Find;
    var p, x := Purged(d, op.purgedAt), Entry(op.key, op.value, op.storedAt + op.seconds);
    PurgedMeans(d, op.purgedAt);
    AfterPurged(d, op.purgedAt, e);
    FindMeans(p, e);
    AfterWithout(p, op.key, e.key);
    WithoutMeans(p, op.key);
    var w := Without(p, op.key);
    AfterAppend(w, x, e.key);
    AppendMeans(w, x);
    SubsetSize(After(w + [x], e.key), others);
    AfterNewest(w + [x], maxsize, e.key);
  }

  lemma {:induction false} SurvivesGet<V>(d: Store<V>, k: string, now: real, e: Entry<V>, others: set<string>)
    requires Distinct(d) && e in d && After(d, e.key) <= others && k != e.key
    requires Answer(d, k, now).Some? ==> k in others
    ensures e.key in Keys(GetIn(d, k, now)) && After(GetIn(d, k, now), e.key) <= others
  {
    hide Without, After, Keys, Distinct, Find;
    FindMeans(d, e);
    WithoutMeans(d, k);
    AfterWithout(d, k, e.key);
    if k in Keys(d) {
      AfterAppend(Without(d, k), Find(d, k).value, e.key);
      AppendMeans(Without(d, k), Find(d, k).value);
    }
  }

  /** A key just set or hit is the most recently used. */
  lemma {:induction false} JustTouched<V>(ops: seq<Op<V>>, n: nat, maxsize: int, key: string)
    requires n < |ops| && Touches(ops, n, maxsize, key) && maxsize > 0
    ensures key in Keys(At(ops, n + 1, maxsize)) && After(At(ops, n + 1, maxsize), key) == {}
  {
    hide Without, Purged, Distinct, Keys, Newest, After, Find;
    var d, op := At(ops, n, maxsize), ops[n];
    StaysValid(ops, n, maxsize);
    if op.Set? {
      SetIsNewest(d, op, maxsize);
    } else {
      HitIsNewest(d, key, op.now);
    }
  }

  lemma {:induction false} SetIsNewest<V>(d: Store<V>, op: Op<V>, maxsize: int)
    requires Distinct(d) && op.Set? && op.seconds > 0.0 && maxsize > 0
    ensures op.key in Keys(Apply(d, op, maxsize)) && After(Apply(d, op, maxsize), op.key) == {}
  {
    hide Without, Purged, Distinct, Keys, Newest, After;
    PurgedMeans(d, op.purgedAt);
    WithoutMeans(Purged(d, op.purgedAt), op.key);
    var w, x := Without(Purged(d, op.purgedAt), op.key), Entry(op.key, op.value, op.storedAt + op.seconds);
    AfterAppend(w, x, op.key);
    AppendMeans(w, x);
    AfterNewest(w + [x], maxsize, op.key);
  }

  lemma {:induction false} HitIsNewest<V>(d: Store<V>, key: string, now: real)
    requires Distinct(d) && Answer(d, key, now).Some?
    ensures key in Keys(GetIn(d, key, now)) && After(GetIn(d, key, now), key) == {}
  {
    hide Without, Distinct, Keys, After;
    WithoutMeans(d, key);
    AfterAppend(Without(d, key), Find(d, key).value, key);
    AppendMeans(Without(d, key), Find(d, key).value);
  }

  lemma {:induction false} StillStored<V>(ops: seq<Op<V>>, n: nat, maxsize: int, key: string, limit: real)
    requires n <= |ops| && LastSet(ops, n, key).Some?
    requires ReadBy(ops, n, limit) && limit < Deadline(ops[LastSet(ops, n, key).value])
    requires |OthersSince(ops, LastTouch(ops, n, maxsize, key).value, n, maxsize, key)| < maxsize
    ensures key in Keys(At(ops, n, maxsize))
    ensures After(At(ops, n, maxsize), key) <= OthersSince(ops, LastTouch(ops, n, maxsize, key).value, n, maxsize, key)
  {
    hide Apply, Answer, ReadBy;
    var m, t := n - 1, LastTouch(ops, n, maxsize, key).value;
    if t == m {
      JustTouched(ops, m, maxsize, key);
    } else {
      var others := OthersSince(ops, t, n, maxsize, key);
      NotTouched(ops, n, maxsize, key);
      ReadBefore(ops, n, limit);
      SubsetSize(OthersSince(ops, t, m, maxsize, key), others);
      StillStored(ops, m, maxsize, key, limit);
      var d, e := At(ops, m, maxsize), Find(At(ops, m, maxsize), key).value;
      EntriesAreLastSet(ops, m, maxsize, e);
      StaysValid(ops, m, maxsize);
      OneMoreStep(ops, n, maxsize, e, limit, others, t);
    }
  }

  lemma {:induction false} ReadBefore<V>(ops: seq<Op<V>>, n: nat, limit: real)
    requires 0 < n <= |ops| && ReadBy(ops, n, limit)
    ensures ReadBy(ops, n - 1, limit)
  {
  }

  lemma {:induction false} NotTouched<V>(ops: seq<Op<V>>, n: nat, maxsize: int, key: string)
    requires 0 < n <= |ops| && LastSet(ops, n, key).Some? && LastTouch(ops, n, maxsize, key).value != n - 1
    ensures LastSet(ops, n - 1, key) == LastSet(ops, n, key)
    ensures LastTouch(ops, n - 1, maxsize, key) == LastTouch(ops, n, maxsize, key)
    ensures !Touches(ops, n - 1, maxsize, key)
  {
  }

  lemma {:induction false} OneMoreStep<V>(ops: seq<Op<V>>, n: nat, maxsize: int, e: Entry<V>, limit: real,
                                          others: set<string>, t: nat)
    requires 0 < n <= |ops| && Distinct(At(ops, n - 1, maxsize)) && e in At(ops, n - 1, maxsize)
    requires LastSet(ops, n, e.key).Some? && !Touches(ops, n - 1, maxsize, e.key)
    requires ReadBy(ops, n, limit) && limit < e.expiresAt
    requires t < n - 1 && others == OthersSince(ops, t, n, maxsize, e.key) && |others| < maxsize
    requires After(At(ops, n - 1, maxsize), e.key) <= OthersSince(ops, t, n - 1, maxsize, e.key)
    ensures e.key in Keys(At(ops, n, maxsize)) && After(At(ops, n, maxsize), e.key) <= others
  {
    var d, op := At(ops, n - 1, maxsize), ops[n - 1];
    FindMeans(d, e);
    Survives(d, op, maxsize, e, others);
  }

  /** The guarantee.  If the last `set` of a key is unexpired and the key was neither
      deleted nor cleared since, and fewer than `maxsize` distinct other keys were set or
      hit since the key was last set or hit itself, then `get` answers that value. */
  lemma {:induction false} LruGuarantee<V>(ops: seq<Op<V>>, n: nat, maxsize: int, key: string, now: real)
    requires n <= |ops| && ReadBy(ops, n, now)
    requires LastSet(ops, n, key).Some? && now < Deadline(ops[LastSet(ops, n, key).value])
    requires |OthersSince(ops, LastTouch(ops, n, maxsize, key).value, n, maxsize, key)| < maxsize
    ensures Answer(At(ops, n, maxsize), key, now) == Some(ops[LastSet(ops, n, key).value].value)
  {
    StillStored(ops, n, maxsize, key, now);
    EntriesAreLastSet(ops, n, maxsize, Find(At(ops, n, maxsize), key).value);
  }
}
