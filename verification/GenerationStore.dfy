/** Reading, creating and rotating generation tokens while other processes use the same
    store (src/nova/cache/generation.py:48-76, src/nova/cache/backends/redis.py:98-168,
    src/nova/cache/backends/memcached.py:139-202). */
module Tokens {

  datatype Option<T> = None | Some(value: T)

  /** What a client hands back for a stored value. */
  datatype Raw = Bytes(data: seq<nat>) | Text(text: string) | Foreign

  predicate HexDigit(c: char) {
    '0' <= c <= '9' || 'a' <= c <= 'f'
  }

  predicate IsToken(t: string) {
    |t| == 32 && forall i :: 0 <= i < |t| ==> HexDigit(t[i])
  }

  function Encode(t: string): seq<nat> {
    seq(|t|, i requires 0 <= i < |t| => t[i] as int)
  }

  function Decode(data: seq<nat>): Option<string> {
    if exists i :: 0 <= i < |data| && data[i] >= 128 then None
    else Some(seq(|data|, i requires 0 <= i < |data| && data[i] < 128 => data[i] as char))
  }

  /** `validate_generation`: `None` is `GenerationUnavailableError`. */
  function Validate(raw: Raw): Option<string> {
    var text := match raw
      case Bytes(data) => Decode(data)
      case Text(t) => Some(t)
      case Foreign => None;
    if text.Some? && IsToken(text.value) then text else None
  }

  /** Validation accepts a token as text or as its bytes, and nothing else. */
  lemma {:induction false} ValidateIsExact(raw: Raw, t: string)
    ensures Validate(raw) == Some(t) <==> IsToken(t) && (raw == Text(t) || raw == Bytes(Encode(t)))
  {
    if raw.Bytes? {
      var data := raw.data;
      if Validate(raw) == Some(t) {
        assert forall i :: 0 <= i < |data| ==> t[i] as int == data[i];
        assert Encode(t) == data;
      }
      if IsToken(t) && data == Encode(t) {
        assert forall i :: 0 <= i < |t| ==> HexDigit(t[i]);
        var d := Decode(data);
        assert d.Some? && d.value == t;
      }
    }
  }

  const SAMPLE := "00000000000000000000000000000000"

  /** `new_generation`: some token; that it was never drawn before is not needed here. */
  method NewGeneration() returns (t: string)
    ensures IsToken(t)
  {
    assert IsToken(SAMPLE);
    t :| IsToken(t);
  }
}

module GenerationStore {
  import opened Tokens

  type StoreState = map<string, Raw>

  datatype Error = Corrupt | Transport | Disappeared | BadBatch | NotAcknowledged

  datatype Result<T> = Ok(value: T) | Unavailable(error: Error)

  datatype Reply = Value(raw: Option<Raw>) | ReadFailed

  datatype BatchReply = Values(raws: seq<Option<Raw>>) | NotABatch | BatchFailed

  datatype Written = Done | Declined | WriteFailed

  /** MGET answers nothing for a value that is no string. */
  function ReadOne(present: StoreState, key: string): Option<Raw> {
    if key in present && !present[key].Foreign? then Some(present[key]) else None
  }

  /** The shared store.  `history` lists the states it went through, the present one last;
      `attempts` counts the writes this client sent, `mine` says which states in the
      history those writes produced, and `faults` counts commands of this client that
      failed, `malformed` those that got a malformed reply. */
  class Store {
    var tokens: StoreState
    ghost var history: seq<StoreState>
    ghost var attempts: nat
    ghost var mine: set<nat>
    ghost var faults: nat
    ghost var malformed: nat

    ghost predicate Valid()
      reads this
    {
      history != [] && history[|history| - 1] == tokens && forall i :: i in mine ==> 0 < i < |history|
    }

    constructor (tokens: StoreState)
      ensures Valid() && this.tokens == tokens && attempts == 0 && mine == {}
    {
      this.tokens, history, attempts, mine, faults, malformed := tokens, [tokens], 0, {}, 0, 0;
    }

    /** Other processes may rotate, create, corrupt and evict anything, any number of
        times, before each command. */
    method Others()
      requires Valid()
      modifies `tokens, `history
      ensures Valid() && old(history) <= history
    {
      var passed: seq<StoreState> := *;
      history := history + passed;
      if passed != [] { tokens := passed[|passed| - 1]; }
    }

    method Get(key: string) returns (r: Reply)
      requires Valid()
      modifies `tokens, `history, `faults
      ensures Valid() && old(history) <= history && faults == old(faults) + (if r.Value? then 0 else 1)
      ensures r.Value? ==> r.raw == if key in tokens then Some(tokens[key]) else None
    {
      Others();
      var fails: bool := *;
      if fails {
        faults := faults + 1;
        return ReadFailed;
      }
      r := Value(if key in tokens then Some(tokens[key]) else None);
    }

    /** One command for many keys.  A value of a foreign type reads as missing; the reply
        may also be malformed or of the wrong length. */
    method GetMany(keys: seq<string>) returns (r: BatchReply)
      requires Valid()
      modifies `tokens, `history, `faults, `malformed
      ensures Valid() && old(history) <= history
      ensures faults == old(faults) + (if r.BatchFailed? then 1 else 0)
      ensures malformed == old(malformed) + (if r.BatchFailed? || (r.Values? && |r.raws| == |keys|) then 0 else 1)
      ensures r.Values? && |r.raws| == |keys| ==> forall i :: 0 <= i < |keys| && r.raws[i].Some? ==>
                keys[i] in tokens && tokens[keys[i]] == r.raws[i].value
    {
      Others();
      var outcome: nat, other: seq<Option<Raw>> := *, *;
      if outcome == 0 {
        faults := faults + 1;
        return BatchFailed;
      }
      if outcome == 1 || (outcome == 2 && |other| != |keys|) {
        malformed := malformed + 1;
        return if outcome == 1 then NotABatch else Values(other);
      }
      var present := tokens;
      r := Values(seq(|keys|, i requires 0 <= i < |keys| => ReadOne(present, keys[i])));
    }

    /** The server's plain store command. */
    method Put(key: string, token: string)
      requires Valid()
      modifies `tokens, `history, `mine
      ensures Valid() && tokens == old(tokens)[key := Bytes(Encode(token))]
      ensures history == old(history) + [tokens] && mine == old(mine) + {|old(history)|}
    {
      tokens := tokens[key := Bytes(Encode(token))];
      history, mine := history + [tokens], mine + {|history|};
    }

    /** The server's conditional store command: it never replaces a value. */
    method PutIfAbsent(key: string, token: string) returns (stored: bool)
      requires Valid()
      modifies `tokens, `history, `mine
      ensures Valid() && stored == (key !in old(tokens))
      ensures stored ==> tokens == old(tokens)[key := Bytes(Encode(token))]
                         && history == old(history) + [tokens] && mine == old(mine) + {|old(history)|}
      ensures !stored ==> tokens == old(tokens) && history == old(history) && mine == old(mine)
    {
      stored := key !in tokens;
      if stored { Put(key, token); }
    }

    /** Something went wrong with a command of this client. */
    method Fault()
      modifies `faults
      ensures faults == old(faults) + 1
    {
      faults := faults + 1;
    }

    /** The generation writer: one attempt.  When it fails, the write may or may not have
        been applied. */
    method Write(key: string, token: string, onlyIfAbsent: bool) returns (w: Written)
      requires Valid()
      modifies this
      ensures Valid() && attempts == old(attempts) + 1 && malformed == old(malformed)
      ensures faults == old(faults) + (if w.WriteFailed? then 1 else 0)
      ensures WriteDid(old(history), history, old(mine), mine, key, token, onlyIfAbsent, w)
    {
      Others();
      attempts := attempts + 1;
      var applied: bool, answered: bool := *, *;
      faults := faults + (if answered then 0 else 1);
      var stored := true;
      if applied || answered {
        if onlyIfAbsent { stored := PutIfAbsent(key, token); } else { Put(key, token); }
      }
      w := if !answered then WriteFailed else if stored then Done else Declined;
    }
  }

  /** What one write attempt can have done between two moments: at most one state of the
      history is its own, and wrote the token, over nothing if it was a creation.  `Done`
      means that it wrote; `Declined` means that a creation found a value and left it. */
  ghost predicate WriteDid(h0: seq<StoreState>, h1: seq<StoreState>, m0: set<nat>, m1: set<nat>,
                           key: string, token: string, onlyIfAbsent: bool, w: Written) {
    && h0 <= h1 && h1 != [] && (m1 == m0 || m1 == m0 + {|h1| - 1})
    && (forall i :: i in m1 - m0 ==> |h0| <= i && Wrote(h1, i, key, token, onlyIfAbsent))
    && (w == Done ==> |h1| - 1 in m1 - m0)
    && (w == Declined ==> onlyIfAbsent && m1 == m0 && key in h1[|h1| - 1])
  }

  /** The state at `i` came from the one before by this write, which, if it was a
      creation, found nothing to overwrite. */
  ghost predicate Wrote(history: seq<StoreState>, i: nat, key: string, token: string, onlyIfAbsent: bool) {
    && 0 < i < |history| && history[i] == history[i - 1][key := Bytes(Encode(token))]
    && (onlyIfAbsent ==> key !in history[i - 1])
  }

  ghost predicate Created(history: seq<StoreState>, i: nat, key: string) {
    exists token :: IsToken(token) && Wrote(history, i, key, token, true)
  }

  ghost predicate AllCreated(history: seq<StoreState>, mine: set<nat>, from: nat, key: string) {
    forall i :: i in mine ==> from <= i && Created(history, i, key)
  }

  /** At some moment from position `from` on, `token` was the scope's stored token. */
  ghost predicate CurrentSince(history: seq<StoreState>, from: nat, key: string, token: string) {
    exists i :: from <= i < |history| && key in history[i] && Validate(history[i][key]) == Some(token)
  }

  ghost predicate CorruptSince(history: seq<StoreState>, from: nat, key: string) {
    exists i :: from <= i < |history| && key in history[i] && Validate(history[i][key]) == None
  }

  /** From position `from` on, the key was missing, then present, then missing again, and so on. */
  ghost predicate Flickers(history: seq<StoreState>, from: nat, key: string, at: seq<nat>) {
    && (forall i :: 0 <= i < |at| ==> from <= at[i] < |history| && (key in history[at[i]] <==> i % 2 == 1))
    && (forall i, j :: 0 <= i < j < |at| ==> at[i] < at[j])
  }

  /** It was missing three times, and present after each of them. */
  ghost predicate GoneThrice(history: seq<StoreState>, from: nat, key: string) {
    exists at :: |at| == 6 && Flickers(history, from, key, at)
  }

  lemma {:induction false} FlickersOnce(h: seq<StoreState>, k: seq<StoreState>, from: nat, key: string, at: seq<nat>,
                                        gap: nat)
    requires h <= k && |at| % 2 == 0 && Flickers(h, from, key, at)
    requires |h| - 1 <= gap && from <= gap < |k| - 1 && key !in k[gap] && key in k[|k| - 1]
    ensures Flickers(k, from, key, at + [gap, |k| - 1])
  {
    assert at != [] ==> key in h[at[|at| - 1]];
  }

  lemma {:induction false} NothingYet(history: seq<StoreState>, key: string)
    ensures forall from: nat :: Flickers(history, from, key, []) && AllCreated(history, {}, from, key)
  {
  }

  lemma {:induction false} GoneBefore(history: seq<StoreState>, from: nat, later: nat, key: string)
    requires from <= later && GoneThrice(history, later, key)
    ensures GoneThrice(history, from, key)
  {
    var at :| |at| == 6 && Flickers(history, later, key, at);
    assert Flickers(history, from, key, at);
  }

  /** `get_generation`.  It returns only a token that was current while it ran; it sends
      at most three writes, each a creation that can only fill a gap; a corrupt value is
      reported, never replaced.  It gives up only over a corrupt value, a command that
      failed, or a token that was gone again after each of three creations. */
  method GetGeneration(store: Store, key: string) returns (r: Result<string>)
    requires store.Valid()
    modifies store
    ensures store.Valid() && old(store.history) <= store.history && store.malformed == old(store.malformed)
    ensures r.Ok? ==> IsToken(r.value) && CurrentSince(store.history, |old(store.history)| - 1, key, r.value)
    ensures r == Unavailable(Transport) <==> store.faults != old(store.faults)
    ensures old(store.faults) <= store.faults
    ensures r == Unavailable(Corrupt) ==> CorruptSince(store.history, |old(store.history)| - 1, key)
    ensures store.attempts <= old(store.attempts) + 3
    ensures r == Unavailable(Disappeared) ==>
              store.attempts == old(store.attempts) + 3 && GoneThrice(store.history, |old(store.history)| - 1, key)
    ensures old(store.mine) <= store.mine
    ensures AllCreated(store.history, store.mine - old(store.mine), |old(store.history)|, key)
    ensures r.Unavailable? ==> r.error in {Corrupt, Transport, Disappeared}
  {
    hide Flickers, Validate, IsToken, AllCreated;
    ghost var base, at: seq<nat> := |old(store.history)| - 1, [];
    NothingYet(store.history, key);
    assert store.mine - old(store.mine) == {};
    for round := 0 to 3
      invariant store.Valid() && old(store.history) <= store.history && old(store.mine) <= store.mine
      invariant store.attempts == old(store.attempts) + round && store.faults == old(store.faults)
      invariant store.malformed == old(store.malformed)
      invariant AllCreated(store.history, store.mine - old(store.mine), |old(store.history)|, key)
      invariant |at| == 2 * round && Flickers(store.history, base, key, at)
    {
      ghost var h0 := store.history;
      var read := store.Get(key);
      WriteAdds(h0, store.history, store.mine - old(store.mine), {}, |old(store.history)|, key, SAMPLE);
      assert store.mine - old(store.mine) + {} == store.mine - old(store.mine);
      if read.ReadFailed? { return Unavailable(Transport); }
      if read.raw.Some? {
        var token := Validate(read.raw.value);
        ghost var last := |store.history| - 1;
        assert key in store.history[last] && Validate(store.history[last][key]) == token;
        if token.Some? { ValidateIsExact(read.raw.value, token.value); }
        return if token.Some? then Ok(token.value) else Unavailable(Corrupt);
      }
      var created := NewGeneration();
      ghost var h1, m1 := store.history, store.mine;
      var w := store.Write(key, created, true);
      assert store.mine - old(store.mine) == (m1 - old(store.mine)) + (store.mine - m1);
      WriteAdds(h1, store.history, m1 - old(store.mine), store.mine - m1, |old(store.history)|, key, created);
      if w.WriteFailed? { return Unavailable(Transport); }
      FlickersOnce(h0, store.history, base, key, at, |h1| - 1);
      at := at + [|h1| - 1, |store.history| - 1];
    }
    r := Unavailable(Disappeared);
  }

  lemma {:induction false} WriteAdds(h: seq<StoreState>, k: seq<StoreState>, before: set<nat>, added: set<nat>,
                                     from: nat, key: string, token: string)
    requires h <= k && from <= |h| && AllCreated(h, before, from, key) && (added != {} ==> IsToken(token))
    requires forall i :: i in added ==> |h| <= i && Wrote(k, i, key, token, true)
    ensures AllCreated(k, before + added, from, key)
  {
    CreatedStays(h, k, key);
  }

  lemma {:induction false} CreatedStays(h: seq<StoreState>, k: seq<StoreState>, key: string)
    requires h <= k
    ensures forall i :: Created(h, i, key) ==> Created(k, i, key)
  {
    forall i: nat | Created(h, i, key) ensures Created(k, i, key) {
      var t :| IsToken(t) && Wrote(h, i, key, t, true);
      assert Wrote(k, i, key, t, true);
    }
  }

  lemma {:induction false} SinceStays(h: seq<StoreState>, k: seq<StoreState>, from: nat, key: string, t: string)
    requires h <= k && CurrentSince(h, from, key, t)
    ensures CurrentSince(k, from, key, t)
  {
    var i :| from <= i < |h| && key in h[i] && Validate(h[i][key]) == Some(t);
    assert h[i] == k[i];
  }

  /** `tuple(dict.fromkeys(scopes))`: first occurrences, in order. */
  function Unique(scopes: seq<string>): (r: seq<string>)
    ensures forall x :: x in r <==> x in scopes
    ensures forall i, j :: 0 <= i < j < |r| ==> r[i] != r[j]
  {
    if scopes == [] then []
    else
      var rest, last := Unique(scopes[..|scopes| - 1]), scopes[|scopes| - 1];
      assert scopes == scopes[..|scopes| - 1] + [last];
      if last in rest then rest else rest + [last]
  }

  ghost predicate AllCurrent(history: seq<StoreState>, from: nat, tokens: map<string, string>) {
    forall s :: s in tokens ==> CurrentSince(history, from, s, tokens[s])
  }

  /** Every state this client produced was a creation for one of the scopes. */
  ghost predicate OnlyCreations(history: seq<StoreState>, mine: set<nat>, from: nat, scopes: seq<string>) {
    forall i :: i in mine ==> from <= i && exists s :: s in scopes && Created(history, i, s)
  }

  /** What is stored now was stored at some moment since. */
  lemma {:induction false} SinceNow(h: seq<StoreState>, from: nat, key: string)
    requires from < |h| && key in h[|h| - 1]
    ensures match Validate(h[|h| - 1][key])
            case Some(t) => CurrentSince(h, from, key, t)
            case None => CorruptSince(h, from, key)
  {
  }

  /** All values of a batch are validated before any is used: the tokens of the scopes
      that have one, or nothing. */
  method AcceptBatch(scopes: seq<string>, raws: seq<Option<Raw>>) returns (r: Result<map<string, string>>)
    requires |raws| == |scopes| && forall i, j :: 0 <= i < j < |scopes| ==> scopes[i] != scopes[j]
    ensures r.Ok? <==> forall i :: 0 <= i < |scopes| && raws[i].Some? ==> Validate(raws[i].value).Some?
    ensures r.Ok? ==> forall i :: 0 <= i < |scopes| ==>
              (scopes[i] in r.value <==> raws[i].Some?)
              && (raws[i].Some? ==> Validate(raws[i].value) == Some(r.value[scopes[i]]))
    ensures r.Ok? ==> forall s :: s in r.value ==> exists i :: 0 <= i < |scopes| && scopes[i] == s
    ensures r.Unavailable? ==> r.error == Corrupt
  {
    var tokens: map<string, string> := map[];
    for k := 0 to |scopes|
      invariant forall i :: 0 <= i < k ==>
                  (scopes[i] in tokens <==> raws[i].Some?)
                  && (raws[i].Some? ==> Validate(raws[i].value) == Some(tokens[scopes[i]]))
      invariant forall s :: s in tokens ==> exists i :: 0 <= i < k && scopes[i] == s
    {
      if raws[k].Some? {
        var token := Validate(raws[k].value);
        if token.None? { return Unavailable(Corrupt); }
        tokens := tokens[scopes[k] := token.value];
      }
    }
    r := Ok(tokens);
  }

  /** The batch command and the checks on its reply; nothing is written. */
  method ReadBatch(store: Store, scopes: seq<string>) returns (r: Result<map<string, string>>)
    requires store.Valid() && forall i, j :: 0 <= i < j < |scopes| ==> scopes[i] != scopes[j]
    modifies store`tokens, store`history, store`faults, store`malformed
    ensures store.Valid() && old(store.history) <= store.history && old(store.faults) <= store.faults
    ensures r.Ok? ==> AllCurrent(store.history, |old(store.history)| - 1, r.value) && forall s :: s in r.value ==> s in scopes
    ensures r == Unavailable(Transport) <==> store.faults != old(store.faults)
    ensures r == Unavailable(BadBatch) <==> store.malformed != old(store.malformed)
    ensures r.Unavailable? ==> r.error in {Corrupt, Transport, BadBatch}
    ensures r == Unavailable(Corrupt) ==>
              exists s :: s in scopes && CorruptSince(store.history, |old(store.history)| - 1, s)
  {
    var reply := store.GetMany(scopes);
    if reply.BatchFailed? { return Unavailable(Transport); }
    if reply.NotABatch? || |reply.raws| != |scopes| { return Unavailable(BadBatch); }
    r := AcceptBatch(scopes, reply.raws);
    hide Validate, CurrentSince, CorruptSince;
    ghost var base, last := |old(store.history)| - 1, |store.history| - 1;
    assert store.history[last] == store.tokens;
    if r.Ok? {
      forall s | s in r.value ensures CurrentSince(store.history, base, s, r.value[s]) {
        var i :| 0 <= i < |scopes| && scopes[i] == s;
        SinceNow(store.history, base, scopes[i]);
      }
    } else {
      var i :| 0 <= i < |scopes| && reply.raws[i].Some? && !Validate(reply.raws[i].value).Some?;
      SinceNow(store.history, base, scopes[i]);
      assert scopes[i] in scopes && CorruptSince(store.history, base, scopes[i]);
    }
  }

  /** `get_generations`, with or without a batch command.  It answers exactly the scopes
      it was asked for, each with a token that a single-scope call could have returned;
      it writes only creations, three for each scope at most.  It gives up only for the
      reasons of a single-scope call, or over a malformed batch, and then it wrote nothing. */
  method GetGenerations(store: Store, scopes: seq<string>, batched: bool) returns (r: Result<map<string, string>>)
    requires store.Valid()
    modifies store
    ensures store.Valid() && old(store.history) <= store.history && old(store.mine) <= store.mine
    ensures r.Ok? ==> r.value.Keys == set s | s in scopes
    ensures r.Ok? ==> AllCurrent(store.history, |old(store.history)| - 1, r.value)
    ensures store.attempts <= old(store.attempts) + 3 * |Unique(scopes)|
    ensures OnlyCreations(store.history, store.mine - old(store.mine), |old(store.history)|, scopes)
    ensures r.Unavailable? && r.error == BadBatch ==> batched && store.attempts == old(store.attempts)
    ensures r == Unavailable(Transport) <==> store.faults != old(store.faults)
    ensures r == Unavailable(BadBatch) <==> store.malformed != old(store.malformed)
    ensures r == Unavailable(Corrupt) ==>
              exists s :: s in scopes && CorruptSince(store.history, |old(store.history)| - 1, s)
    ensures r == Unavailable(Disappeared) ==>
              exists s :: s in scopes && GoneThrice(store.history, |old(store.history)| - 1, s)
    ensures r.Unavailable? ==> r.error in {Corrupt, Transport, Disappeared, BadBatch}
  {
    var unique := Unique(scopes);
    if unique == [] {
      assert (set s | s in scopes) == {};
      return Ok(map[]);
    }
    if !batched {
      r := EachGeneration(store, unique, map[]);
      SameScopes(store.history, store.mine - old(store.mine), |old(store.history)|, unique, scopes);
      return;
    }
    var known := ReadBatch(store, unique);
    if known.Unavailable? {
      assert known.error == Corrupt ==> exists s :: s in scopes && CorruptSince(store.history, |old(store.history)| - 1, s);
      return Unavailable(known.error);
    }
    r := EachGeneration(store, unique, known.value);
    SameScopes(store.history, store.mine - old(store.mine), |old(store.history)|, unique, scopes);
  }

  lemma {:induction false} SameScopes(history: seq<StoreState>, mine: set<nat>, from: nat, unique: seq<string>,
                                      scopes: seq<string>)
    requires OnlyCreations(history, mine, from, unique) && forall x :: x in unique <==> x in scopes
    ensures OnlyCreations(history, mine, from, scopes)
  {
    forall i | i in mine ensures from <= i && exists s :: s in scopes && Created(history, i, s) {
      var s :| s in unique && Created(history, i, s);
      assert s in scopes;
    }
  }

  /** The scopes without a token yet, one `get_generation` each. */
  method EachGeneration(store: Store, scopes: seq<string>, known: map<string, string>)
      returns (r: Result<map<string, string>>)
    requires store.Valid() && forall s :: s in known ==> s in scopes
    modifies store
    ensures store.Valid() && old(store.history) <= store.history && old(store.mine) <= store.mine
    ensures r.Ok? ==> r.value.Keys == set s | s in scopes
    ensures forall from: nat :: from < |old(store.history)| && AllCurrent(old(store.history), from, known) && r.Ok? ==>
              AllCurrent(store.history, from, r.value)
    ensures store.attempts <= old(store.attempts) + 3 * |scopes|
    ensures OnlyCreations(store.history, store.mine - old(store.mine), |old(store.history)|, scopes)
    ensures r.Unavailable? ==> r.error in {Corrupt, Transport, Disappeared}
    ensures old(store.faults) <= store.faults && (r == Unavailable(Transport) <==> store.faults != old(store.faults))
    ensures store.malformed == old(store.malformed)
    ensures r == Unavailable(Corrupt) ==>
              exists s :: s in scopes && CorruptSince(store.history, |old(store.history)| - 1, s)
    ensures r == Unavailable(Disappeared) ==>
              exists s :: s in scopes && GoneThrice(store.history, |old(store.history)| - 1, s)
  {
    hide GoneThrice;
    var tokens := known;
    for k := 0 to |scopes|
      invariant store.Valid() && old(store.history) <= store.history && old(store.mine) <= store.mine
      invariant forall s :: s in tokens <==> s in known || exists i :: 0 <= i < k && scopes[i] == s
      invariant forall from: nat :: from < |old(store.history)| && AllCurrent(old(store.history), from, known) ==>
                  AllCurrent(store.history, from, tokens)
      invariant store.attempts <= old(store.attempts) + 3 * k && store.faults == old(store.faults)
      invariant store.malformed == old(store.malformed)
      invariant OnlyCreations(store.history, store.mine - old(store.mine), |old(store.history)|, scopes)
    {
      if scopes[k] !in known {
        ghost var h, m := store.history, store.mine;
        var one := GetGeneration(store, scopes[k]);
        CreationsAdd(h, store.history, m - old(store.mine), store.mine - m, |old(store.history)|, scopes, scopes[k]);
        assert store.mine - old(store.mine) == (m - old(store.mine)) + (store.mine - m);
        if one == Unavailable(Disappeared) { GoneBefore(store.history, |old(store.history)| - 1, |h| - 1, scopes[k]); }
        if one.Unavailable? { return Unavailable(one.error); }
        CurrentAdds(h, store.history, |old(store.history)|, tokens, scopes[k], one.value);
        tokens := tokens[scopes[k] := one.value];
      }
    }
    assert tokens.Keys == set s | s in scopes;
    r := Ok(tokens);
  }

  lemma {:induction false} CreationsAdd(h: seq<StoreState>, k: seq<StoreState>, before: set<nat>, added: set<nat>,
                                        from: nat, scopes: seq<string>, scope: string)
    requires h <= k && OnlyCreations(h, before, from, scopes) && scope in scopes && from <= |h|
    requires forall i :: i in added ==> |h| <= i && Created(k, i, scope)
    ensures OnlyCreations(k, before + added, from, scopes)
  {
    forall i | i in before ensures exists s :: s in scopes && Created(k, i, s) {
      var s :| s in scopes && Created(h, i, s);
      CreatedStays(h, k, s);
    }
  }

  lemma {:induction false} CurrentAdds(h: seq<StoreState>, k: seq<StoreState>, limit: nat, tokens: map<string, string>,
                                       scope: string, token: string)
    requires h <= k && 0 < |h| && limit <= |h| && CurrentSince(k, |h| - 1, scope, token)
    ensures forall from: nat :: from < limit && AllCurrent(h, from, tokens) ==> AllCurrent(k, from, tokens[scope := token])
  {
    forall from: nat | from < limit && AllCurrent(h, from, tokens) ensures AllCurrent(k, from, tokens[scope := token]) {
      var all := tokens[scope := token];
      forall s | s in all ensures CurrentSince(k, from, s, all[s]) {
        if s != scope { SinceStays(h, k, from, s, tokens[s]); }
      }
    }
  }

  /** `rotate_generation`: one write.  Acknowledged, the token it returns was installed
      while it ran, whatever was there before; otherwise it reports failure, and the write
      may or may not have happened. */
  method RotateGeneration(store: Store, key: string) returns (r: Result<string>)
    requires store.Valid()
    modifies store
    ensures store.Valid() && old(store.history) <= store.history && store.attempts == old(store.attempts) + 1
    ensures r.Ok? ==> IsToken(r.value) && CurrentSince(store.history, |old(store.history)|, key, r.value)
    ensures r.Unavailable? <==> store.faults != old(store.faults)
    ensures forall i :: i in store.mine - old(store.mine) ==>
              exists t :: IsToken(t) && Wrote(store.history, i, key, t, false)
  {
    var token := NewGeneration();
    var w := store.Write(key, token, false);
    if w != Done { return Unavailable(if w.WriteFailed? then Transport else NotAcknowledged); }
    ghost var last := |store.history| - 1;
    assert Wrote(store.history, last, key, token, false);
    ValidateIsExact(store.history[last][key], token);
    r := Ok(token);
  }
}
