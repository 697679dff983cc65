/** Key namespaces of the Redis backend: the escaped pattern of `clear`, and its SCAN
    loop (src/nova/cache/backends/redis.py:92-96 and 241-274). */
module Glob {

  /** Result of reading a bracket class: whether it holds the character, and what follows. */
  datatype Class = Class(holds: bool, rest: string)

  /** Read up to the closing bracket: escaped characters, ranges, single characters.  An
      unclosed class ends with the pattern. */
  function ReadClass(p: string, c: char, holds: bool): (r: Class)
    ensures |r.rest| <= |p|
  {
    if p == "" then Class(holds, "")
    else if p[0] == ']' then Class(holds, p[1..])
    else if p[0] == '\\' && |p| >= 2 then ReadClass(p[2..], c, holds || p[1] == c)
    else if |p| >= 3 && p[1] == '-' then
      ReadClass(p[3..], c, holds || p[0] <= c <= p[2] || p[2] <= c <= p[0])
    else ReadClass(p[1..], c, holds || p[0] == c)
  }

  /** Glob matching as Redis does it for SCAN MATCH. */
  predicate Matches(p: string, s: string)
    decreases |p| + |s|
  {
    if p == "" then s == ""
    else if p[0] == '*' then Matches(p[1..], s) || (s != "" && Matches(p, s[1..]))
    else if s == "" then false
    else if p[0] == '?' then Matches(p[1..], s[1..])
    else if p[0] == '[' then
      if |p| >= 2 && p[1] == '^' then
        var k := ReadClass(p[2..], s[0], false);
        !k.holds && Matches(k.rest, s[1..])
      else
        var k := ReadClass(p[1..], s[0], false);
        k.holds && Matches(k.rest, s[1..])
    else if p[0] == '\\' && |p| >= 2 then p[1] == s[0] && Matches(p[2..], s[1..])
    else p[0] == s[0] && Matches(p[1..], s[1..])
  }

  predicate Special(c: char) {
    c in "\\*?[]"
  }

  /** How one character is written in the pattern: a wildcard is escaped. */
  function Word(c: char): string {
    if Special(c) then ['\\', c] else [c]
  }

  /** `escaped_prefix`. */
  function Escape(prefix: string): string {
    if prefix == "" then ""
    else Word(prefix[0]) + Escape(prefix[1..])
  }

  function Pattern(prefix: string): string {
    Escape(prefix) + ":*"
  }

  predicate InNamespace(prefix: string, key: string) {
    prefix + ":" <= key
  }

  lemma {:induction false} StarMatchesAll(s: string)
    ensures Matches("*", s)
  {
    if s == "" { assert Matches("", s); } else { StarMatchesAll(s[1..]); }
  }

  /** An escaped character is no wildcard. */
  lemma {:induction false} OneCharacter(c: char, p: string, s: string)
    ensures Matches(Word(c) + p, s) <==> s != "" && s[0] == c && Matches(p, s[1..])
  {
    if Special(c) {
      assert (['\\', c] + p)[2..] == p;
    } else {
      assert ([c] + p)[1..] == p;
    }
  }

  /** An escaped text matches only itself, whatever pattern follows it. */
  lemma {:induction false} EscapedIsLiteral(prefix: string, p: string, s: string)
    ensures Matches(Escape(prefix) + p, s) <==> prefix <= s && Matches(p, s[|prefix|..])
  {
    if prefix == "" {
      assert Escape(prefix) + p == p && s[0..] == s;
    } else {
      var c, rest := prefix[0], prefix[1..];
      OneCharacter(c, Escape(rest) + p, s);
      assert Escape(prefix) + p == Word(c) + (Escape(rest) + p);
      if s != "" {
        EscapedIsLiteral(rest, p, s[1..]);
        hide Matches;
        assert s == [s[0]] + s[1..] && prefix == [c] + rest;
        assert prefix <= s <==> c == s[0] && rest <= s[1..];
        assert prefix <= s ==> s[1..][|rest|..] == s[|prefix|..];
      }
    }
  }

  /** The pattern of `clear` matches a key exactly when the key is the literal prefix, a
      colon and anything: for every prefix, whatever wildcards it contains. */
  lemma {:induction false} PatternIsNamespace(prefix: string, key: string)
    ensures Matches(Pattern(prefix), key) <==> InNamespace(prefix, key)
  {
    EscapedIsLiteral(prefix, ":*", key);
    if prefix <= key {
      var s := key[|prefix|..];
      assert key == prefix + s;
      if s != "" { StarMatchesAll(s[1..]); }
      assert ":*"[1..] == "*";
      assert Matches(":*", s) <==> s != "" && s[0] == ':';
    }
  }

  /** `_make_key`. */
  function MakeKey(prefix: string, key: string): string {
    if prefix == "" then key else prefix + ":" + key
  }

  /** A backend never mixes up two keys, and without a prefix it stores them as they are. */
  lemma {:induction false} StoredKeysAreDistinct(prefix: string, key: string, other: string)
    ensures MakeKey(prefix, key) == MakeKey(prefix, other) <==> key == other
    ensures MakeKey("", key) == key
  {
    if prefix != "" {
      assert (prefix + ":" + key)[|prefix| + 1..] == key && (prefix + ":" + other)[|prefix| + 1..] == other;
    }
  }

  /** Everything a prefixed backend writes, result or token, is in its own namespace. */
  lemma {:induction false} OwnKeysMatch(prefix: string, key: string)
    requires prefix != ""
    ensures Matches(Pattern(prefix), MakeKey(prefix, key))
  {
    PatternIsNamespace(prefix, MakeKey(prefix, key));
  }

  /** A clear reaches no key of another backend exactly when neither namespace lies
      inside the other: prefixes that nest at a colon share keys. */
  lemma {:induction false} OtherBackendsAreSafe(prefix: string, other: string)
    requires other != ""
    ensures (forall key :: !Matches(Pattern(prefix), MakeKey(other, key)))
       <==> !(prefix + ":" <= other + ":") && !(other + ":" <= prefix + ":")
  {
    forall key ensures Matches(Pattern(prefix), MakeKey(other, key)) <==> prefix + ":" <= other + ":" + key {
      PatternIsNamespace(prefix, MakeKey(other, key));
    }
    var p, o := prefix + ":", other + ":";
    if p <= o {
      assert p <= o + "";
      assert Matches(Pattern(prefix), MakeKey(other, ""));
    } else if o <= p {
      assert p <= o + p[|o|..];
      assert Matches(Pattern(prefix), MakeKey(other, p[|o|..]));
    } else {
      forall key ensures !Matches(Pattern(prefix), MakeKey(other, key)) {
        if p <= o + key { PrefixesNest(p, o, key); }
      }
    }
  }

  lemma {:induction false} PrefixesNest(p: string, o: string, key: string)
    requires p <= o + key
    ensures p <= o || o <= p
  {
    forall i | 0 <= i < |p| && i < |o| ensures p[i] == o[i] {
      assert p[i] == (o + key)[i];
    }
  }

  ghost predicate Plain(s: string) {
    forall i :: 0 <= i < |s| ==> !Special(s[i])
  }

  lemma {:induction false} PlainIsEscaped(s: string)
    requires Plain(s)
    ensures Escape(s) == s
  {
    if s != "" {
      PlainIsEscaped(s[1..]);
      assert s == [s[0]] + s[1..];
    }
  }

  /** Why a wildcard has to be escaped: left bare anywhere in a prefix, it makes the pattern
      match a key outside the namespace. */
  lemma {:induction false} WildcardsNeedEscaping(before: string, wildcard: char, rest: string) returns (key: string)
    requires wildcard in "*?" && Plain(before) && Plain(rest)
    ensures Matches(before + [wildcard] + rest + ":*", key) && !InNamespace(before + [wildcard] + rest, key)
  {
    key := before + "x" + rest + ":";
    var p := rest + ":*";
    PlainIsEscaped(before);
    EscapedIsLiteral(before, [wildcard] + p, key);
    assert before + [wildcard] + rest + ":*" == before + ([wildcard] + p);
    assert key[|before|..] == "x" + (rest + ":");
    PlainIsEscaped(rest);
    PatternIsNamespace(rest, rest + ":");
    assert Matches(p, rest + ":");
    assert ([wildcard] + p)[1..] == p && ("x" + (rest + ":"))[1..] == rest + ":";
    assert Matches([wildcard] + p, rest + ":") || wildcard == '?' by {
      if wildcard == '*' { assert Matches(['*'] + p, rest + ":"); }
    }
    assert Matches([wildcard] + p, "x" + (rest + ":"));
    assert key[|before|] == 'x' && (before + [wildcard] + rest + ":")[|before|] == wildcard;
  }
}

module RedisClear {
  import opened Glob

  /** Replies to SCAN; a reply without its two parts is not an error to the caller. */
  datatype Reply = Page(cursor: nat, keys: seq<string>) | Short | Failed

  datatype Outcome = Cleared | Stopped | Refused | Error

  /** A Redis server that other clients use too.  Every key sits in one hash slot, and a
      scan reports the keys it finds in the slots it visits.  The ghost fields record,
      from some point on, which keys other clients removed (`lost`) and added (`gained`),
      which keys our own DEL commands removed or would have removed (`deleted`), and how
      many of our commands failed (`faults`) or got a short reply (`shorts`). */
  class Server {
    var keys: set<string>
    const slots: nat
    const slotOf: string -> nat
    ghost var lost: set<string>
    ghost var gained: set<string>
    ghost var deleted: set<string>
    ghost var faults: nat
    ghost var shorts: nat

    constructor (keys: set<string>, slots: nat, slotOf: string -> nat)
    {
      this.keys, this.slots, this.slotOf := keys, slots, slotOf;
      lost, gained, deleted, faults, shorts := {}, {}, {}, 0, 0;
    }

    ghost method Record()
      modifies `lost, `gained, `deleted, `faults, `shorts
      ensures lost == {} && gained == {} && deleted == {} && faults == 0 && shorts == 0
    {
      lost, gained, deleted, faults, shorts := {}, {}, {}, 0, 0;
    }

    /** Between any two commands, other clients may do anything. */
    method Others()
      modifies `keys, `lost, `gained
      ensures exists removed, added ::
                && keys == old(keys) - removed + added
                && lost == old(lost) + removed && gained == old(gained) + added
    {
      var removed: set<string>, added: set<string> := *, *;
      keys := keys - removed + added;
      lost, gained := lost + removed, gained + added;
    }

    ghost predicate Visited(key: string, cursor: nat, next: nat)
    {
      cursor <= slotOf(key) && (next == 0 || slotOf(key) < next)
    }

    /** SCAN: it reports only matching keys, and all of them that are present in the
        slots it visits.  How many slots that is, the server chooses; zero says that the
        last one was visited. */
    method Scan(cursor: nat, pattern: string) returns (reply: Reply)
      modifies `faults, `shorts
      ensures faults == old(faults) + (if reply.Failed? then 1 else 0)
      ensures shorts == old(shorts) + (if reply.Short? then 1 else 0)
      ensures reply.Page? ==>
                && (reply.cursor == 0 || cursor < reply.cursor < slots)
                && (forall k :: k in reply.keys ==> Matches(pattern, k))
                && (forall k :: k in keys && Matches(pattern, k) && Visited(k, cursor, reply.cursor) ==> k in reply.keys)
    {
      var outcome: nat := *;
      if outcome == 0 {
        faults := faults + 1;
        return Failed;
      }
      if outcome == 1 {
        shorts := shorts + 1;
        return Short;
      }
      var next := if cursor < outcome < slots then outcome else 0;
      var found: seq<string> := [];
      var todo := set k | k in keys && Matches(pattern, k);
      ghost var all := todo;
      while todo != {}
        invariant todo <= all && (forall k :: k in all <==> k in todo || k in found)
        decreases |todo|
      {
        var k: string :| k in todo;
        found := found + [k];
        todo := todo - {k};
      }
      reply := Page(next, found);
    }

    /** DEL: an error reply leaves open whether the command was applied. */
    method Delete(doomed: seq<string>) returns (ok: bool)
      modifies `keys, `deleted, `faults
      ensures faults == old(faults) + (if ok then 0 else 1)
      ensures ok ==> keys == old(keys) - (set k | k in doomed) && deleted == old(deleted) + (set k | k in doomed)
      ensures !ok ==>
                || (keys == old(keys) && deleted == old(deleted))
                || (keys == old(keys) - (set k | k in doomed) && deleted == old(deleted) + (set k | k in doomed))
    {
      var applied: bool;
      ok, applied := *, *;
      faults := faults + (if ok then 0 else 1);
      if ok || applied {
        keys := keys - (set k | k in doomed);
        deleted := deleted + (set k | k in doomed);
      }
    }
  }

  /** Where every key stands: what is there now was there before and was left alone, or
      came from others; what is gone was removed by others or by us. */
  twostate predicate Accounted(server: Server)
    reads server
  {
    && (forall k :: k in server.keys ==>
          k in server.gained || (k in old(server.keys) && k !in server.deleted && k !in server.lost))
    && (forall k :: k in old(server.keys) ==> k in server.keys || k in server.deleted || k in server.lost)
  }

  /** `clear`: it never names a key outside its namespace, and when it completes, no key
      of the namespace is left except those that others added while it ran.  It completes
      unless a command fails or a reply is short. */
  method Clear(server: Server, prefix: string) returns (r: Outcome)
    modifies server
    ensures r == Refused <==> prefix == ""
    ensures forall k :: k in server.deleted ==> InNamespace(prefix, k)
    ensures Accounted(server)
    ensures (r == Error <==> server.faults != 0) && (r == Stopped <==> server.shorts != 0)
    ensures r == Cleared ==> forall k :: k in server.keys && InNamespace(prefix, k) ==> k in server.gained
  {
    server.Record();
    if prefix == "" { return Refused; }
    var pattern := Pattern(prefix);
    forall k ensures Matches(pattern, k) <==> InNamespace(prefix, k) { PatternIsNamespace(prefix, k); }
    hide Matches, Pattern, InNamespace;
    var cursor := 0;
    while true
      invariant Accounted(server)
      invariant forall k :: k in server.deleted ==> InNamespace(prefix, k)
      invariant forall k :: k in old(server.keys) && InNamespace(prefix, k) && server.slotOf(k) < cursor ==>
                  k in server.deleted || k in server.lost
      invariant (cursor == 0 || cursor < server.slots) && server.faults == 0 && server.shorts == 0
      decreases server.slots - cursor
    {
      server.Others();
      var reply := server.Scan(cursor, pattern);
      if reply.Failed? { return Error; }
      if reply.Short? { return Stopped; }
      server.Others();
      if reply.keys != [] {
        var ok := server.Delete(reply.keys);
        if !ok { return Error; }
      }
      if reply.cursor == 0 { return Cleared; }
      cursor := reply.cursor;
    }
  }
}
