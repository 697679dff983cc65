/** The single-attempt writers of generation tokens
    (src/nova/cache/generation_transport.py:12-74).  A rotation that was applied must not
    be replayed later, so a write is sent once, and a connection whose reply was not read
    is not used again.  The server behind the connections is the store of GenerationStore:
    what it does with a command is that store's `Put` and `PutIfAbsent`. */
module GenerationTransport {
  import opened Tokens
  import opened GenerationStore

  /** SET, plain or with NX. */
  datatype Command = Set(key: string, token: string) | SetNx(key: string, token: string)

  datatype Answer = Acknowledged | Nil | Unexpected

  /** `Yes` is `True`, `No` is `False`; the rest raised. */
  datatype Outcome = Yes | No | NotConnected | Failed

  /** What the writer's caller sees. */
  function WrittenOf(r: Outcome): Written {
    match r
    case Yes => Done
    case No => Declined
    case _ => WriteFailed
  }

  /** The server runs a command, or refuses it with an error or an empty reply. */
  method Execute(server: Store, command: Command) returns (answer: Answer)
    requires server.Valid()
    modifies server`tokens, server`history, server`mine
    ensures server.Valid() && Ran(old(server.history), server.history, old(server.mine), server.mine, command, answer)
  {
    server.Others();
    var refused: bool, empty: bool := *, *;
    if refused { return if command.Set? && empty then Nil else Unexpected; }
    match command
    case Set(key, token) =>
      server.Put(key, token);
      answer := Acknowledged;
    case SetNx(key, token) =>
      var stored := server.PutIfAbsent(key, token);
      answer := if stored then Acknowledged else Nil;
  }

  ghost predicate Ran(h0: seq<StoreState>, h1: seq<StoreState>, m0: set<nat>, m1: set<nat>,
                      command: Command, answer: Answer) {
    h0 <= h1 && h1 != []
    && match answer
       case Acknowledged =>
         |h0| < |h1| && |h1| - 1 !in m0 && m1 == m0 + {|h1| - 1}
         && Wrote(h1, |h1| - 1, command.key, command.token, command.SetNx?)
       case Nil => m1 == m0 && (command.SetNx? ==> command.key in h1[|h1| - 1])
       case Unexpected => m1 == m0
  }

  /** `sent` lists the commands put on the wire and `unread` the answers that nobody has
      read yet. */
  class Connection {
    const server: Store
    var open: bool
    var sent: seq<Command>
    var unread: seq<Answer>

    constructor (server: Store)
      ensures this.server == server && Clean() && open && sent == []
    {
      this.server, open, sent, unread := server, true, [], [];
    }

    /** Whoever uses it next reads the answer to its own command. */
    predicate Clean()
      reads this
    {
      open ==> unread == []
    }

    /** A closed connection is opened first.  A failure may come before or after the bytes
        went out, and the server may or may not have run the command. */
    method SendCommand(command: Command) returns (ok: bool, ghost answer: Answer)
      requires Clean() && server.Valid()
      modifies this, server`tokens, server`history, server`mine, server`faults
      ensures server.Valid() && server.faults == old(server.faults) + (if ok then 0 else 1)
      ensures ok ==> open && sent == old(sent) + [command]
      ensures !ok ==> sent in {old(sent), old(sent) + [command]}
      ensures Ran(old(server.history), server.history, old(server.mine), server.mine, command, answer)
      ensures ok ==> unread == [answer]
    {
      var out: bool, ran: bool;
      ok, out, ran := *, *, *;
      answer := Unexpected;
      if ok || out {
        Connect();
        sent := sent + [command];
        var reply := Unexpected;
        if ok || ran { reply := Execute(server, command); }
        unread, answer := [reply], reply;
      }
      if !ok { server.Fault(); }
    }

    /** An empty reply means something only after a creation. */
    predicate Meaningless(answer: Option<Answer>)
      requires sent != []
      reads this
    {
      answer.None? || answer.value.Unexpected? || (answer.value.Nil? && sent[|sent| - 1].Set?)
    }

    method ReadResponse() returns (answer: Option<Answer>)
      requires unread != [] && sent != []
      modifies `unread, server`faults
      ensures answer.Some? ==> answer.value == old(unread[0]) && unread == old(unread[1..])
      ensures answer.None? ==> unread == old(unread)
      ensures server.faults == old(server.faults) + (if Meaningless(answer) then 1 else 0)
    {
      var raised: bool, unused: bool := *, *;
      answer := if raised then None else Some(unread[0]);
      if !raised { unread := unread[1..]; }
      if Meaningless(answer) { server.Fault(); }
    }

    method Connect()
      requires Clean()
      modifies `open, `unread
      ensures open && unread == []
    {
      if !open { open, unread := true, []; }
    }

    method Disconnect()
      modifies `open, `unread
      ensures !open
    {
      open, unread := false, [];
    }
  }

  /** A connection pool: `leased` are the connections handed out and not yet back. */
  class Pool {
    const server: Store
    var leased: set<Connection>
    var idle: set<Connection>

    constructor (server: Store)
      ensures Valid() && this.server == server && leased == {} && idle == {}
    {
      this.server, leased, idle := server, {}, {};
    }

    /** Connections that wait in the pool are clean, and lead to the same server. */
    ghost predicate Valid()
      reads this, idle
    {
      leased !! idle && forall c :: c in idle ==> c.Clean() && c.server == server
    }

    /** An idle connection, reopened if need be, or a new one, or none at all. */
    method GetConnection() returns (c: Connection?)
      requires Valid()
      modifies this, idle, server`faults
      ensures Valid()
      ensures server.faults == old(server.faults) + (if c == null then 1 else 0)
      ensures c == null ==> leased == old(leased) && idle == old(idle)
      ensures c != null ==> c !in old(leased) && leased == old(leased) + {c} && idle == old(idle) - {c}
      ensures c != null ==> c.open && c.Clean() && c.server == server
      ensures c != null ==> if fresh(c) then c.sent == [] else c in old(idle) && c.sent == old(c.sent)
      ensures forall x :: x in old(idle) && x != c ==> unchanged(x)
    {
      var refused: bool, reuse: bool := *, *;
      if refused {
        server.Fault();
        return null;
      }
      if reuse && idle != {} {
        c :| c in idle;
        idle := idle - {c};
        c.Connect();
      } else {
        c := new Connection(server);
      }
      leased := leased + {c};
    }

    method Release(c: Connection)
      requires Valid() && c in leased && c.Clean() && c.server == server
      modifies this
      ensures Valid() && leased == old(leased) - {c} && idle == old(idle) + {c}
    {
      leased, idle := leased - {c}, idle + {c};
    }
  }

  /** The client: its pool, or the one connection it is pinned to, with the lock that
    guards that connection. */
  class Client {
    const pool: Pool
    const connection: Connection?
    var held: nat

    constructor (pool: Pool, connection: Connection?)
    {
      this.pool, this.connection, held := pool, connection, 0;
    }

    /** A pinned connection is no business of the pool, and is clean between commands. */
    ghost predicate Valid()
      reads this, pool, pool.idle, connection, pool.server
    {
      && pool.Valid() && pool.server.Valid()
      && (connection != null ==>
            connection.Clean() && connection.server == pool.server
            && connection !in pool.leased && connection !in pool.idle)
    }

    method AcquireLock()
      modifies `held
      ensures held == old(held) + 1
    {
      held := held + 1;
    }

    method ReleaseLock()
      requires held > 0
      modifies `held
      ensures held == old(held) - 1
    {
      held := held - 1;
    }
  }

  /** The body of the `try`: one command, one reply. */
  method Attempt(c: Connection, key: string, token: string, onlyIfAbsent: bool) returns (r: Outcome)
    requires c.Clean() && c.server.Valid()
    modifies c, c.server`tokens, c.server`history, c.server`mine, c.server`faults
    ensures c.server.Valid() && c.server.faults == old(c.server.faults) + (if r == Failed then 1 else 0)
    ensures r != NotConnected && old(c.sent) <= c.sent && |c.sent| <= |old(c.sent)| + 1
    ensures r in {Yes, No} ==> |c.sent| == |old(c.sent)| + 1 && c.open && c.unread == []
    ensures WriteDid(old(c.server.history), c.server.history, old(c.server.mine), c.server.mine,
                     key, token, onlyIfAbsent, WrittenOf(r))
  {
    var command := if onlyIfAbsent then SetNx(key, token) else Set(key, token);
    var ok, _ := c.SendCommand(command);
    if !ok { return Failed; }
    var answer := c.ReadResponse();
    if answer == Some(Acknowledged) { return Yes; }
    if answer == Some(Nil) && onlyIfAbsent { return No; }
    r := Failed;
  }

  /** `RedisGenerationWriter.write`, over a pinned connection or one from the pool.  On
      every path at most one command was put on the wire, and exactly one if the answer is
      `True` or `False`; the lock is given back, or the connection returned to the pool;
      and if anything went wrong the connection is closed, so that no later command can
      read this one's reply.  It raises only if no connection was to be had or the exchange
      failed.  A write that is answered `True` leaves the caller's token stored; a creation
      never replaces a value, and is answered `False` only if it found one.  So it does what
      the store expects of its writer. */
  method Write(client: Client, key: string, token: string, onlyIfAbsent: bool) returns (r: Outcome, c: Connection?)
    requires client.Valid()
    modifies client`held, client.pool, client.pool.idle, client.connection
    modifies client.pool.server`tokens, client.pool.server`history, client.pool.server`mine, client.pool.server`faults
    ensures client.Valid() && client.held == old(client.held) && client.pool.leased == old(client.pool.leased)
    ensures var server := client.pool.server;
            && (r == Yes ==> key in server.tokens && server.tokens[key] == Bytes(Encode(token)))
            && (r == No ==> onlyIfAbsent && key in server.tokens && server.mine == old(server.mine))
            && (onlyIfAbsent ==> forall i :: i in server.mine - old(server.mine) ==> key !in server.history[i - 1])
            && server.faults == old(server.faults) + (if r in {NotConnected, Failed} then 1 else 0)
            && WriteDid(old(server.history), server.history, old(server.mine), server.mine,
                        key, token, onlyIfAbsent, WrittenOf(r))
    ensures c == null <==> r == NotConnected
    ensures client.connection != null ==> c == client.connection && client.pool.idle == old(client.pool.idle)
    ensures client.connection == null && c != null ==>
              c in client.pool.idle && (fresh(c) || c in old(client.pool.idle))
    ensures c != null ==> var before := if fresh(c) then [] else old(c.sent);
              && before <= c.sent && |c.sent| <= |before| + 1
              && (r in {Yes, No} ==> |c.sent| == |before| + 1 && c.open && c.unread == [])
    ensures r == Failed ==> c != null && !c.open
    ensures forall x :: x in old(client.pool.idle) && x != c ==> unchanged(x)
  {
    c := client.connection;
    var pinned := c != null;
    if pinned {
      client.AcquireLock();
    } else {
      c := client.pool.GetConnection();
      if c == null { return NotConnected, null; }
    }
    r := Attempt(c, key, token, onlyIfAbsent);
    if r == Failed { c.Disconnect(); }
    if pinned {
      client.ReleaseLock();
    } else {
      client.pool.Release(c);
    }
  }

  /** What a Memcached client answers to `add` or `set`. */
  datatype Response = True | False | Odd | Raised

  /** `add` or `set` of the plain client: a failure may come before or after the server
      stored the value. */
  method Call(server: Store, add: bool, key: string, token: string) returns (response: Response)
    requires server.Valid()
    modifies server`tokens, server`history, server`mine, server`faults
    ensures server.Valid()
    ensures server.faults == old(server.faults) + (if response == True || (response == False && add) then 0 else 1)
    ensures WriteDid(old(server.history), server.history, old(server.mine), server.mine, key, token, add,
                     if response == True then Done else if response == False && add then Declined else WriteFailed)
  {
    server.Others();
    response := *;
    if response == True && add {
      var stored := server.PutIfAbsent(key, token);
      response := if stored then True else False;
    } else if response == True {
      server.Put(key, token);
    } else {
      var applied: bool, unused: bool := *, *;
      response := if response == False && add then Odd else response;
      if applied && response != False {
        if add { var stored := server.PutIfAbsent(key, token); } else { server.Put(key, token); }
      }
      server.Fault();
    }
  }

  /** `MemcachedGenerationWriter.write`: one call, and again what the store expects. */
  method WriteMemcached(server: Store, key: string, token: string, onlyIfAbsent: bool) returns (r: Outcome)
    requires server.Valid()
    modifies server`tokens, server`history, server`mine, server`faults
    ensures server.Valid() && server.faults == old(server.faults) + (if r == Failed then 1 else 0) && r != NotConnected
    ensures r == Yes ==> key in server.tokens && server.tokens[key] == Bytes(Encode(token))
    ensures r == No ==> onlyIfAbsent && key in server.tokens && server.mine == old(server.mine)
    ensures onlyIfAbsent ==> forall i :: i in server.mine - old(server.mine) ==> key !in server.history[i - 1]
    ensures WriteDid(old(server.history), server.history, old(server.mine), server.mine,
                     key, token, onlyIfAbsent, WrittenOf(r))
  {
    var response := Call(server, onlyIfAbsent, key, token);
    if response == True { return Yes; }
    if response == False && onlyIfAbsent { return No; }
    r := Failed;
  }
}
