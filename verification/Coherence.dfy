/** The generation-fenced cache as a transition system: any number of processes, each
    with any number of threads sharing one lock, one database and one shared store.
    A thread runs `get`, `get_or_set`, `invalidate_model` or `clear`
    (src/nova/cache/queryset_cache.py), one store command, one table read or one
    critical-section boundary at a time; between any two of these, every other thread
    and the store itself may act.

    `Step` is total: an event that is not enabled changes nothing but the clock, so a
    run is just a sequence of events and "every run" is "every sequence". */
module CoherenceSystem {
  import opened CacheTypes
  import opened CacheIndex

  datatype Tid = Tid(pid: nat, n: nat)

  /** A token write that was sent and has not arrived.  It may arrive at any later
      time or never, and, because it is sent once, at most once. */
  datatype Write = Write(scope: Scope, onlyIfAbsent: bool)

  /** History: which scope a token arrived at, and how long the commit log was then. */
  datatype Landing = Landing(scope: Scope, at: nat)

  /** A token a reader saw, and the step at which it saw it. */
  datatype Obs = Obs(token: Token, when: nat)

  /** Progress of `_read_generations`: first the pending rotations, then the tokens,
      each through `get_generation` with its own count of creation attempts. */
  datatype Stage =
    | Scan(todo: set<Scope>)
    | Rotating(todo: set<Scope>, scope: Scope, token: Token)
    | Reading
    | Creating(scope: Scope, token: Token)

  datatype Reader = Reader(stage: Stage, tries: map<Scope, nat>, got: map<Scope, Obs>)

  datatype Thread =
    | Idle
    | Snapshotting(query: Query, fill: bool, rd: Reader)
    | Snapshotted(key: Key, fill: bool)
    | Checking(key: Key, fill: bool, rows: Rows, rd: Reader)
    | Hit(key: Key, rows: Rows, when: map<Scope, nat>)
    | Querying(key: Key, generation: nat, rows: Rows)
    | Rechecking(key: Key, rows: Rows, rd: Reader)
    | Invalidating(scope: Scope, token: Token, names: set<string>, db: string)
    | Deleting(todo: set<Key>)
    | Clearing(doomed: map<Scope, Token>)

  datatype Sys = Sys(
    now: nat,
    commits: seq<Table>,
    tokens: map<Scope, Token>,
    results: map<Key, Rows>,
    flying: map<Token, Write>,
    sets: set<(Key, Rows)>,
    nextToken: Token,
    birth: map<Token, Landing>,
    local: map<nat, Local>,
    lock: map<nat, Tid>,
    threads: map<Tid, Thread>,
    fence: map<(nat, Scope), nat>)

  datatype Event =
    // the database and the store
    | Commit(table: Table)
    | Land(token: Token)
    | LandResult(key: Key, rows: Rows)
    | EvictToken(scope: Scope)
    | EvictResult(key: Key)
    // `_read_generations`
    | StartRotation(th: Tid, scope: Scope)
    | RotationAcked(th: Tid)
    | ScanDone(th: Tid)
    | ReadToken(th: Tid, scope: Scope)
    | ReadTokens(th: Tid)
    | CreateAnswered(th: Tid)
    | Unavailable(th: Tid)
    // `get` and `get_or_set`
    | Begin(th: Tid, query: Query, fill: bool)
    | SnapshotDone(th: Tid)
    | Lookup(th: Tid, readFails: bool)
    | CheckDone(th: Tid)
    | ReadTable(th: Tid, table: Table)
    | StartPublish(th: Tid)
    | PublishDone(th: Tid, acked: bool)
    | Leave(th: Tid)
    // `invalidate_model`
    | StartInvalidate(th: Tid, model: string, names: set<string>, db: string)
    | InvalidateRotated(th: Tid, acked: bool)
    | DeleteKey(th: Tid, key: Key, acked: bool, applied: bool)
    // `clear`
    | StartClear(th: Tid)
    | ClearDone(th: Tid, acked: bool)

  const START := Sys(0, [], map[], map[], map[], {}, 0, map[], map[], map[], map[], map[])

  function Th(threads: map<Tid, Thread>, th: Tid): Thread {
    if th in threads then threads[th] else Idle
  }

  function LocalOf(local: map<nat, Local>, p: nat): Local {
    if p in local then local[p] else EMPTY
  }

  predicate Free(s: Sys, th: Tid) {
    th.pid !in s.lock
  }

  /** The sections that run under the process lock. */
  predicate Critical(t: Thread) {
    t.Snapshotting? || t.Checking? || t.Rechecking? || t.Invalidating? || t.Deleting? || t.Clearing?
  }

  predicate HasReader(t: Thread) {
    t.Snapshotting? || t.Checking? || t.Rechecking?
  }

  function ReaderScopes(t: Thread): set<Scope>
    requires HasReader(t)
  {
    if t.Snapshotting? then Scopes(t.query) else t.key.gens.Keys
  }

  function Reads(t: Thread, rd: Reader): Thread
    requires HasReader(t)
  {
    match t
    case Snapshotting(q, fill, _) => Snapshotting(q, fill, rd)
    case Checking(key, fill, rows, _) => Checking(key, fill, rows, rd)
    case Rechecking(key, rows, _) => Rechecking(key, rows, rd)
  }

  function StartReader(scopes: set<Scope>): Reader {
    Reader(Scan(scopes), map[], map[])
  }

  /** A thread moves on; it holds the lock exactly while its new section is critical. */
  function Move(s: Sys, th: Tid, t: Thread): Sys {
    s.(threads := s.threads[th := t],
       lock := if Critical(t) then s.lock[th.pid := th]
               else if Critical(Th(s.threads, th)) then s.lock - {th.pid} else s.lock)
  }

  function SetLocal(s: Sys, p: nat, l: Local): Sys {
    s.(local := s.local[p := l])
  }

  function Send(s: Sys, w: Write): Sys {
    s.(flying := s.flying[s.nextToken := w], nextToken := s.nextToken + 1)
  }

  // ----- the database and the store -----

  /** One token write arrives: a plain SET replaces, a create yields to a present token. */
  function DoLand(s: Sys, x: Token): Sys {
    if x !in s.flying then s
    else if s.flying[x].onlyIfAbsent && s.flying[x].scope in s.tokens then s.(flying := s.flying - {x})
    else Install(s, x, s.flying[x].scope)
  }

  function Install(s: Sys, x: Token, sc: Scope): Sys {
    s.(flying := s.flying - {x}, tokens := s.tokens[sc := x], birth := s.birth[x := Landing(sc, |s.commits|)])
  }

  /** A result write arrives.  Ordinary writes may be retried, so it can arrive again. */
  function DoLandResult(s: Sys, k: Key, rows: Rows): Sys {
    if (k, rows) in s.sets then s.(results := s.results[k := rows]) else s
  }

  // ----- _read_generations -----

  function DoStartRotation(s: Sys, th: Tid, sc: Scope): Sys {
    var t := Th(s.threads, th);
    if HasReader(t) && t.rd.stage.Scan? && sc in t.rd.stage.todo && sc in LocalOf(s.local, th.pid).pending then
      Move(Send(s, Write(sc, false)), th, Reads(t, t.rd.(stage := Rotating(t.rd.stage.todo, sc, s.nextToken))))
    else s
  }

  function DoRotationAcked(s: Sys, th: Tid): Sys {
    var t := Th(s.threads, th);
    if HasReader(t) && t.rd.stage.Rotating? && t.rd.stage.token in s.birth then
      var l := LocalOf(s.local, th.pid);
      Move(SetLocal(s, th.pid, l.(pending := l.pending - {t.rd.stage.scope})), th,
           Reads(t, t.rd.(stage := Scan(t.rd.stage.todo - {t.rd.stage.scope}))))
    else s
  }

  function DoScanDone(s: Sys, th: Tid): Sys {
    var t := Th(s.threads, th);
    if HasReader(t) && t.rd.stage.Scan? && t.rd.stage.todo * LocalOf(s.local, th.pid).pending == {} then
      Move(s, th, Reads(t, t.rd.(stage := Reading)))
    else s
  }

  const ATTEMPTS := 3

  /** One GET of `get_generation`; an absent token is created, at most three times. */
  function DoReadToken(s: Sys, th: Tid, sc: Scope): Sys {
    var t := Th(s.threads, th);
    if HasReader(t) && t.rd.stage.Reading? && sc in ReaderScopes(t) - t.rd.got.Keys then
      if sc in s.tokens then
        Move(s, th, Reads(t, t.rd.(got := t.rd.got[sc := Obs(s.tokens[sc], s.now)])))
      else
        var tries := if sc in t.rd.tries then t.rd.tries[sc] else 0;
        if tries < ATTEMPTS then
          Move(Send(s, Write(sc, true)), th,
               Reads(t, t.rd.(stage := Creating(sc, s.nextToken), tries := t.rd.tries[sc := tries + 1])))
        else s
    else s
  }

  /** `get_generations`: one command reads every token that is present. */
  function DoReadTokens(s: Sys, th: Tid): Sys {
    var t := Th(s.threads, th);
    if HasReader(t) && t.rd.stage.Reading? && t.rd.got == map[] && t.rd.tries == map[] then
      Move(s, th, Reads(t, t.rd.(got := map sc | sc in ReaderScopes(t) && sc in s.tokens :: Obs(s.tokens[sc], s.now))))
    else s
  }

  function DoCreateAnswered(s: Sys, th: Tid): Sys {
    var t := Th(s.threads, th);
    if HasReader(t) && t.rd.stage.Creating? && t.rd.stage.token !in s.flying then
      Move(s, th, Reads(t, t.rd.(stage := Reading)))
    else s
  }

  /** Any command fails or its answer is lost: the section treats the cache as unusable. */
  function DoUnavailable(s: Sys, th: Tid): Sys {
    var t := Th(s.threads, th);
    if t.Snapshotting? then Move(s, th, Idle)
    else if t.Checking? then Missed(s, th, t.key, t.fill)
    else if t.Rechecking? then Move(s, th, Idle)
    else s
  }

  // ----- get and get_or_set -----

  function DoBegin(s: Sys, th: Tid, q: Query, fill: bool): Sys {
    if Th(s.threads, th).Idle? && Free(s, th) && q.names != {} then
      Move(s, th, Snapshotting(q, fill, StartReader(Scopes(q))))
    else s
  }

  function Vector(got: map<Scope, Obs>): map<Scope, Token> {
    map sc | sc in got :: got[sc].token
  }

  predicate ReadAll(t: Thread) {
    HasReader(t) && t.rd.stage.Reading? && t.rd.got.Keys == ReaderScopes(t)
  }

  function DoSnapshotDone(s: Sys, th: Tid): Sys {
    var t := Th(s.threads, th);
    if t.Snapshotting? && ReadAll(t) then
      Move(s, th, Snapshotted(Key(t.query, Vector(t.rd.got)), t.fill))
    else s
  }

  /** A miss remembers the local counter, then SQL runs outside the lock. */
  function Missed(s: Sys, th: Tid, key: Key, fill: bool): Sys {
    Move(s, th, if fill then Querying(key, LocalOf(s.local, th.pid).generation, map[]) else Idle)
  }

  function DoLookup(s: Sys, th: Tid, readFails: bool): Sys {
    var t := Th(s.threads, th);
    var l := LocalOf(s.local, th.pid);
    if !t.Snapshotted? || !Free(s, th) then s
    else if l.clearFailed || t.key in l.blocked || t.key !in s.results || readFails then Missed(s, th, t.key, t.fill)
    else Move(s, th, Checking(t.key, t.fill, s.results[t.key], StartReader(t.key.gens.Keys)))
  }

  function DoCheckDone(s: Sys, th: Tid): Sys {
    var t := Th(s.threads, th);
    if t.Checking? && ReadAll(t) then
      if Vector(t.rd.got) == t.key.gens then
        Move(SetLocal(s, th.pid, Register(LocalOf(s.local, th.pid), t.key, t.key.query.names)), th,
             Hit(t.key, t.rows, map sc | sc in t.rd.got :: t.rd.got[sc].when))
      else Missed(s, th, t.key, t.fill)
    else s
  }

  function DoReadTable(s: Sys, th: Tid, table: Table): Sys {
    var t := Th(s.threads, th);
    if t.Querying? && table in Tables(t.key.query) - t.rows.Keys then
      Move(s, th, Querying(t.key, t.generation, t.rows[table := |s.commits|]))
    else s
  }

  function DoStartPublish(s: Sys, th: Tid): Sys {
    var t := Th(s.threads, th);
    if t.Querying? && t.rows.Keys == Tables(t.key.query) && Free(s, th) then
      var l := LocalOf(s.local, th.pid);
      if t.generation == l.generation && !l.clearFailed then
        Move(s, th, Rechecking(t.key, t.rows, StartReader(t.key.gens.Keys)))
      else Move(s, th, Idle)
    else s
  }

  /** The write is sent under the original key; if it is not acknowledged it may still
      have arrived, may arrive later, and the key is not indexed. */
  function DoPublishDone(s: Sys, th: Tid, acked: bool): Sys {
    var t := Th(s.threads, th);
    if t.Rechecking? && ReadAll(t) then
      if Vector(t.rd.got) == t.key.gens then
        var sent := s.(sets := s.sets + {(t.key, t.rows)});
        if acked then
          Move(SetLocal(sent, th.pid, Publish(LocalOf(s.local, th.pid), t.key)).(results := s.results[t.key := t.rows]), th, Idle)
        else Move(sent, th, Idle)
      else Move(s, th, Idle)
    else s
  }

  function DoLeave(s: Sys, th: Tid): Sys {
    if Th(s.threads, th).Hit? then Move(s, th, Idle) else s
  }

  // ----- invalidate_model -----

  /** Bump the fill fence, mark the scope as pending, send one rotation.  History: the
      scope is fenced at the commits made so far. */
  function DoStartInvalidate(s: Sys, th: Tid, model: string, names: set<string>, db: string): Sys {
    if Th(s.threads, th).Idle? && Free(s, th) && names != {} then
      var l := LocalOf(s.local, th.pid);
      var sc := Scope(model, db);
      var r := SetLocal(s, th.pid, l.(generation := l.generation + 1, pending := l.pending + {sc}));
      Move(Send(r, Write(sc, false)).(fence := s.fence[(th.pid, sc) := |s.commits|]), th,
           Invalidating(sc, s.nextToken, names, db))
    else s
  }

  /** The rotation was acknowledged, or failed and stays pending; then every indexed
      key is blocked before any delete is tried. */
  function DoInvalidateRotated(s: Sys, th: Tid, acked: bool): Sys {
    var t := Th(s.threads, th);
    if t.Invalidating? && (acked ==> t.token in s.birth) then
      var l0 := LocalOf(s.local, th.pid);
      var l := if acked then l0.(pending := l0.pending - {t.scope}) else l0;
      var keys := Matching(l, t.names, t.db);
      Move(SetLocal(s, th.pid, Block(l, keys)), th, Deleting(keys))
    else s
  }

  /** One delete: acknowledged, or failed with or without having been applied. */
  function DoDeleteKey(s: Sys, th: Tid, key: Key, acked: bool, applied: bool): Sys {
    var t := Th(s.threads, th);
    if t.Deleting? then
      if key in t.todo then
        var r := if acked then SetLocal(s, th.pid, Unregister(LocalOf(s.local, th.pid), key)) else s;
        var left := t.todo - {key};
        Move(if acked || applied then r.(results := s.results - {key}) else r, th, if left == {} then Idle else Deleting(left))
      else if t.todo == {} then Move(s, th, Idle)
      else s
    else s
  }

  // ----- clear -----

  function DoStartClear(s: Sys, th: Tid): Sys {
    if Th(s.threads, th).Idle? && Free(s, th) then
      var l := LocalOf(s.local, th.pid);
      Move(SetLocal(s, th.pid, l.(generation := l.generation + 1)), th, Clearing(s.tokens))
    else s
  }

  /** An acknowledged clear has removed every token that was present when it began;
      a scan and a flush both promise that, and more. */
  function DoClearDone(s: Sys, th: Tid, acked: bool): Sys {
    var t := Th(s.threads, th);
    if !t.Clearing? then s
    else if !acked then
      Move(SetLocal(s, th.pid, LocalOf(s.local, th.pid).(clearFailed := true)), th, Idle)
    else if forall sc :: sc in t.doomed && sc in s.tokens ==> s.tokens[sc] != t.doomed[sc] then
      Move(SetLocal(s, th.pid, Cleared(LocalOf(s.local, th.pid))), th, Idle)
    else s
  }

  function Act(s: Sys, e: Event): Sys {
    match e
    case Commit(table) => s.(commits := s.commits + [table])
    case Land(x) => DoLand(s, x)
    case LandResult(k, rows) => DoLandResult(s, k, rows)
    case EvictToken(sc) => s.(tokens := s.tokens - {sc})
    case EvictResult(k) => s.(results := s.results - {k})
    case StartRotation(th, sc) => DoStartRotation(s, th, sc)
    case RotationAcked(th) => DoRotationAcked(s, th)
    case ScanDone(th) => DoScanDone(s, th)
    case ReadToken(th, sc) => DoReadToken(s, th, sc)
    case ReadTokens(th) => DoReadTokens(s, th)
    case CreateAnswered(th) => DoCreateAnswered(s, th)
    case Unavailable(th) => DoUnavailable(s, th)
    case Begin(th, q, fill) => DoBegin(s, th, q, fill)
    case SnapshotDone(th) => DoSnapshotDone(s, th)
    case Lookup(th, fails) => DoLookup(s, th, fails)
    case CheckDone(th) => DoCheckDone(s, th)
    case ReadTable(th, table) => DoReadTable(s, th, table)
    case StartPublish(th) => DoStartPublish(s, th)
    case PublishDone(th, acked) => DoPublishDone(s, th, acked)
    case Leave(th) => DoLeave(s, th)
    case StartInvalidate(th, model, names, db) => DoStartInvalidate(s, th, model, names, db)
    case InvalidateRotated(th, acked) => DoInvalidateRotated(s, th, acked)
    case DeleteKey(th, key, acked, applied) => DoDeleteKey(s, th, key, acked, applied)
    case StartClear(th) => DoStartClear(s, th)
    case ClearDone(th, acked) => DoClearDone(s, th, acked)
  }

  function Step(s: Sys, e: Event): Sys {
    Act(s, e).(now := s.now + 1)
  }

  /** The state of a run after its first `i` events. */
  function At(es: seq<Event>, i: nat): Sys
    requires i <= |es|
  {
    if i == 0 then START else Step(At(es, i - 1), es[i - 1])
  }
}
