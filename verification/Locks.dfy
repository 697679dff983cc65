/** The leased lock (src/nova/redis/locks.py:18-24 and 68-99): SET NX PX to take it, a
    compare-and-delete script to give it back.  Each lock object has an identifier of its
    own and is used by one task at a time.  Commands and answers can be lost.  Every attempt
    that was sent counts as a command, also one the client makes again by itself after a
    timeout (src/nova/conf.py:54); one that was given up on may run late and more than once. */
module LockProtocol {

  type Owner = nat

  /** The stored key: whose identifier it holds and when the server expires it. */
  datatype Slot = Empty | Held(owner: Owner, expires: int)

  datatype Answer = Awaited | Answered(granted: bool) | Refused

  datatype Phase = Ready | Setting(answer: Answer) | Unlocking(done: bool)

  /** `acquired` is the object's own flag.  `until` and `unlocked` are history: when its
      latest granted lease runs out, and whether an unlock script of this object has run
      since that grant. */
  datatype LockObject = LockObject(acquired: bool, phase: Phase, until: int, unlocked: bool)

  datatype Command = SetCommand | UnlockCommand

  /** `late` holds the commands whose answers were given up on. */
  datatype State = State(now: int, slot: Slot, objects: map<Owner, LockObject>, late: set<(Owner, Command)>)

  datatype Event =
    | BeginSet(o: Owner)
    | RunSet(o: Owner, px: int)
    | AnswerSet(o: Owner)
    | LoseSet(o: Owner)
    | BeginUnlock(o: Owner)
    | RunUnlock(o: Owner)
    | AnswerUnlock(o: Owner)
    | LoseUnlock(o: Owner)
    | LateSet(o: Owner, px: int)
    | LateUnlock(o: Owner)
    | Tick(ms: nat)

  const NEW := LockObject(false, Ready, 0, true)

  function Start(): State {
    State(0, Empty, map[], {})
  }

  function Obj(s: State, o: Owner): LockObject {
    if o in s.objects then s.objects[o] else NEW
  }

  function Put(s: State, o: Owner, x: LockObject): State {
    s.(objects := s.objects[o := x])
  }

  /** The server forgets an expired key before any command sees it. */
  predicate Free(slot: Slot, now: int) {
    slot.Empty? || slot.expires <= now
  }

  /** The unlock script: delete the key if it holds this identifier. */
  function Unlocked(slot: Slot, now: int, o: Owner): Slot {
    if !Free(slot, now) && slot.owner == o then Empty else slot
  }

  function DoRunSet(s: State, o: Owner, px: int): State {
    var x := Obj(s, o);
    if x.phase != Setting(Awaited) then s
    else if px <= 0 then Put(s, o, x.(phase := Setting(Refused)))
    else if Free(s.slot, s.now) then
      Put(s, o, x.(phase := Setting(Answered(true)), until := s.now + px, unlocked := false)).(slot := Held(o, s.now + px))
    else Put(s, o, x.(phase := Setting(Answered(false))))
  }

  /** The flag takes the answer, even when the object already held the lock. */
  function DoAnswerSet(s: State, o: Owner): State {
    var x := Obj(s, o);
    if !x.phase.Setting? then s
    else
      match x.phase.answer
      case Awaited => s
      case Answered(granted) => Put(s, o, x.(acquired := granted, phase := Ready))
      case Refused => Put(s, o, x.(phase := Ready))
  }

  function DoLoseSet(s: State, o: Owner): State {
    var x := Obj(s, o);
    if x.phase.Setting? then Put(s, o, x.(phase := Ready)).(late := s.late + {(o, SetCommand)}) else s
  }

  function DoRunUnlock(s: State, o: Owner): State {
    var x := Obj(s, o);
    if x.phase == Unlocking(false) then
      Put(s, o, x.(phase := Unlocking(true), unlocked := true)).(slot := Unlocked(s.slot, s.now, o))
    else s
  }

  function DoLoseUnlock(s: State, o: Owner): State {
    var x := Obj(s, o);
    if x.phase.Unlocking? then Put(s, o, x.(phase := Ready)).(late := s.late + {(o, UnlockCommand)}) else s
  }

  function DoLateSet(s: State, o: Owner, px: int): State {
    if (o, SetCommand) in s.late && px > 0 && Free(s.slot, s.now) then s.(slot := Held(o, s.now + px)) else s
  }

  function DoLateUnlock(s: State, o: Owner): State {
    if (o, UnlockCommand) in s.late then
      Put(s, o, Obj(s, o).(unlocked := true)).(slot := Unlocked(s.slot, s.now, o))
    else s
  }

  function Step(s: State, e: Event): State {
    match e
    case BeginSet(o) => if Obj(s, o).phase.Ready? then Put(s, o, Obj(s, o).(phase := Setting(Awaited))) else s
    case RunSet(o, px) => DoRunSet(s, o, px)
    case AnswerSet(o) => DoAnswerSet(s, o)
    case LoseSet(o) => DoLoseSet(s, o)
    case BeginUnlock(o) =>
      if Obj(s, o).phase.Ready? && Obj(s, o).acquired then Put(s, o, Obj(s, o).(phase := Unlocking(false))) else s
    case RunUnlock(o) => DoRunUnlock(s, o)
    case AnswerUnlock(o) =>
      if Obj(s, o).phase == Unlocking(true) then Put(s, o, Obj(s, o).(acquired := false, phase := Ready)) else s
    case LoseUnlock(o) => DoLoseUnlock(s, o)
    case LateSet(o, px) => DoLateSet(s, o, px)
    case LateUnlock(o) => DoLateUnlock(s, o)
    case Tick(ms) => s.(now := s.now + ms)
  }

  function At(es: seq<Event>, n: nat): State
    requires n <= |es|
  {
    if n == 0 then Start() else Step(At(es, n - 1), es[n - 1])
  }

  // ----- leases end only by time or by their owner -----

  /** One step.  A live lease stays exactly as it is, unless time passes or an unlock
      script of its own object runs: no other object's acquire or release touches it. */
  lemma {:induction false} OnlyItsOwner(s: State, e: Event)
    requires s.slot.Held? && !Free(s.slot, s.now)
    requires !e.Tick?
    requires e.RunUnlock? || e.LateUnlock? ==> e.o != s.slot.owner
    ensures Step(s, e).slot == s.slot && Step(s, e).now == s.now
  {
  }

  /** Over a whole run: a lease lasts its full time, whatever the other objects send and
      whenever it runs, unless an unlock script of its own object runs. */
  lemma {:induction false} LeaseLasts(es: seq<Event>, i: nat, n: nat, o: Owner)
    requires i <= n <= |es| && At(es, i).slot.Held? && At(es, i).slot.owner == o
    requires At(es, n).now < At(es, i).slot.expires
    requires forall k :: i <= k < n && (es[k].RunUnlock? || es[k].LateUnlock?) ==> es[k].o != o
    ensures At(es, n).slot == At(es, i).slot
    decreases n
  {
    if i < n {
      TimePasses(At(es, n - 1), es[n - 1]);
      LeaseLasts(es, i, n - 1, o);
      if !es[n - 1].Tick? { OnlyItsOwner(At(es, n - 1), es[n - 1]); }
    }
  }

  lemma {:induction false} TimePasses(s: State, e: Event)
    ensures s.now <= Step(s, e).now
  {
  }

  /** The object's own view of its lease is right: until the lease runs out, the server
      holds it, unless an unlock script of this same object ran after the grant. */
  ghost predicate LeaseInv(s: State, o: Owner) {
    !Obj(s, o).unlocked && s.now < Obj(s, o).until ==> s.slot == Held(o, Obj(s, o).until)
  }

  /** An object that has the flag and is not releasing has not been unlocked, provided no
      release of it was ever given up on. */
  ghost predicate FlagInv(s: State, o: Owner) {
    var x := Obj(s, o);
    (o, UnlockCommand) !in s.late ==>
      && (x.acquired && !x.phase.Unlocking? ==> !x.unlocked)
      && (x.phase == Setting(Answered(true)) ==> !x.unlocked)
      && (x.phase == Unlocking(false) ==> !x.unlocked)
  }

  lemma {:induction false} StepInv(s: State, e: Event, o: Owner)
    requires LeaseInv(s, o) && FlagInv(s, o)
    ensures LeaseInv(Step(s, e), o) && FlagInv(Step(s, e), o)
  {
  }

  lemma {:induction false} RunInv(es: seq<Event>, n: nat, o: Owner)
    requires n <= |es|
    ensures LeaseInv(At(es, n), o) && FlagInv(At(es, n), o)
  {
    hide Step, LeaseInv, FlagInv;
    if n == 0 {
      StartInv(o);
    } else {
      RunInv(es, n - 1, o);
      StepInv(At(es, n - 1), es[n - 1], o);
    }
  }

  lemma {:induction false} StartInv(o: Owner)
    ensures LeaseInv(Start(), o) && FlagInv(Start(), o)
  {
  }

  /** In its critical section: the flag is set, no release has begun, and the lease it was
      granted has not run out. */
  predicate Holds(s: State, o: Owner) {
    Obj(s, o).acquired && !Obj(s, o).phase.Unlocking? && s.now < Obj(s, o).until
  }

  predicate NeverAbandoned(s: State, o: Owner) {
    (o, UnlockCommand) !in s.late
  }

  /** Mutual exclusion over every run: at most one object holds an unexpired lease, among
      the objects none of whose releases was given up on; and the server agrees. */
  lemma {:induction false} MutualExclusion(es: seq<Event>, n: nat, o: Owner, p: Owner)
    requires n <= |es|
    requires Holds(At(es, n), o) && NeverAbandoned(At(es, n), o)
    requires Holds(At(es, n), p) && NeverAbandoned(At(es, n), p)
    ensures o == p && At(es, n).slot == Held(o, Obj(At(es, n), o).until)
  {
    RunInv(es, n, o);
    RunInv(es, n, p);
  }

  /** Without that condition: of any two objects with unexpired leases, one has been
      unlocked by a script of its own that ran after its grant. */
  lemma {:induction false} OnlyOwnScriptsBreak(es: seq<Event>, n: nat, o: Owner, p: Owner)
    requires n <= |es| && o != p && Holds(At(es, n), o) && Holds(At(es, n), p)
    ensures Obj(At(es, n), o).unlocked || Obj(At(es, n), p).unlocked
  {
    RunInv(es, n, o);
    RunInv(es, n, p);
  }

  ghost predicate Reachable(s: State) {
    exists es: seq<Event> :: At(es, |es|) == s
  }

  lemma {:induction false} Moves(s: State, e: Event, t: State)
    requires Reachable(s) && Step(s, e) == t
    ensures Reachable(t)
  {
    hide Step;
    var es :| At(es, |es|) == s;
    SamePrefix(es, [e], |es|);
    assert At(es + [e], |es + [e]|) == t;
  }

  lemma {:induction false} SamePrefix(es: seq<Event>, more: seq<Event>, n: nat)
    requires n <= |es|
    ensures At(es + more, n) == At(es, n)
  {
    if n > 0 { SamePrefix(es, more, n - 1); }
  }

  const SOME_RELEASE_LOST := {(1, UnlockCommand)}

  /** Acquire, release, lose the answer before the script runs, and let the lease end. */
  lemma {:induction false} AbandonedRelease()
    ensures Reachable(State(10, Held(1, 10), map[1 := LockObject(true, Ready, 10, false)], SOME_RELEASE_LOST))
  {
    hide Reachable;
    assert Reachable(Start()) by { StartIsReachable(); }
    var s1 := State(0, Empty, map[1 := NEW.(phase := Setting(Awaited))], {});
    Moves(Start(), BeginSet(1), s1);
    var s2 := State(0, Held(1, 10), map[1 := LockObject(false, Setting(Answered(true)), 10, false)], {});
    Moves(s1, RunSet(1, 10), s2);
    var s3 := State(0, Held(1, 10), map[1 := LockObject(true, Ready, 10, false)], {});
    Moves(s2, AnswerSet(1), s3);
    var s4 := State(0, Held(1, 10), map[1 := LockObject(true, Unlocking(false), 10, false)], {});
    Moves(s3, BeginUnlock(1), s4);
    var s5 := s3.(late := SOME_RELEASE_LOST);
    Moves(s4, LoseUnlock(1), s5);
    Moves(s5, Tick(10), s5.(now := 10));
  }

  lemma {:induction false} StartIsReachable()
    ensures Reachable(Start())
  {
    var none: seq<Event> := [];
    assert At(none, |none|) == Start();
  }

  /** And that can happen: an object is released, the answer is lost, its lease runs out, it
      is acquired again, and only then does the old script run.  A second object gets in
      while the first still counts on its lease. */
  lemma {:induction false} LateReleaseBreaksExclusion() returns (s: State)
    ensures Reachable(s) && Holds(s, 1) && Holds(s, 2) && NeverAbandoned(s, 2)
  {
    hide Reachable;
    AbandonedRelease();
    var s0 := State(10, Held(1, 10), map[1 := LockObject(true, Ready, 10, false)], SOME_RELEASE_LOST);
    var s1 := s0.(objects := map[1 := LockObject(true, Setting(Awaited), 10, false)]);
    Moves(s0, BeginSet(1), s1);
    var s2 := s0.(slot := Held(1, 20), objects := map[1 := LockObject(true, Setting(Answered(true)), 20, false)]);
    Moves(s1, RunSet(1, 10), s2);
    var s3 := s2.(objects := map[1 := LockObject(true, Ready, 20, false)]);
    Moves(s2, AnswerSet(1), s3);
    var one := LockObject(true, Ready, 20, true);
    var s4 := s3.(slot := Empty, objects := map[1 := one]);
    Moves(s3, LateUnlock(1), s4);
    s := SecondObject(s4, one);
  }

  lemma {:induction false} SecondObject(s: State, one: LockObject) returns (t: State)
    requires Reachable(s) && s.objects == map[1 := one] && s.slot == Empty && s.now == 10
    ensures Reachable(t) && t.late == s.late && Obj(t, 1) == one && t.now == 10 && Holds(t, 2)
  {
    hide Reachable;
    var s1 := s.(objects := map[1 := one, 2 := NEW.(phase := Setting(Awaited))]);
    Moves(s, BeginSet(2), s1);
    var s2 := s.(slot := Held(2, 20), objects := map[1 := one, 2 := LockObject(false, Setting(Answered(true)), 20, false)]);
    Moves(s1, RunSet(2, 10), s2);
    t := s2.(objects := map[1 := one, 2 := LockObject(true, Ready, 20, false)]);
    Moves(s2, AnswerSet(2), t);
  }

  // ----- exactly when exclusion is certain -----

  /** Where a continuation leads. */
  function Continue(s: State, es: seq<Event>): State {
    if es == [] then s else Step(Continue(s, es[..|es| - 1]), es[|es| - 1])
  }

  /** No release of `o` is given up on in `es`. */
  predicate Careful(es: seq<Event>, o: Owner) {
    LoseUnlock(o) !in es
  }

  lemma {:induction false} ContinueOne(s: State, es: seq<Event>, e: Event)
    ensures Continue(s, es + [e]) == Step(Continue(s, es), e)
  {
    hide Step;
    assert (es + [e])[..|es|] == es;
  }

  lemma {:induction false} ContinueBoth(s: State, es: seq<Event>, more: seq<Event>)
    ensures Continue(s, es + more) == Continue(Continue(s, es), more)
  {
    hide Step;
    if more == [] {
      assert es + more == es;
    } else {
      var init, e := more[..|more| - 1], more[|more| - 1];
      ContinueBoth(s, es, init);
      assert es + more == es + init + [e];
      ContinueOne(s, es + init, e);
    }
  }

  lemma {:induction false} ReachableInv(s: State, o: Owner)
    requires Reachable(s)
    ensures LeaseInv(s, o) && FlagInv(s, o)
  {
    hide At, LeaseInv, FlagInv;
    var es :| At(es, |es|) == s;
    RunInv(es, |es|, o);
  }

  lemma {:induction false} CarefulStays(s: State, es: seq<Event>, o: Owner)
    requires LeaseInv(s, o) && FlagInv(s, o) && NeverAbandoned(s, o) && Careful(es, o)
    ensures var t := Continue(s, es); LeaseInv(t, o) && FlagInv(t, o) && NeverAbandoned(t, o)
  {
    hide Step, LeaseInv, FlagInv, NeverAbandoned;
    if es != [] {
      var init, e := es[..|es| - 1], es[|es| - 1];
      CarefulStays(s, init, o);
      StepInv(Continue(s, init), e, o);
      assert e in es;
      StepAbandonsNothing(Continue(s, init), e, o);
    }
  }

  lemma {:induction false} StepAbandonsNothing(s: State, e: Event, o: Owner)
    requires NeverAbandoned(s, o) && e != LoseUnlock(o)
    ensures NeverAbandoned(Step(s, e), o)
  {
  }

  /** Every object can be brought to rest without giving up a release. */
  lemma {:induction false} ToRest(s: State, o: Owner) returns (es: seq<Event>)
    ensures Obj(Continue(s, es), o).phase.Ready? && s.late <= Continue(s, es).late
    ensures forall p :: p != o ==> Obj(Continue(s, es), p) == Obj(s, p)
    ensures forall p :: Careful(es, p)
  {
    hide Continue, Step;
    var x := Obj(s, o);
    match x.phase
    case Ready =>
      es := [];
      ContinueNone(s);
    case Setting(_) =>
      es := [LoseSet(o)];
      ContinueNone(s);
      ContinueOne(s, [], LoseSet(o));
      assert [] + [LoseSet(o)] == es;
      LoseSetRests(s, o);
    case Unlocking(done) =>
      es := UnlockToRest(s, o);
  }

  lemma {:induction false} ContinueNone(s: State)
    ensures Continue(s, []) == s
  {
  }

  lemma {:induction false} LoseSetRests(s: State, o: Owner)
    requires Obj(s, o).phase.Setting?
    ensures var t := Step(s, LoseSet(o));
            && Obj(t, o).phase.Ready? && s.late <= t.late && forall p :: p != o ==> Obj(t, p) == Obj(s, p)
  {
  }

  lemma {:induction false} UnlockToRest(s: State, o: Owner) returns (es: seq<Event>)
    requires Obj(s, o).phase.Unlocking?
    ensures Obj(Continue(s, es), o).phase.Ready? && s.late <= Continue(s, es).late
    ensures forall p :: p != o ==> Obj(Continue(s, es), p) == Obj(s, p)
    ensures forall p :: Careful(es, p)
  {
    hide Continue;
    es := [RunUnlock(o), AnswerUnlock(o)];
    ContinueNone(s);
    ContinueOne(s, [], RunUnlock(o));
    ContinueOne(s, [RunUnlock(o)], AnswerUnlock(o));
    assert [RunUnlock(o)] + [AnswerUnlock(o)] == es && [] + [RunUnlock(o)] == [RunUnlock(o)];
  }

  /** From a free key, an object at rest acquires and holds. */
  lemma {:induction false} TakesFreeLock(s: State, o: Owner) returns (es: seq<Event>)
    requires Obj(s, o).phase.Ready? && Free(s.slot, s.now)
    ensures var t := Continue(s, es);
            && Holds(t, o) && Obj(t, o).phase.Ready? && t.slot == Held(o, t.now + 1) && t.now == s.now && t.late == s.late
            && forall p :: p != o ==> Obj(t, p) == Obj(s, p)
    ensures forall p :: Careful(es, p)
  {
    hide Continue;
    es := [BeginSet(o), RunSet(o, 1), AnswerSet(o)];
    ContinueNone(s);
    ContinueOne(s, [], BeginSet(o));
    ContinueOne(s, [BeginSet(o)], RunSet(o, 1));
    ContinueOne(s, [BeginSet(o), RunSet(o, 1)], AnswerSet(o));
    assert [] + [BeginSet(o)] == [BeginSet(o)] && [BeginSet(o)] + [RunSet(o, 1)] == [BeginSet(o), RunSet(o, 1)];
    assert [BeginSet(o), RunSet(o, 1)] + [AnswerSet(o)] == es;
  }

  /** If a release of `o` was given up on, then from any state whatever, any other object
      can come to hold the lock together with `o`: bring both to rest, let the lease run out,
      acquire with `o`, let its old script run, acquire with `p`. */
  lemma {:induction false} AbandonedBreaksExclusion(s: State, o: Owner, p: Owner) returns (es: seq<Event>)
    requires o != p && (o, UnlockCommand) in s.late
    ensures Holds(Continue(s, es), o) && Holds(Continue(s, es), p)
    ensures forall x :: Careful(es, x)
  {
    hide Continue, Step, Holds;
    var a := ToRest(s, o);
    var s1 := Continue(s, a);
    var b := ToRest(s1, p);
    var s2 := Continue(s1, b);
    var c := RunsOut(s2);
    var s3 := Continue(s2, c);
    var d := TakesFreeLock(s3, o);
    var s4 := Continue(s3, d);
    var e := LateUnlock(o);
    ContinueNone(s4);
    ContinueOne(s4, [], e);
    assert [] + [e] == [e];
    LateUnlockFrees(s4, o);
    var s5 := Continue(s4, [e]);
    var f := TakesFreeLock(s5, p);
    StillHolds(s5, Continue(s5, f), o);
    es := a + b + c + d + [e] + f;
    ContinueBoth(s, a, b);
    ContinueBoth(s, a + b, c);
    ContinueBoth(s, a + b + c, d);
    ContinueBoth(s, a + b + c + d, [e]);
    ContinueBoth(s, a + b + c + d + [e], f);
    forall x ensures Careful(es, x) {
      assert Careful(a, x) && Careful(b, x) && Careful(c, x) && Careful(d, x) && Careful(f, x);
    }
  }

  lemma {:induction false} RunsOut(s: State) returns (es: seq<Event>)
    ensures var t := Continue(s, es); t == s.(now := t.now) && Free(t.slot, t.now)
    ensures forall p :: Careful(es, p)
  {
    var ms: nat := if s.slot.Held? && s.slot.expires > s.now then s.slot.expires - s.now else 0;
    es := [Tick(ms)];
    assert es[..0] == [];
  }

  lemma {:induction false} LateUnlockFrees(s: State, o: Owner)
    requires (o, UnlockCommand) in s.late && Holds(s, o) && s.slot == Held(o, s.now + 1)
    ensures var t := Step(s, LateUnlock(o));
            && Holds(t, o) && Free(t.slot, t.now) && t.now == s.now && t.late == s.late
            && forall p :: p != o ==> Obj(t, p) == Obj(s, p)
  {
  }

  lemma {:induction false} StillHolds(s: State, t: State, o: Owner)
    requires Holds(s, o) && Obj(t, o) == Obj(s, o) && t.now == s.now
    ensures Holds(t, o)
  {
  }

  /** The exact condition.  From a reachable state, as long as neither object gives up a
      release from now on, the two can never both hold the lock if and only if no release
      of either was given up on before. */
  lemma {:induction false} ExclusionExactly(s: State, o: Owner, p: Owner)
    requires Reachable(s) && o != p
    ensures NeverAbandoned(s, o) && NeverAbandoned(s, p) <==>
              forall es :: Careful(es, o) && Careful(es, p) ==> !(Holds(Continue(s, es), o) && Holds(Continue(s, es), p))
  {
    hide Reachable, Continue, Careful, Holds, LeaseInv, FlagInv;
    if NeverAbandoned(s, o) && NeverAbandoned(s, p) {
      forall es | Careful(es, o) && Careful(es, p)
        ensures !(Holds(Continue(s, es), o) && Holds(Continue(s, es), p))
      {
        ReachableInv(s, o);
        ReachableInv(s, p);
        CarefulStays(s, es, o);
        CarefulStays(s, es, p);
        OneHolder(Continue(s, es), o, p);
      }
    } else if !NeverAbandoned(s, o) {
      var es := AbandonedBreaksExclusion(s, o, p);
    } else {
      var es := AbandonedBreaksExclusion(s, p, o);
    }
  }

  lemma {:induction false} OneHolder(s: State, o: Owner, p: Owner)
    requires o != p && LeaseInv(s, o) && FlagInv(s, o) && NeverAbandoned(s, o)
    requires LeaseInv(s, p) && FlagInv(s, p) && NeverAbandoned(s, p)
    ensures !(Holds(s, o) && Holds(s, p))
  {
  }

  /** Acquiring a lock that the same object already holds clears the object's flag, so the
      release that follows sends nothing and the lease lasts until it runs out. */
  lemma {:induction false} ReacquireForgets(s: State, o: Owner, px: int)
    requires LeaseInv(s, o) && Obj(s, o).acquired && Obj(s, o).phase.Ready? && !Obj(s, o).unlocked
    requires s.now < Obj(s, o).until && px > 0
    ensures var t := Step(Step(Step(s, BeginSet(o)), RunSet(o, px)), AnswerSet(o));
            !Obj(t, o).acquired && t.slot == s.slot && Step(t, BeginUnlock(o)) == t
  {
    var b := Step(s, BeginSet(o));
    assert Obj(b, o) == Obj(s, o).(phase := Setting(Awaited)) && b.slot == s.slot;
    var r := Step(b, RunSet(o, px));
    assert Obj(r, o) == Obj(s, o).(phase := Setting(Answered(false))) && r.slot == s.slot;
  }

  // ----- undisturbed, the lock is taken and given back -----

  function Acquire(s: State, o: Owner, px: int): State {
    Step(Step(Step(s, BeginSet(o)), RunSet(o, px)), AnswerSet(o))
  }

  function Release(s: State, o: Owner): State {
    Step(Step(Step(s, BeginUnlock(o)), RunUnlock(o)), AnswerUnlock(o))
  }

  /** One try: it takes a free key for the lease time asked for, leaves a live lease alone,
      and raises, changing nothing, for a lease time that is not positive. */
  lemma {:induction false} AcquireDecides(s: State, o: Owner, px: int)
    requires Obj(s, o).phase.Ready?
    ensures var r := Acquire(s, o, px);
            && r.now == s.now && r.late == s.late && Obj(r, o).phase.Ready?
            && (forall p :: p != o ==> Obj(r, p) == Obj(s, p))
            && r.slot == (if px > 0 && Free(s.slot, s.now) then Held(o, s.now + px) else s.slot)
            && (px > 0 ==> (Obj(r, o).acquired <==> Free(s.slot, s.now)))
            && (px <= 0 ==> Obj(r, o) == Obj(s, o))
  {
    var b := Step(s, BeginSet(o));
    assert Obj(b, o) == Obj(s, o).(phase := Setting(Awaited));
    var m := Step(b, RunSet(o, px));
    assert Obj(m, o).phase.Setting? && !Obj(m, o).phase.answer.Awaited?;
  }

  /** A release clears the flag and frees the key, unless another object's lease is on it. */
  lemma {:induction false} ReleaseFrees(s: State, o: Owner)
    requires Obj(s, o).phase.Ready? && Obj(s, o).acquired
    ensures var r := Release(s, o);
            && r.now == s.now && r.late == s.late && Obj(r, o).phase.Ready? && !Obj(r, o).acquired
            && (forall p :: p != o ==> Obj(r, p) == Obj(s, p))
            && (if Free(s.slot, s.now) || s.slot.owner == o then Free(r.slot, r.now) else r.slot == s.slot)
  {
    var b := Step(s, BeginUnlock(o));
    assert Obj(b, o) == Obj(s, o).(phase := Unlocking(false));
    var m := Step(b, RunUnlock(o));
    assert Obj(m, o) == Obj(s, o).(phase := Unlocking(true), unlocked := true);
  }

  /** So the lock passes from hand to hand: once its holder has released it, any other object
      acquires it with its first try, long before the old lease would have run out. */
  lemma {:induction false} HandsOver(s: State, o: Owner, p: Owner, px: int)
    requires Obj(s, o).phase.Ready? && Obj(s, o).acquired && Obj(s, p).phase.Ready? && px > 0 && o != p
    requires s.slot.Held? && s.slot.owner == o
    ensures var r := Acquire(Release(s, o), p, px); Obj(r, p).acquired && !Obj(r, o).acquired && r.slot == Held(p, s.now + px)
  {
    hide Acquire, Release;
    ReleaseFrees(s, o);
    AcquireDecides(Release(s, o), p, px);
  }
}

/** The lock object itself, changed in place by `acquire` and `release`. */
module LockObjects {
  import opened LockProtocol

  /** The Redis key and the server's clock; other objects use the same key.  `left` records
      the key as they last left it, which is how our next command finds it. */
  class Server {
    var now: int
    var slot: Slot
    ghost var left: Slot

    constructor ()
    {
      now, slot, left := 0, Empty, Empty;
    }

    /** While an object waits, time passes and others act, but a live lease of this object
        is only theirs to see (`OnlyItsOwner`). */
    method Others(me: Owner)
      modifies this
      ensures now >= old(now) && left == slot
      ensures old(slot).Held? && old(slot).owner == me && now < old(slot).expires ==> slot == old(slot)
    {
      var passed: nat, taken: bool, other: Owner, px: nat := *, *, *, *;
      now := now + passed;
      if Free(slot, now) || slot.owner != me {
        if other != me { slot := if taken then Held(other, now + px) else Empty; }
      }
      left := slot;
    }

    /** SET key value NX PX px; a lifetime that is not positive is an error. */
    method SetNx(o: Owner, px: int) returns (answer: Answer)
      modifies `slot
      ensures answer == if px <= 0 then Refused else Answered(Free(old(slot), now))
      ensures slot == if answer == Answered(true) then Held(o, now + px) else old(slot)
    {
      if px <= 0 { return Refused; }
      answer := Answered(Free(slot, now));
      if answer.granted { slot := Held(o, now + px); }
    }

    method Unlock(o: Owner)
      modifies `slot
      ensures slot == Unlocked(old(slot), now, o)
    {
      if !Free(slot, now) && slot.owner == o { slot := Empty; }
    }
  }

  function Left(time: int, deadline: int): nat {
    if time < deadline then deadline - time else 0
  }

  class AsyncDistributedLock {
    const identifier: Owner
    const timeout: int
    const blockingTimeout: int
    var acquired: bool

    constructor (identifier: Owner, timeout: int, blockingTimeout: int)
      ensures !acquired && this.identifier == identifier && this.timeout == timeout
      ensures this.blockingTimeout == blockingTimeout
    {
      this.identifier, this.timeout, this.blockingTimeout := identifier, timeout, blockingTimeout;
      acquired := false;
    }

    /** `acquire`: try, and try again every hundredth of a second until the deadline on
        the caller's own clock.  Success means that the last try found the key free and
        was granted a full lease; failure, that it found a live lease and its answer came
        at or after the deadline.  It raises exactly if the lease time is not positive, and
        then leaves flag and key alone. */
    method Acquire(server: Server, startedAt: int) returns (ok: bool, raised: bool, endedAt: int)
      modifies this, server
      ensures raised <==> timeout <= 0
      ensures raised ==> !ok && acquired == old(acquired) && server.slot == server.left
      ensures !raised ==> ok == acquired
      ensures ok ==> Free(server.left, server.now) && server.slot == Held(identifier, server.now + timeout)
      ensures !ok && !raised ==>
                endedAt >= startedAt + blockingTimeout && !Free(server.left, server.now) && server.slot == server.left
    {
      var deadline := startedAt + blockingTimeout;
      endedAt := startedAt;
      while true
        invariant timeout <= 0 ==> acquired == old(acquired)
        decreases Left(endedAt, deadline)
      {
        server.Others(identifier);
        var answer := server.SetNx(identifier, timeout);
        if answer.Refused? { return false, true, endedAt; }
        acquired := answer.granted;
        if acquired { return true, false, endedAt; }
        var answeredAfter: nat :| true;
        endedAt := endedAt + answeredAfter;
        if endedAt >= deadline { return false, false, endedAt; }
        endedAt := endedAt + 10;
      }
    }

    /** `release`: nothing without the flag; otherwise the script removes this object's
        live lease if it finds it, and leaves the key as it found it if not: a live lease
        of any other object is untouched. */
    method Release(server: Server)
      modifies this, server
      ensures !acquired
      ensures !old(acquired) ==> server.slot == old(server.slot) && server.now == old(server.now)
      ensures old(acquired) ==> server.slot == Unlocked(server.left, server.now, identifier)
      ensures old(acquired) && !Free(server.left, server.now) ==>
                server.slot == if server.left.owner == identifier then Empty else server.left
    {
      if !acquired { return; }
      server.Others(identifier);
      server.Unlock(identifier);
      acquired := false;
    }
  }
}
