/** The sliding-window rate limiter: one Redis sorted set per key, pruned and expired as
    it goes (the script at src/nova/redis/rate_limiter.py:15-38), against a log that
    forgets nothing.  Requests are numbered; their ids are drawn once, so the number
    stands for the id.  Clients stamp requests with their own clock; Redis expires the
    key by the server's. */
module RateLimiter {
  import opened Sets

  datatype Request = Request(now: real, server: real)

  datatype Expiry = Never | Due(at: real)

  /** The stored sorted set, member to score, and when the key expires. */
  datatype Stored = Stored(members: map<nat, real>, expiry: Expiry)

  const ABSENT := Stored(map[], Never)

  /** A key past its expiry is gone before any command sees it. */
  function Live(s: Stored, server: real): Stored {
    if s.expiry.Due? && s.expiry.at <= server then ABSENT else s
  }

  /** ZREMRANGEBYSCORE key 0 (now - window): both bounds included. */
  function Pruned(s: Stored, cutoff: real): Stored {
    s.(members := map i | i in s.members && !(0.0 <= s.members[i] <= cutoff) :: s.members[i])
  }

  /** ZADD, then EXPIRE: an expiry that is not in the future deletes the key. */
  function Added(s: Stored, id: nat, r: Request, window: int): Stored {
    if window <= 0 then ABSENT
    else Stored(s.members[id := r.now], Due(r.server + window as real))
  }

  /** What the script counts. */
  function Current(s: Stored, r: Request, window: int): Stored {
    Pruned(Live(s, r.server), r.now - window as real)
  }

  function Allows(s: Stored, r: Request, window: int, limit: int): bool {
    |Current(s, r, window).members| < limit
  }

  function Script(s: Stored, id: nat, r: Request, window: int, limit: int): Stored {
    var t := Current(s, r, window);
    if |t.members| < limit then Added(t, id, r, window) else t
  }

  /** The stored set on the server, changed by one atomic script call at a time. */
  class SortedSet {
    var members: map<nat, real>
    var expiry: Expiry

    function Value(): Stored
      reads this
    {
      Stored(members, expiry)
    }

    constructor ()
      ensures Value() == ABSENT
    {
      members, expiry := map[], Never;
    }

    method Check(id: nat, r: Request, window: int, limit: int) returns (allowed: bool)
      modifies this
      ensures allowed == Allows(old(Value()), r, window, limit)
      ensures Value() == Script(old(Value()), id, r, window, limit)
    {
      if expiry.Due? && expiry.at <= r.server {
        members, expiry := map[], Never;
      }
      var cutoff := r.now - window as real;
      members := map i | i in members && !(0.0 <= members[i] <= cutoff) :: members[i];
      var count := |members|;
      if count < limit {
        members := members[id := r.now];
        if window <= 0 {
          members, expiry := map[], Never;
        } else {
          expiry := Due(r.server + window as real);
        }
        allowed := true;
      } else {
        allowed := false;
      }
    }
  }

  // ----- runs -----

  /** The stored set after the first `n` requests. */
  function After(rs: seq<Request>, n: nat, window: int, limit: int): Stored
    requires n <= |rs|
  {
    if n == 0 then ABSENT else Script(After(rs, n - 1, window, limit), n - 1, rs[n - 1], window, limit)
  }

  predicate Allowed(rs: seq<Request>, j: nat, window: int, limit: int)
    requires j < |rs|
  {
    Allows(After(rs, j, window, limit), rs[j], window, limit)
  }

  ghost function AllowedBefore(rs: seq<Request>, n: nat, window: int, limit: int): set<nat>
    requires n <= |rs|
  {
    set i | 0 <= i < n && Allowed(rs, i, window, limit)
  }

  /** Those of `log` whose stamps lie less than a window before `now`, or later. */
  ghost function InWindow(rs: seq<Request>, log: set<nat>, now: real, window: int): set<nat>
    requires forall i :: i in log ==> i < |rs|
  {
    set i | i in log && rs[i].now > now - window as real
  }

  // ----- what the script counts, for any clocks at all -----

  /** The latest admission before request `n`, or -1. */
  function Latest(rs: seq<Request>, n: nat, window: int, limit: int): (e: int)
    requires n <= |rs|
    ensures -1 <= e < n && (e >= 0 ==> Allowed(rs, e, window, limit))
    ensures forall i :: e < i < n ==> !Allowed(rs, i, window, limit)
  {
    if n == 0 then -1 else if Allowed(rs, n - 1, window, limit) then n - 1 else Latest(rs, n - 1, window, limit)
  }

  /** Request `k` finds the key expired: a window has gone by on the server since the
      latest admission. */
  predicate Lapses(rs: seq<Request>, k: nat, window: int, limit: int)
    requires k < |rs|
  {
    var e := Latest(rs, k, window, limit);
    e >= 0 && rs[e].server + window as real <= rs[k].server
  }

  /** Request `k` removes admission `i`: its stamp is a window later, or the key expired. */
  predicate Removes(rs: seq<Request>, k: nat, i: nat, window: int, limit: int)
    requires k < |rs| && i < |rs|
  {
    0.0 <= rs[i].now <= rs[k].now - window as real || Lapses(rs, k, window, limit)
  }

  /** Admission `i` outlives the requests after it, up to and including the one before `m`. */
  ghost predicate Outlives(rs: seq<Request>, i: nat, m: nat, window: int, limit: int)
    requires i < |rs| && m <= |rs|
  {
    window > 0 && forall k :: i < k < m ==> !Removes(rs, k, i, window, limit)
  }

  ghost function Counted(rs: seq<Request>, n: nat, window: int, limit: int): set<nat>
    requires n < |rs|
  {
    Current(After(rs, n, window, limit), rs[n], window).members.Keys
  }

  ghost predicate Tracks(s: Stored, rs: seq<Request>, n: nat, window: int, limit: int)
    requires n <= |rs|
  {
    && (forall i :: i in s.members <==> i in AllowedBefore(rs, n, window, limit) && Outlives(rs, i, n, window, limit))
    && (forall i :: i in s.members ==> s.members[i] == rs[i].now)
    && (s.expiry.Never? ==> s.members == map[])
    && (s.expiry.Due? ==> var e := Latest(rs, n, window, limit); e >= 0 && s.expiry.at == rs[e].server + window as real)
  }

  /** The same for what is left when request `n` counts, with its own removals. */
  ghost predicate Left(t: Stored, rs: seq<Request>, n: nat, window: int, limit: int)
    requires n < |rs|
  {
    && (forall i :: i in t.members <==>
          i in AllowedBefore(rs, n, window, limit) && Outlives(rs, i, n + 1, window, limit))
    && (forall i :: i in t.members ==> t.members[i] == rs[i].now)
    && (t.expiry.Never? ==> t.members == map[])
    && (t.expiry.Due? ==> var e := Latest(rs, n, window, limit); e >= 0 && t.expiry.at == rs[e].server + window as real)
  }

  lemma {:induction false} CurrentIsLeft(s: Stored, rs: seq<Request>, n: nat, window: int, limit: int)
    requires n < |rs| && Tracks(s, rs, n, window, limit)
    ensures Left(Current(s, rs[n], window), rs, n, window, limit)
  {
    hide Allowed, Latest;
    var t := Current(s, rs[n], window);
    forall i ensures i in t.members <==>
                       i in AllowedBefore(rs, n, window, limit) && Outlives(rs, i, n + 1, window, limit)
    {
      if i in AllowedBefore(rs, n, window, limit) {
        OneMoreRequest(rs, i, n, window, limit);
      }
    }
  }

  lemma {:induction false} OneMoreRequest(rs: seq<Request>, i: nat, n: nat, window: int, limit: int)
    requires i < n < |rs|
    ensures Outlives(rs, i, n + 1, window, limit) <==>
              Outlives(rs, i, n, window, limit) && !Removes(rs, n, i, window, limit)
  {
    hide Removes;
  }

  lemma {:induction false} RunTracks(rs: seq<Request>, n: nat, window: int, limit: int)
    requires n <= |rs|
    ensures Tracks(After(rs, n, window, limit), rs, n, window, limit)
  {
    hide Tracks, Script;
    if n == 0 {
      NothingStored(rs, window, limit);
    } else {
      RunTracks(rs, n - 1, window, limit);
      StepTracks(rs, n - 1, window, limit);
    }
  }

  lemma {:induction false} NothingStored(rs: seq<Request>, window: int, limit: int)
    ensures Tracks(ABSENT, rs, 0, window, limit)
  {
  }

  lemma {:induction false} StepTracks(rs: seq<Request>, n: nat, window: int, limit: int)
    requires n < |rs| && Tracks(After(rs, n, window, limit), rs, n, window, limit)
    ensures Tracks(After(rs, n + 1, window, limit), rs, n + 1, window, limit)
  {
    hide Tracks, Left, Current;
    var t := Current(After(rs, n, window, limit), rs[n], window);
    CurrentIsLeft(After(rs, n, window, limit), rs, n, window, limit);
    if |t.members| < limit {
      AddedTracks(t, rs, n, window, limit);
    } else {
      RejectedTracks(t, rs, n, window, limit);
    }
  }

  lemma {:induction false} AddedTracks(t: Stored, rs: seq<Request>, n: nat, window: int, limit: int)
    requires n < |rs| && Left(t, rs, n, window, limit) && Allowed(rs, n, window, limit)
    ensures Tracks(Added(t, n, rs[n], window), rs, n + 1, window, limit)
  {
    hide Allowed, AllowedBefore, Removes, Latest;
    NextAllowed(rs, n, window, limit);
    NextLatest(rs, n, window, limit);
  }

  lemma {:induction false} RejectedTracks(t: Stored, rs: seq<Request>, n: nat, window: int, limit: int)
    requires n < |rs| && Left(t, rs, n, window, limit) && !Allowed(rs, n, window, limit)
    ensures Tracks(t, rs, n + 1, window, limit)
  {
    hide Allowed, AllowedBefore, Outlives, Latest;
    NextAllowed(rs, n, window, limit);
    NextLatest(rs, n, window, limit);
  }

  lemma {:induction false} NextLatest(rs: seq<Request>, n: nat, window: int, limit: int)
    requires n < |rs|
    ensures Latest(rs, n + 1, window, limit) == if Allowed(rs, n, window, limit) then n else Latest(rs, n, window, limit)
  {
    hide Allowed;
  }

  lemma {:induction false} NextAllowed(rs: seq<Request>, n: nat, window: int, limit: int)
    requires n < |rs|
    ensures AllowedBefore(rs, n + 1, window, limit)
         == AllowedBefore(rs, n, window, limit) + if Allowed(rs, n, window, limit) then {n} else {}
    ensures n !in AllowedBefore(rs, n, window, limit)
  {
    hide Allowed;
  }

  /** For clocks of any kind: what the script counts for request `n` are exactly the
      earlier admissions that neither a stamp a window later nor an expiry has removed. */
  lemma {:induction false} CountedExactly(rs: seq<Request>, n: nat, window: int, limit: int)
    requires n < |rs|
    ensures forall i :: i in Counted(rs, n, window, limit) <==>
              i in AllowedBefore(rs, n, window, limit) && Outlives(rs, i, n + 1, window, limit)
    ensures Allowed(rs, n, window, limit) <==> |Counted(rs, n, window, limit)| < limit
  {
    hide Tracks, Current, Outlives;
    RunTracks(rs, n, window, limit);
    CurrentIsLeft(After(rs, n, window, limit), rs, n, window, limit);
    var m := Current(After(rs, n, window, limit), rs[n], window).members;
    assert |m| == |m.Keys|;
  }

  lemma {:induction false} AllowedByCount(rs: seq<Request>, n: nat, window: int, limit: int)
    requires n < |rs|
    ensures Allowed(rs, n, window, limit) <==> |Counted(rs, n, window, limit)| < limit
  {
    hide Allowed, Counted, Outlives;
    CountedExactly(rs, n, window, limit);
  }

  /** Stamps are seconds since the epoch. */
  ghost predicate Stamps(rs: seq<Request>) {
    forall i :: 0 <= i < |rs| ==> 0.0 <= rs[i].now
  }

  /** So the count is that of the window exactly when nothing in the window was removed. */
  lemma {:induction false} CountsTheWindow(rs: seq<Request>, n: nat, window: int, limit: int)
    requires n < |rs| && Stamps(rs)
    ensures var w := InWindow(rs, AllowedBefore(rs, n, window, limit), rs[n].now, window);
            && Counted(rs, n, window, limit) <= w
            && (Counted(rs, n, window, limit) == w <==> forall i :: i in w ==> Outlives(rs, i, n + 1, window, limit))
  {
    hide Allowed, Latest, Lapses, Counted;
    CountedExactly(rs, n, window, limit);
    forall i | i in Counted(rs, n, window, limit)
      ensures i in InWindow(rs, AllowedBefore(rs, n, window, limit), rs[n].now, window)
    {
      assert !Removes(rs, n, i, window, limit);
    }
  }

  /** A decision differs from that of a complete log of the admissions exactly when as many
      were removed from the window as the limit could not spare; and then it admits. */
  lemma {:induction false} WrongDecision(rs: seq<Request>, n: nat, window: int, limit: int)
    requires n < |rs| && Stamps(rs)
    ensures var w := InWindow(rs, AllowedBefore(rs, n, window, limit), rs[n].now, window);
            var removed := set i | i in w && !Outlives(rs, i, n + 1, window, limit);
            && (Allowed(rs, n, window, limit) <==> |w| - |removed| < limit)
            && ((Allowed(rs, n, window, limit) <==> |w| < limit) <==> !(|w| - |removed| < limit <= |w|))
  {
    hide Allowed, Outlives, Counted;
    CountedExactly(rs, n, window, limit);
    CountsTheWindow(rs, n, window, limit);
    var w := InWindow(rs, AllowedBefore(rs, n, window, limit), rs[n].now, window);
    var removed := set i | i in w && !Outlives(rs, i, n + 1, window, limit);
    var counted := Counted(rs, n, window, limit);
    assert counted !! removed && w == counted + removed;
    assert |counted + removed| == |counted| + |removed|;
  }

  // ----- for which clocks the count is right -----

  /** While an admission is in the window of some request, no request in between bears a
      stamp a window later, and none comes a window of server time after another. */
  ghost predicate Steady(rs: seq<Request>, window: int) {
    && (forall i, k, n :: 0 <= i < k < n < |rs| ==> Stays(rs, window, i, k, n))
    && (forall i, e, k, n :: 0 <= i <= e < k <= n < |rs| ==> Lasts(rs, window, i, e, k, n))
  }

  /** If `i` is in the window of `n`, the stamp of `k` is less than a window later. */
  predicate Stays(rs: seq<Request>, window: int, i: nat, k: nat, n: nat)
    requires i < |rs| && k < |rs| && n < |rs|
  {
    rs[i].now + window as real > rs[n].now ==> rs[k].now < rs[i].now + window as real
  }

  /** If `i` is in the window of `n`, then `k` comes before the expiry that `e` has set. */
  predicate Lasts(rs: seq<Request>, window: int, i: nat, e: nat, k: nat, n: nat)
    requires i < |rs| && e < |rs| && k < |rs| && n < |rs|
  {
    rs[i].now + window as real > rs[n].now ==> window > 0 && rs[k].server < rs[e].server + window as real
  }

  /** Every request counts what a complete log would count in the window before it. */
  ghost predicate CountsLikeLog(rs: seq<Request>, window: int, limit: int) {
    forall n :: 0 <= n < |rs| ==>
      Counted(rs, n, window, limit) == InWindow(rs, AllowedBefore(rs, n, window, limit), rs[n].now, window)
  }

  lemma {:induction false} SteadyCountsLikeLog(rs: seq<Request>, window: int, limit: int)
    requires Stamps(rs) && Steady(rs, window)
    ensures CountsLikeLog(rs, window, limit)
  {
    hide Counted, Allowed;
    forall n | 0 <= n < |rs|
      ensures Counted(rs, n, window, limit) == InWindow(rs, AllowedBefore(rs, n, window, limit), rs[n].now, window)
    {
      CountsTheWindow(rs, n, window, limit);
      forall i | i in InWindow(rs, AllowedBefore(rs, n, window, limit), rs[n].now, window)
        ensures Outlives(rs, i, n + 1, window, limit)
      {
        SteadyOutlives(rs, i, n, window, limit);
      }
    }
  }

  lemma {:induction false} SteadyOutlives(rs: seq<Request>, i: nat, n: nat, window: int, limit: int)
    requires Steady(rs, window) && i < n < |rs| && rs[i].now > rs[n].now - window as real
    requires Allowed(rs, i, window, limit)
    ensures Outlives(rs, i, n + 1, window, limit)
  {
    hide Allowed;
    assert Lasts(rs, window, i, i, n, n);
    forall k | i < k < n + 1 ensures !Removes(rs, k, i, window, limit) {
      var e := Latest(rs, k, window, limit);
      assert Lasts(rs, window, i, e, k, n);
      assert k < n ==> Stays(rs, window, i, k, n);
    }
  }

  /** Some of the requests of a run, in their order. */
  ghost predicate SubRun(ss: seq<Request>, rs: seq<Request>) {
    exists at: seq<nat> :: Picks(ss, rs, at)
  }

  ghost predicate Picks(ss: seq<Request>, rs: seq<Request>, at: seq<nat>) {
    && |at| == |ss| && (forall j :: 0 <= j < |at| ==> at[j] < |rs| && ss[j] == rs[at[j]])
    && (forall j, l :: 0 <= j < l < |at| ==> at[j] < at[l])
  }

  lemma {:induction false} SubRunIsSteady(ss: seq<Request>, rs: seq<Request>, window: int)
    requires SubRun(ss, rs) && Stamps(rs) && Steady(rs, window)
    ensures Stamps(ss) && Steady(ss, window)
  {
    var at: seq<nat> :| Picks(ss, rs, at);
    forall i: nat, e: nat, k: nat, n: nat | i <= e < k <= n < |ss| ensures Lasts(ss, window, i, e, k, n) {
      assert at[i] <= at[e] < at[k] <= at[n] < |rs|;
      assert Lasts(rs, window, at[i], at[e], at[k], at[n]);
    }
    forall i: nat, k: nat, n: nat | i < k < n < |ss| ensures Stays(ss, window, i, k, n) {
      assert at[i] < at[k] < at[n] < |rs|;
      assert Stays(rs, window, at[i], at[k], at[n]);
    }
  }

  lemma {:induction false} SmallCount(rs: seq<Request>, n: nat, window: int, limit: int)
    requires n < |rs| && n < limit
    ensures Allowed(rs, n, window, limit)
  {
    hide Allowed, Counted, Outlives;
    CountedExactly(rs, n, window, limit);
    SubsetSize(Counted(rs, n, window, limit), Upto(n));
  }

  ghost function Upto(n: nat): (s: set<nat>)
    ensures |s| == n && forall i: nat :: i in s <==> i < n
  {
    if n == 0 then {} else Upto(n - 1) + {n - 1}
  }

  /** In a short run under a generous limit, a removed admission is missed by the count. */
  lemma {:induction false} MissedByTheCount(ss: seq<Request>, i: nat, e: nat, n: nat, window: int)
    requires Stamps(ss) && i <= e < n < |ss| && ss[i].now + window as real > ss[n].now
    requires || window <= 0 || (i == e && ss[i].now + window as real <= ss[e + 1].now)
             || ss[e].server + window as real <= ss[e + 1].server
    ensures !CountsLikeLog(ss, window, |ss|)
  {
    hide Allowed, Counted;
    SmallCount(ss, i, window, |ss|);
    SmallCount(ss, e, window, |ss|);
    assert Latest(ss, e + 1, window, |ss|) == e;
    assert window > 0 ==> Removes(ss, e + 1, i, window, |ss|);
    assert !Outlives(ss, i, n + 1, window, |ss|);
    CountsTheWindow(ss, n, window, |ss|);
    assert i in InWindow(ss, AllowedBefore(ss, n, window, |ss|), ss[n].now, window);
  }

  /** The exact condition on clocks: a run is steady if and only if the script, serving any
      part of the run under any limit, counts at each request what a complete log would. */
  lemma {:induction false} SteadyExactly(rs: seq<Request>, window: int)
    requires Stamps(rs)
    ensures Steady(rs, window) <==>
              forall ss: seq<Request>, limit: int :: SubRun(ss, rs) ==> CountsLikeLog(ss, window, limit)
  {
    hide CountsLikeLog;
    if Steady(rs, window) {
      hide Steady, SubRun;
      forall ss: seq<Request>, limit: int | SubRun(ss, rs) ensures CountsLikeLog(ss, window, limit) {
        SubRunIsSteady(ss, rs, window);
        SteadyCountsLikeLog(ss, window, limit);
      }
    } else {
      var ss := Disturbed(rs, window);
    }
  }

  lemma {:induction false} Disturbed(rs: seq<Request>, window: int) returns (ss: seq<Request>)
    requires Stamps(rs) && !Steady(rs, window)
    ensures SubRun(ss, rs) && !CountsLikeLog(ss, window, |ss|)
  {
    hide CountsLikeLog;
    if i, k, n :| 0 <= i < k < n < |rs| && !Stays(rs, window, i, k, n) {
      ss := [rs[i], rs[k], rs[n]];
      assert Picks(ss, rs, [i, k, n]);
      MissedByTheCount(ss, 0, 0, 2, window);
    } else {
      var i, e, k, n :| 0 <= i <= e < k <= n < |rs| && !Lasts(rs, window, i, e, k, n);
      ss := DisturbedOnServer(rs, i, e, k, n, window);
    }
  }

  lemma {:induction false} DisturbedOnServer(rs: seq<Request>, i: nat, e: nat, k: nat, n: nat, window: int)
      returns (ss: seq<Request>)
    requires Stamps(rs) && i <= e < k <= n < |rs| && !Lasts(rs, window, i, e, k, n)
    ensures SubRun(ss, rs) && !CountsLikeLog(ss, window, |ss|)
  {
    hide CountsLikeLog;
    if i < e && k < n {
      ss := [rs[i], rs[e], rs[k], rs[n]];
      assert Picks(ss, rs, [i, e, k, n]);
      MissedByTheCount(ss, 0, 1, 3, window);
    } else if i < e {
      ss := [rs[i], rs[e], rs[k]];
      assert Picks(ss, rs, [i, e, k]);
      MissedByTheCount(ss, 0, 1, 2, window);
    } else if k < n {
      ss := [rs[e], rs[k], rs[n]];
      assert Picks(ss, rs, [e, k, n]);
      MissedByTheCount(ss, 0, 0, 2, window);
    } else {
      ss := [rs[e], rs[k]];
      assert Picks(ss, rs, [e, k]);
      MissedByTheCount(ss, 0, 0, 1, window);
    }
  }

  /** For stamps that never run backwards the condition is about pairs only: requests less
      than a window apart by their stamps are less than a window apart on the server. */
  lemma {:induction false} SteadyForMonotoneStamps(rs: seq<Request>, window: int)
    requires forall i, j :: 0 <= i < j < |rs| ==> rs[i].now <= rs[j].now
    ensures Steady(rs, window) <==> forall i, j :: 0 <= i < j < |rs| ==> Together(rs, window, i, j)
  {
    if Steady(rs, window) {
      forall i, j | 0 <= i < j < |rs| ensures Together(rs, window, i, j) {
        assert Lasts(rs, window, i, i, j, j);
      }
    }
    if forall i, j :: 0 <= i < j < |rs| ==> Together(rs, window, i, j) {
      forall i, e, k, n | 0 <= i <= e < k <= n < |rs| ensures Lasts(rs, window, i, e, k, n) {
        assert Together(rs, window, e, k);
        assert rs[i].now <= rs[e].now <= rs[k].now <= rs[n].now;
      }
      forall i, k, n | 0 <= i < k < n < |rs| ensures Stays(rs, window, i, k, n) {
        assert rs[k].now <= rs[n].now;
      }
    }
  }

  /** Less than a window apart by their stamps, so less than a window apart on the server. */
  predicate Together(rs: seq<Request>, window: int, i: nat, j: nat)
    requires i < |rs| && j < |rs|
  {
    rs[j].now < rs[i].now + window as real ==> rs[j].server < rs[i].server + window as real
  }

  /** In particular, one clock that does not run backwards is steady for every window. */
  lemma {:induction false} OneClockIsSteady(rs: seq<Request>, window: int)
    requires forall i :: 0 <= i < |rs| ==> rs[i].now == rs[i].server
    requires forall i, j :: 0 <= i < j < |rs| ==> rs[i].now <= rs[j].now
    ensures Steady(rs, window)
  {
    SteadyForMonotoneStamps(rs, window);
  }

  // ----- the promise -----

  /** The reference: a log of every admission, and a count of those in the last window. */
  ghost function Admitted(rs: seq<Request>, n: nat, window: int, limit: int): (log: set<nat>)
    requires n <= |rs|
    ensures forall i :: i in log ==> i < n
  {
    if n == 0 then {}
    else
      var log := Admitted(rs, n - 1, window, limit);
      if |InWindow(rs, log, rs[n - 1].now, window)| < limit then log + {n - 1} else log
  }

  ghost predicate LogAllows(rs: seq<Request>, n: nat, window: int, limit: int)
    requires n < |rs|
  {
    |InWindow(rs, Admitted(rs, n, window, limit), rs[n].now, window)| < limit
  }

  lemma {:induction false} NothingAllowed(rs: seq<Request>, window: int, limit: int)
    ensures AllowedBefore(rs, 0, window, limit) == {}
  {
  }

  /** On steady clocks pruning and expiry lose nothing: the script takes every decision as a
      log that keeps everything would. */
  lemma {:induction false} SameDecisions(rs: seq<Request>, n: nat, window: int, limit: int)
    requires Stamps(rs) && Steady(rs, window) && n <= |rs|
    ensures Admitted(rs, n, window, limit) == AllowedBefore(rs, n, window, limit)
    ensures n < |rs| ==> (Allowed(rs, n, window, limit) <==> LogAllows(rs, n, window, limit))
  {
    hide Allowed, Counted, Steady, Stamps, InWindow, AllowedBefore;
    if n == 0 {
      NothingAllowed(rs, window, limit);
    } else {
      SameDecisions(rs, n - 1, window, limit);
      NextAllowed(rs, n - 1, window, limit);
    }
    if n < |rs| {
      SteadyCountsLikeLog(rs, window, limit);
      AllowedByCount(rs, n, window, limit);
    }
  }

  ghost predicate MonotoneStamps(rs: seq<Request>) {
    forall i, j :: 0 <= i < j < |rs| ==> rs[i].now <= rs[j].now
  }

  ghost predicate MonotoneServer(rs: seq<Request>) {
    forall i, j :: 0 <= i < j < |rs| ==> rs[i].server <= rs[j].server
  }

  ghost predicate DecidesLikeLog(rs: seq<Request>, window: int, limit: int) {
    forall n :: 0 <= n < |rs| ==> (Allowed(rs, n, window, limit) <==> LogAllows(rs, n, window, limit))
  }

  /** If the stamps, or the server's clock, never run backwards, both directions: the script
      decides every part of the run under every limit as the log does, if and only if the
      clocks are steady. */
  lemma {:induction false} DecisionsExactly(rs: seq<Request>, window: int)
    requires Stamps(rs) && (MonotoneStamps(rs) || MonotoneServer(rs))
    ensures Steady(rs, window) <==>
              forall ss: seq<Request>, limit: int :: SubRun(ss, rs) ==> DecidesLikeLog(ss, window, limit)
  {
    hide Allowed, LogAllows, Stamps;
    if Steady(rs, window) {
      hide Steady, SubRun;
      forall ss: seq<Request>, limit: int | SubRun(ss, rs) ensures DecidesLikeLog(ss, window, limit) {
        SubRunIsSteady(ss, rs, window);
        forall n | 0 <= n < |ss| ensures Allowed(ss, n, window, limit) <==> LogAllows(ss, n, window, limit) {
          SameDecisions(ss, n, window, limit);
        }
      }
    } else {
      var ss, limit := DecidedOtherwise(rs, window);
    }
  }

  lemma {:induction false} DecidedOtherwise(rs: seq<Request>, window: int) returns (ss: seq<Request>, limit: int)
    requires Stamps(rs) && (MonotoneStamps(rs) || MonotoneServer(rs)) && !Steady(rs, window)
    ensures SubRun(ss, rs) && !DecidesLikeLog(ss, window, limit)
  {
    hide DecidesLikeLog;
    if i, j :| 0 <= i < j < |rs| && Parted(rs, window, i, j) {
      ss, limit := [rs[i], rs[j]], 1;
      assert Picks(ss, rs, [i, j]);
      ExpiredTooEarly(ss, window);
      assert !DecidesLikeLog(ss, window, 1) by { Differs(ss, 1, window, 1); }
    } else {
      var i, k, n := PrunedEarly(rs, window);
      ss, limit := [rs[i], rs[k], rs[n]], 2;
      assert Picks(ss, rs, [i, k, n]);
      PrunedTooEarly(ss, window);
      assert !DecidesLikeLog(ss, window, 2) by { Differs(ss, 2, window, 2); }
    }
  }

  lemma {:induction false} Differs(ss: seq<Request>, n: nat, window: int, limit: int)
    requires n < |ss| && !(Allowed(ss, n, window, limit) <==> LogAllows(ss, n, window, limit))
    ensures !DecidesLikeLog(ss, window, limit)
  {
    hide Allowed, LogAllows;
  }

  /** `i` is in the window of `j`, but the expiry set by `i` comes first. */
  predicate Parted(rs: seq<Request>, window: int, i: nat, j: nat)
    requires i < |rs| && j < |rs|
  {
    rs[i].now + window as real > rs[j].now && (window <= 0 || rs[i].server + window as real <= rs[j].server)
  }

  lemma {:induction false} LastsUnlessParted(rs: seq<Request>, window: int, a: nat, e: nat, b: nat, c: nat)
    requires (MonotoneStamps(rs) || MonotoneServer(rs)) && a <= e < b <= c < |rs|
    requires !Parted(rs, window, a, c) && !Parted(rs, window, e, b)
    ensures Lasts(rs, window, a, e, b, c)
  {
    assert a == e || rs[a].now <= rs[e].now || rs[a].server <= rs[e].server;
    assert b == c || rs[b].now <= rs[c].now || rs[b].server <= rs[c].server;
  }

  /** Where no pair is parted, what is not steady is a stamp in between. */
  lemma {:induction false} PrunedEarly(rs: seq<Request>, window: int) returns (i: nat, k: nat, n: nat)
    requires (MonotoneStamps(rs) || MonotoneServer(rs)) && !Steady(rs, window)
    requires forall a, b :: 0 <= a < b < |rs| ==> !Parted(rs, window, a, b)
    ensures i < k < n < |rs| && window > 0 && !Stays(rs, window, i, k, n)
  {
    forall a, e, b, c | 0 <= a <= e < b <= c < |rs| ensures Lasts(rs, window, a, e, b, c) {
      LastsUnlessParted(rs, window, a, e, b, c);
    }
    i, k, n :| 0 <= i < k < n < |rs| && !Stays(rs, window, i, k, n);
    assert !Parted(rs, window, i, n);
  }

  /** Under a generous limit the log keeps everything. */
  lemma {:induction false} SmallLog(rs: seq<Request>, n: nat, window: int, limit: int)
    requires n <= |rs| && n <= limit
    ensures Admitted(rs, n, window, limit) == Upto(n)
  {
    hide InWindow;
    if n > 0 {
      SmallLog(rs, n - 1, window, limit);
      WindowIsPart(rs, Upto(n - 1), rs[n - 1].now, window);
      SubsetSize(InWindow(rs, Upto(n - 1), rs[n - 1].now, window), Upto(n - 1));
    }
  }

  lemma {:induction false} WindowIsPart(rs: seq<Request>, log: set<nat>, now: real, window: int)
    requires forall i :: i in log ==> i < |rs|
    ensures InWindow(rs, log, now, window) <= log
  {
  }

  /** Two requests, the first in the window of the second, but a window apart on the server:
      under a limit of one both are admitted, because the key has expired in between. */
  lemma {:induction false} ExpiredTooEarly(rs: seq<Request>, window: int)
    requires |rs| == 2 && Parted(rs, window, 0, 1)
    ensures Allowed(rs, 0, window, 1) && Allowed(rs, 1, window, 1) && !LogAllows(rs, 1, window, 1)
  {
    hide Allowed, Counted;
    SmallCount(rs, 0, window, 1);
    assert Latest(rs, 1, window, 1) == 0;
    assert window > 0 ==> Removes(rs, 1, 0, window, 1);
    CountedExactly(rs, 1, window, 1);
    assert Counted(rs, 1, window, 1) == {};
    SmallLog(rs, 1, window, 1);
    assert InWindow(rs, Upto(1), rs[1].now, window) == {0};
  }

  /** A late stamp prunes the first of three requests: under a limit of two all are admitted,
      although the first and the second are in the window of the third. */
  lemma {:induction false} PrunedTooEarly(rs: seq<Request>, window: int)
    requires |rs| == 3 && Stamps(rs) && window > 0 && !Stays(rs, window, 0, 1, 2)
    ensures Allowed(rs, 2, window, 2) && !LogAllows(rs, 2, window, 2)
  {
    hide Allowed, Counted;
    assert Removes(rs, 1, 0, window, 2);
    assert !Outlives(rs, 0, 3, window, 2);
    CountedExactly(rs, 2, window, 2);
    SubsetSize(Counted(rs, 2, window, 2), {1});
    SmallLog(rs, 2, window, 2);
    assert InWindow(rs, Upto(2), rs[2].now, window) == {0, 1};
  }

  /** Admissions stamped in `[from, from + window)`. */
  ghost function Stamped(rs: seq<Request>, log: set<nat>, window: int, from: real): set<nat>
    requires forall i :: i in log ==> i < |rs|
  {
    set i | i in log && from <= rs[i].now < from + window as real
  }

  /** Whatever lies in one window with a new admission was counted when it was admitted. */
  lemma {:induction false} OthersWereCounted(rs: seq<Request>, log: set<nat>, m: nat, window: int, from: real)
    requires m < |rs| && (forall i :: i in log ==> i < m) && from <= rs[m].now < from + window as real
    ensures Stamped(rs, log + {m}, window, from) - {m} <= InWindow(rs, log, rs[m].now, window)
    ensures |Stamped(rs, log + {m}, window, from)| <= |InWindow(rs, log, rs[m].now, window)| + 1
  {
    var all := Stamped(rs, log + {m}, window, from);
    SubsetSize(all - {m}, InWindow(rs, log, rs[m].now, window));
    assert m in all;
  }

  lemma {:induction false} NotStamped(rs: seq<Request>, log: set<nat>, m: nat, window: int, from: real)
    requires m < |rs| && (forall i :: i in log ==> i < m) && !(from <= rs[m].now < from + window as real)
    ensures Stamped(rs, log + {m}, window, from) == Stamped(rs, log, window, from)
  {
  }

  lemma {:induction false} LogHoldsLimit(rs: seq<Request>, n: nat, window: int, limit: int, from: real)
    requires n <= |rs|
    ensures |Stamped(rs, Admitted(rs, n, window, limit), window, from)| <= if limit > 0 then limit else 0
  {
    hide Stamped, InWindow;
    if n == 0 {
      assert Stamped(rs, {}, window, from) == {} by { NothingStamped(rs, window, from); }
    } else {
      var m := n - 1;
      var log := Admitted(rs, m, window, limit);
      LogHoldsLimit(rs, m, window, limit, from);
      if from <= rs[m].now < from + window as real {
        OthersWereCounted(rs, log, m, window, from);
      } else {
        NotStamped(rs, log, m, window, from);
      }
    }
  }

  lemma {:induction false} NothingStamped(rs: seq<Request>, window: int, from: real)
    ensures Stamped(rs, {}, window, from) == {}
  {
  }

  /** The window of the given length that begins at `from` holds at most `limit` admitted
      requests. */
  ghost predicate KeepsBound(rs: seq<Request>, window: int, limit: int, from: real) {
    |set i | 0 <= i < |rs| && Allowed(rs, i, window, limit) && from <= rs[i].now < from + window as real|
    <= if limit > 0 then limit else 0
  }

  lemma {:induction false} BoundOfStamped(rs: seq<Request>, window: int, limit: int, from: real)
    ensures KeepsBound(rs, window, limit, from) <==>
              |Stamped(rs, AllowedBefore(rs, |rs|, window, limit), window, from)| <= if limit > 0 then limit else 0
  {
    hide Allowed;
    assert (set i | 0 <= i < |rs| && Allowed(rs, i, window, limit) && from <= rs[i].now < from + window as real)
        == Stamped(rs, AllowedBefore(rs, |rs|, window, limit), window, from);
  }

  /** On steady clocks no window, wherever it begins, holds more than `limit` admitted
      requests. */
  lemma {:induction false} NeverOverLimit(rs: seq<Request>, window: int, limit: int, from: real)
    requires Stamps(rs) && Steady(rs, window)
    ensures KeepsBound(rs, window, limit, from)
  {
    hide Allowed, Steady, Stamps, Admitted, KeepsBound;
    SameDecisions(rs, |rs|, window, limit);
    LogHoldsLimit(rs, |rs|, window, limit, from);
    BoundOfStamped(rs, window, limit, from);
  }

  // ----- for which clocks the bound holds -----

  predicate Close(rs: seq<Request>, window: int, i: nat, j: nat)
    requires i < |rs| && j < |rs|
  {
    rs[i].now < rs[j].now + window as real && rs[j].now < rs[i].now + window as real
  }

  /** Less than a window apart by their stamps, a window or more on the server. */
  predicate Split(rs: seq<Request>, window: int, i: nat, j: nat)
    requires i < |rs| && j < |rs|
  {
    Close(rs, window, i, j) && rs[i].server + window as real <= rs[j].server
  }

  predicate Overtakes(rs: seq<Request>, window: int, k: nat, i: nat)
    requires i < |rs| && k < |rs|
  {
    rs[i].now + window as real <= rs[k].now
  }

  /** Three requests fit into one window, and before the last of them a stamp a window later
      than both others came in between. */
  predicate Overtaken(rs: seq<Request>, window: int, i: nat, j: nat, k: nat, n: nat)
    requires i < |rs| && j < |rs| && k < |rs| && n < |rs|
  {
    && Close(rs, window, i, j) && Close(rs, window, i, n) && Close(rs, window, j, n)
    && Overtakes(rs, window, k, i) && Overtakes(rs, window, k, j)
  }

  /** No pair is split and no two requests are overtaken together. */
  ghost predicate Orderly(rs: seq<Request>, window: int) {
    && (forall i, j :: 0 <= i < j < |rs| ==> !Split(rs, window, i, j))
    && (forall i, j, k, n :: 0 <= i < j < k < n < |rs| ==> !Overtaken(rs, window, i, j, k, n))
  }

  function Earlier(a: real, b: real): real {
    if a < b then a else b
  }

  lemma {:induction false} SplitBreaksBound(rs: seq<Request>, window: int, i: nat, j: nat)
      returns (ss: seq<Request>, from: real)
    requires i < j < |rs| && Split(rs, window, i, j)
    ensures SubRun(ss, rs) && !KeepsBound(ss, window, 1, from)
  {
    hide Allowed;
    ss, from := [rs[i], rs[j]], Earlier(rs[i].now, rs[j].now);
    assert Picks(ss, rs, [i, j]);
    assert Parted(ss, window, 0, 1);
    ExpiredTooEarly(ss, window);
    var all := set x | 0 <= x < |ss| && Allowed(ss, x, window, 1) && from <= ss[x].now < from + window as real;
    assert {0, 1} <= all;
    SubsetSize({0, 1}, all);
  }

  /** For stamps that never run backwards this is exact: the bound holds in every part of the
      run, under every limit and for every window, if and only if the clocks are steady. */
  lemma {:induction false} BoundForMonotoneStamps(rs: seq<Request>, window: int)
    requires Stamps(rs) && MonotoneStamps(rs)
    ensures Steady(rs, window) <==>
              forall ss: seq<Request>, limit: int, from: real :: SubRun(ss, rs) ==> KeepsBound(ss, window, limit, from)
  {
    hide KeepsBound, Stamps;
    if Steady(rs, window) {
      hide Steady, SubRun;
      forall ss: seq<Request>, limit: int, from: real | SubRun(ss, rs) ensures KeepsBound(ss, window, limit, from) {
        SubRunIsSteady(ss, rs, window);
        NeverOverLimit(ss, window, limit, from);
      }
    } else {
      SteadyForMonotoneStamps(rs, window);
      var i, j :| 0 <= i < j < |rs| && !Together(rs, window, i, j);
      hide Steady;
      assert Split(rs, window, i, j);
      var ss, from := SplitBreaksBound(rs, window, i, j);
    }
  }

  lemma {:induction false} OvertakenBreaksBound(rs: seq<Request>, window: int, i: nat, j: nat, k: nat, n: nat)
      returns (ss: seq<Request>, from: real)
    requires Stamps(rs) && i < j < k < n < |rs| && Overtaken(rs, window, i, j, k, n)
    ensures SubRun(ss, rs) && !KeepsBound(ss, window, 2, from)
  {
    hide Allowed;
    ss := [rs[i], rs[j], rs[k], rs[n]];
    from := Earlier(Earlier(rs[i].now, rs[j].now), rs[n].now);
    assert Picks(ss, rs, [i, j, k, n]);
    AllAdmitted(ss, window);
    var all := set x | 0 <= x < |ss| && Allowed(ss, x, window, 2) && from <= ss[x].now < from + window as real;
    assert {0, 1, 3} <= all;
    SubsetSize({0, 1, 3}, all);
  }

  /** The stamp in between removes the first two, so a limit of two admits all four. */
  lemma {:induction false} AllAdmitted(ss: seq<Request>, window: int)
    requires |ss| == 4 && Stamps(ss) && Overtaken(ss, window, 0, 1, 2, 3)
    ensures Allowed(ss, 0, window, 2) && Allowed(ss, 1, window, 2) && Allowed(ss, 3, window, 2)
  {
    hide Allowed, Counted;
    SmallCount(ss, 0, window, 2);
    SmallCount(ss, 1, window, 2);
    assert Removes(ss, 2, 0, window, 2) && Removes(ss, 2, 1, window, 2);
    CountedExactly(ss, 3, window, 2);
    SubsetSize(Counted(ss, 3, window, 2), {2});
  }

  /** While two requests stand less than a window apart, no expiry falls between them. */
  lemma {:induction false} NoLapse(rs: seq<Request>, window: int, limit: int, x: nat, j: nat, m: nat)
    requires MonotoneServer(rs) && x < j <= m < |rs| && Allowed(rs, x, window, limit)
    requires Close(rs, window, x, m) && !Split(rs, window, x, m)
    ensures !Lapses(rs, j, window, limit)
  {
    hide Allowed;
    var e := Latest(rs, j, window, limit);
    assert rs[x].server <= rs[e].server || x == e;
    assert rs[j].server <= rs[m].server || j == m;
  }

  /** The request with the latest stamp between `x` and `m` is admitted, and `m` counts it:
      otherwise the full set that turned it away would turn `m` away too. */
  lemma {:induction false} LatestIsCounted(rs: seq<Request>, window: int, limit: int, x: nat, k: nat, m: nat)
    requires Stamps(rs) && window > 0 && x < k < m < |rs| && Allowed(rs, m, window, limit)
    requires forall j :: x < j <= m ==> rs[j].now <= rs[k].now && !Lapses(rs, j, window, limit)
    ensures k in Counted(rs, m, window, limit)
  {
    hide Allowed, Counted, Lapses, Stamps;
    CountedExactly(rs, m, window, limit);
    if Allowed(rs, k, window, limit) {
      assert Outlives(rs, k, m + 1, window, limit);
    } else {
      CountedExactly(rs, k, window, limit);
      forall c | c in Counted(rs, k, window, limit) ensures c in Counted(rs, m, window, limit) {
        OutlivesOn(rs, window, limit, c, k, m);
      }
      SubsetSize(Counted(rs, k, window, limit), Counted(rs, m, window, limit));
    }
  }

  lemma {:induction false} OutlivesOn(rs: seq<Request>, window: int, limit: int, c: nat, k: nat, m: nat)
    requires Stamps(rs) && c < k < m < |rs| && Outlives(rs, c, k + 1, window, limit)
    requires forall j :: k < j <= m ==> rs[j].now <= rs[k].now && !Lapses(rs, j, window, limit)
    ensures Outlives(rs, c, m + 1, window, limit)
  {
    hide Lapses;
    assert !Removes(rs, k, c, window, limit);
    forall j | c < j < m + 1 ensures !Removes(rs, j, c, window, limit) {
    }
  }

  /** One with the latest stamp between two requests. */
  lemma {:induction false} LatestStamp(rs: seq<Request>, x: nat, m: nat) returns (k: nat)
    requires x + 1 < m < |rs|
    ensures x < k < m && forall j :: x < j < m ==> rs[j].now <= rs[k].now
    decreases m - x
  {
    if x + 2 == m {
      k := x + 1;
    } else {
      k := LatestStamp(rs, x + 1, m);
      if rs[k].now < rs[x + 1].now { k := x + 1; }
    }
  }

  ghost function From(s: set<nat>, t: nat): set<nat> {
    set i | i in s && i >= t
  }

  /** In every tail of the run, `m` counts at least as many as share its window: for each one
      that was removed it counts the latest stamp behind it, which is not in the window. */
  lemma {:induction false} CountsAsMany(rs: seq<Request>, window: int, limit: int, from: real, m: nat, t: nat)
    requires Stamps(rs) && MonotoneServer(rs) && Orderly(rs, window) && window > 0
    requires t <= m < |rs| && Allowed(rs, m, window, limit) && from <= rs[m].now < from + window as real
    ensures |From(Stamped(rs, AllowedBefore(rs, m, window, limit), window, from), t)|
            <= |From(Counted(rs, m, window, limit), t)|
    decreases m - t
  {
    hide Allowed, Counted, Stamps, Orderly, MonotoneServer, Outlives;
    var w, c := Stamped(rs, AllowedBefore(rs, m, window, limit), window, from), Counted(rs, m, window, limit);
    if From(w, t) <= c {
      SubsetSize(From(w, t), From(c, t));
    } else {
      var x := FirstMissing(w, c, t);
      var k := Replacement(rs, window, limit, from, m, w, x);
      CountsAsMany(rs, window, limit, from, m, k + 1);
      forall y | y in w && t <= y <= k && y != x ensures y in c {
        if y !in c { OnlyOneOvertaken(rs, window, limit, from, m, w, x, k, y); }
      }
      SwapOne(w, c, t, x, k);
    }
  }

  lemma {:induction false} FirstMissing(w: set<nat>, c: set<nat>, t: nat) returns (x: nat)
    requires !(From(w, t) <= c)
    ensures x in w && x >= t && x !in c && forall y :: y in w && t <= y < x ==> y in c
  {
    var z: nat :| z in From(w, t) && z !in c;
    x := t;
    while x !in w || x in c
      invariant t <= x <= z && forall y :: y in w && t <= y < x ==> y in c
      decreases z - x
    {
      x := x + 1;
    }
  }

  lemma {:induction false} SwapOne(w: set<nat>, c: set<nat>, t: nat, x: nat, k: nat)
    requires t <= x < k && x in w && x !in c && k in c && k !in w
    requires forall y :: y in w && t <= y <= k && y != x ==> y in c
    requires |From(w, k + 1)| <= |From(c, k + 1)|
    ensures |From(w, t)| <= |From(c, t)|
  {
    var wl, cl := From(w, t) - From(w, k + 1), From(c, t) - From(c, k + 1);
    assert wl - {x} <= cl - {k} && x in wl && k in cl;
    hide From;
    TailSize(w, t, k + 1);
    TailSize(c, t, k + 1);
    SwapSizes(wl, cl, x, k);
  }

  lemma {:induction false} SwapSizes(a: set<nat>, b: set<nat>, x: nat, y: nat)
    requires x in a && y in b && a - {x} <= b - {y}
    ensures |a| <= |b|
  {
    SubsetSize(a - {x}, b - {y});
  }

  lemma {:induction false} TailSize(s: set<nat>, t: nat, u: nat)
    requires t <= u
    ensures |From(s, t)| == |From(s, t) - From(s, u)| + |From(s, u)|
  {
    assert From(s, t) == (From(s, t) - From(s, u)) + From(s, u);
  }

  /** A removed member of the window was overtaken; the latest stamp behind it is counted. */
  lemma {:induction false} Replacement(rs: seq<Request>, window: int, limit: int, from: real, m: nat,
                                       w: set<nat>, x: nat) returns (k: nat)
    requires Stamps(rs) && MonotoneServer(rs) && Orderly(rs, window) && window > 0
    requires m < |rs| && Allowed(rs, m, window, limit) && from <= rs[m].now < from + window as real
    requires w == Stamped(rs, AllowedBefore(rs, m, window, limit), window, from)
    requires x in w && x !in Counted(rs, m, window, limit)
    ensures x < k < m && k in Counted(rs, m, window, limit) && k !in w && Overtakes(rs, window, k, x)
    ensures forall j :: x < j < m ==> rs[j].now <= rs[k].now
  {
    hide Allowed, Counted, Lapses;
    assert Close(rs, window, x, m) && !Split(rs, window, x, m);
    forall j | x < j <= m ensures !Lapses(rs, j, window, limit) {
      NoLapse(rs, window, limit, x, j, m);
    }
    CountedExactly(rs, m, window, limit);
    var r :| x < r < m + 1 && Removes(rs, r, x, window, limit);
    assert r != m;
    k := LatestStamp(rs, x, m);
    LatestIsCounted(rs, window, limit, x, k, m);
  }

  lemma {:induction false} OnlyOneOvertaken(rs: seq<Request>, window: int, limit: int, from: real, m: nat,
                                            w: set<nat>, x: nat, k: nat, y: nat)
    requires Stamps(rs) && MonotoneServer(rs) && Orderly(rs, window) && window > 0
    requires m < |rs| && Allowed(rs, m, window, limit) && from <= rs[m].now < from + window as real
    requires w == Stamped(rs, AllowedBefore(rs, m, window, limit), window, from)
    requires x in w && x < k < m && Overtakes(rs, window, k, x) && forall j :: x < j < m ==> rs[j].now <= rs[k].now
    requires y in w && y !in Counted(rs, m, window, limit) && y != x
    ensures y < x || y > k
  {
    hide Stamps, MonotoneServer, Counted, Allowed;
    if x < y <= k {
      var z := Replacement(rs, window, limit, from, m, w, y);
      BothOvertaken(rs, window, from, x, y, k, m, z);
    }
  }

  lemma {:induction false} BothOvertaken(rs: seq<Request>, window: int, from: real, x: nat, y: nat, k: nat, m: nat,
                                         z: nat)
    requires x < y <= k < m < |rs| && y < z < m && Overtakes(rs, window, k, x) && Overtakes(rs, window, z, y)
    requires from <= rs[x].now < from + window as real && from <= rs[y].now < from + window as real
    requires from <= rs[m].now < from + window as real && rs[z].now <= rs[k].now
    ensures y < k && Overtaken(rs, window, x, y, k, m)
  {
  }

  /** So as long as the clocks are orderly, the bound is kept, request by request. */
  lemma {:induction false} OrderlyKeepsBound(rs: seq<Request>, window: int, limit: int, from: real, n: nat)
    requires Stamps(rs) && MonotoneServer(rs) && Orderly(rs, window) && n <= |rs|
    ensures |Stamped(rs, AllowedBefore(rs, n, window, limit), window, from)| <= if limit > 0 then limit else 0
  {
    hide Allowed, Counted, Stamps, Orderly, MonotoneServer, AllowedBefore, Stamped;
    if n == 0 {
      NothingAllowed(rs, window, limit);
      NothingStamped(rs, window, from);
    } else {
      var m := n - 1;
      OrderlyKeepsBound(rs, window, limit, from, m);
      NextAllowed(rs, m, window, limit);
      BeforeIsBefore(rs, m, window, limit);
      var before := AllowedBefore(rs, m, window, limit);
      if !Allowed(rs, m, window, limit) {
        assert AllowedBefore(rs, n, window, limit) == before;
      } else if from <= rs[m].now < from + window as real {
        CountsAsMany(rs, window, limit, from, m, 0);
        assert From(Stamped(rs, before, window, from), 0) == Stamped(rs, before, window, from);
        assert From(Counted(rs, m, window, limit), 0) == Counted(rs, m, window, limit);
        AllowedByCount(rs, m, window, limit);
        OneMoreStamped(rs, before, m, window, from);
      } else {
        NotStamped(rs, before, m, window, from);
      }
    }
  }

  lemma {:induction false} BeforeIsBefore(rs: seq<Request>, n: nat, window: int, limit: int)
    requires n <= |rs|
    ensures forall i :: i in AllowedBefore(rs, n, window, limit) ==> i < n
  {
  }

  lemma {:induction false} OneMoreStamped(rs: seq<Request>, log: set<nat>, m: nat, window: int, from: real)
    requires m < |rs| && (forall i :: i in log ==> i < m) && from <= rs[m].now < from + window as real
    ensures |Stamped(rs, log + {m}, window, from)| == |Stamped(rs, log, window, from)| + 1
  {
    assert Stamped(rs, log + {m}, window, from) == Stamped(rs, log, window, from) + {m};
  }

  lemma {:induction false} SubRunIsOrderly(ss: seq<Request>, rs: seq<Request>, window: int)
    requires SubRun(ss, rs) && Stamps(rs) && MonotoneServer(rs) && Orderly(rs, window)
    ensures Stamps(ss) && MonotoneServer(ss) && Orderly(ss, window)
  {
    var at: seq<nat> :| Picks(ss, rs, at);
    forall i: nat, j: nat | i < j < |ss| ensures !Split(ss, window, i, j) && ss[i].server <= ss[j].server {
      assert at[i] < at[j] < |rs|;
      assert !Split(rs, window, at[i], at[j]);
    }
    forall i: nat, j: nat, k: nat, n: nat | i < j < k < n < |ss| ensures !Overtaken(ss, window, i, j, k, n) {
      assert at[i] < at[j] < at[k] < at[n] < |rs|;
      assert !Overtaken(rs, window, at[i], at[j], at[k], at[n]);
    }
  }

  /** The exact condition for the bound, whatever the stamps, if the server's clock never
      runs backwards: the bound holds in every part of the run, under every limit and for
      every window, if and only if no pair of requests is split and no two are overtaken
      together by a stamp before a third that shares their window. */
  lemma {:induction false} BoundExactly(rs: seq<Request>, window: int)
    requires Stamps(rs) && MonotoneServer(rs)
    ensures Orderly(rs, window) <==>
              forall ss: seq<Request>, limit: int, from: real :: SubRun(ss, rs) ==> KeepsBound(ss, window, limit, from)
  {
    hide KeepsBound, Stamps, MonotoneServer, Split, Overtaken;
    if Orderly(rs, window) {
      hide Orderly, SubRun;
      forall ss: seq<Request>, limit: int, from: real | SubRun(ss, rs) ensures KeepsBound(ss, window, limit, from) {
        SubRunIsOrderly(ss, rs, window);
        OrderlyKeepsBound(ss, window, limit, from, |ss|);
        BoundOfStamped(ss, window, limit, from);
      }
    } else if i, j :| 0 <= i < j < |rs| && Split(rs, window, i, j) {
      var ss, from := SplitBreaksBound(rs, window, i, j);
    } else {
      var i, j, k, n :| 0 <= i < j < k < n < |rs| && Overtaken(rs, window, i, j, k, n);
      var ss, from := OvertakenBreaksBound(rs, window, i, j, k, n);
    }
  }

  lemma {:induction false} SteadyIsOrderly(rs: seq<Request>, window: int)
    requires Steady(rs, window)
    ensures Orderly(rs, window)
  {
    forall i, j | 0 <= i < j < |rs| ensures !Split(rs, window, i, j) {
      assert Lasts(rs, window, i, i, j, j);
    }
    forall i, j, k, n | 0 <= i < j < k < n < |rs| ensures !Overtaken(rs, window, i, j, k, n) {
      assert Stays(rs, window, i, k, n);
    }
  }

  /** Steady clocks are orderly, but not the other way round: a stamp that runs ahead once,
      after a single request, makes a decision wrong and still breaks no bound. */
  lemma {:induction false} OrderlyNotSteady()
    ensures var rs := [Request(100.0, 100.0), Request(200.0, 101.0), Request(102.0, 102.0)];
            Orderly(rs, 10) && !Steady(rs, 10)
  {
    var rs := [Request(100.0, 100.0), Request(200.0, 101.0), Request(102.0, 102.0)];
    assert !Stays(rs, 10, 0, 1, 2);
  }

  lemma {:induction false} LastWindowHoldsLimit(rs: seq<Request>, n: nat, window: int, limit: int, now: real)
    requires n <= |rs| && (forall i :: 0 <= i < n ==> rs[i].now <= now)
    ensures |InWindow(rs, Admitted(rs, n, window, limit), now, window)| <= if limit > 0 then limit else 0
  {
    hide InWindow;
    if n == 0 {
      assert InWindow(rs, {}, now, window) == {} by { NothingInWindow(rs, now, window); }
    } else {
      var m := n - 1;
      var log := Admitted(rs, m, window, limit);
      LastWindowHoldsLimit(rs, m, window, limit, now);
      LaterWindow(rs, log, m, window, now);
    }
  }

  lemma {:induction false} NothingInWindow(rs: seq<Request>, now: real, window: int)
    ensures InWindow(rs, {}, now, window) == {}
  {
  }

  /** A later window reaches back no further. */
  lemma {:induction false} LaterWindow(rs: seq<Request>, log: set<nat>, m: nat, window: int, now: real)
    requires m < |rs| && (forall i :: i in log ==> i < m) && rs[m].now <= now
    ensures |InWindow(rs, log + {m}, now, window)| <= |InWindow(rs, log, rs[m].now, window)| + 1
  {
    var w, last := InWindow(rs, log + {m}, now, window), InWindow(rs, log, rs[m].now, window);
    SubsetSize(w - {m}, last);
    assert |w| <= |w - {m}| + 1 by { if m !in w { assert w - {m} == w; } }
  }

  /** If stamps do not run backwards either, a request is rejected exactly when the window
      ending at it is full. */
  lemma {:induction false} RejectedWhenFull(rs: seq<Request>, j: nat, window: int, limit: int)
    requires Stamps(rs) && Steady(rs, window) && j < |rs| && limit >= 0
    requires forall i :: 0 <= i < j ==> rs[i].now <= rs[j].now
    ensures !Allowed(rs, j, window, limit) <==>
              |set i | 0 <= i < j && Allowed(rs, i, window, limit)
                       && rs[j].now - window as real < rs[i].now <= rs[j].now| == limit
  {
    hide Allowed, Steady, Stamps, Admitted;
    SameDecisions(rs, j, window, limit);
    LastWindowHoldsLimit(rs, j, window, limit, rs[j].now);
    assert (set i | 0 <= i < j && Allowed(rs, i, window, limit)
                    && rs[j].now - window as real < rs[i].now <= rs[j].now)
        == InWindow(rs, AllowedBefore(rs, j, window, limit), rs[j].now, window);
  }

  // ----- clocks that are not steady -----

  /** With a clock that steps back it fails: once a late stamp has pruned the set, an
      earlier window can be filled beyond its limit. */
  lemma {:induction false} ClockStepsBack()
    ensures var rs := [Request(100.0, 100.0), Request(101.0, 101.0), Request(200.0, 102.0), Request(102.0, 103.0)];
            && Allowed(rs, 0, 10, 2) && Allowed(rs, 1, 10, 2) && Allowed(rs, 3, 10, 2)
            && !Steady(rs, 10) && !Orderly(rs, 10)
            && 100.0 <= rs[0].now < 110.0 && 100.0 <= rs[1].now < 110.0 && 100.0 <= rs[3].now < 110.0
  {
    var rs := [Request(100.0, 100.0), Request(101.0, 101.0), Request(200.0, 102.0), Request(102.0, 103.0)];
    assert !Stays(rs, 10, 0, 2, 3) && Overtaken(rs, 10, 0, 1, 2, 3);
    AllAdmitted(rs, 10);
  }

  /** And with two clocks that never run backwards it fails too, when a request reaches the
      server later after its stamp than the one before: both fall into `[100, 110)`. */
  lemma {:induction false} KeyExpiresTooEarly()
    ensures var rs := [Request(100.0, 100.0), Request(105.0, 111.0)];
            && rs[0].now <= rs[1].now && rs[0].server <= rs[1].server
            && Allowed(rs, 0, 10, 1) && Allowed(rs, 1, 10, 1) && !Steady(rs, 10)
  {
    var rs := [Request(100.0, 100.0), Request(105.0, 111.0)];
    assert Parted(rs, 10, 0, 1);
    ExpiredTooEarly(rs, 10);
    SteadyForMonotoneStamps(rs, 10);
    assert !Together(rs, 10, 0, 1);
  }
}
