/** The in-process task queue: workers, retries, delays and join
    (src/nova/tasks/backends/asyncio_backend.py:34-176).  Between two awaits a worker
    runs undisturbed, so each such stretch is one step. */
module TaskQueue {

  type TaskId = nat

  datatype Status = Pending | Running | Retrying | Success | Failed

  type Value = int

  type Fault = int

  /** How an attempt ended. */
  datatype Outcome = Returned(value: Value) | Raised(fault: Fault)

  datatype Option<T> = None | Some(value: T)

  /** The error text: of a failed attempt with its number, or of the permanent failure. */
  datatype Trouble = NoTrouble | AttemptFailed(number: nat, fault: Fault) | GaveUp(fault: Fault)

  datatype Result = Result(
    status: Status, attempts: nat, started: bool, finished: bool, value: Option<Value>, trouble: Trouble)

  const NEW := Result(Pending, 0, false, false, None, NoTrouble)

  /** `delayed` says that the delay before the first attempt is positive. */
  datatype Payload = Payload(task: TaskId, delayed: bool, maxRetries: int, attempts: nat)

  datatype Worker =
    | Idle
    | Delaying(payload: Payload)
    | Executing(payload: Payload)
    | Backoff(payload: Payload)

  /** `unfinished` is the counter inside the queue that `join` waits for.  `runs` and
      `limits` are history: how often a task function was started, and the retries asked
      for at submission. */
  datatype State = State(
    queue: seq<Payload>, results: map<TaskId, Result>, unfinished: int, workers: seq<Worker>,
    runs: map<TaskId, nat>, limits: map<TaskId, int>)

  datatype Event =
    | Submit(task: TaskId, delayed: bool, maxRetries: int)
    | Take(w: nat)
    | Wake(w: nat)
    | Finish(w: nat, outcome: Outcome)
    | Requeue(w: nat)

  function Start(workers: nat): State {
    State([], map[], 0, seq(workers, _ => Idle), map[], map[])
  }

  predicate Terminal(r: Result) {
    r.status.Success? || r.status.Failed?
  }

  function Retries(limit: int): nat {
    if limit > 0 then limit else 0
  }

  function SetWorker(s: State, w: nat, worker: Worker): State
    requires w < |s.workers|
  {
    s.(workers := s.workers[w := worker])
  }

  // ----- the steps -----

  /** Ids are drawn fresh, so a submission never meets an old result. */
  function DoSubmit(s: State, t: TaskId, delayed: bool, maxRetries: int): State {
    if t in s.results then s
    else
      s.(queue := s.queue + [Payload(t, delayed, maxRetries, 0)],
         results := s.results[t := NEW],
         unfinished := s.unfinished + 1,
         runs := s.runs[t := 0], limits := s.limits[t := maxRetries])
  }

  /** From the end of any delay until the submitted function is awaited. */
  function Begin(s: State, w: nat, p: Payload): State
    requires w < |s.workers|
  {
    if p.task in s.results && p.task in s.runs then
      SetWorker(s, w, Executing(p)).(
        results := s.results[p.task := s.results[p.task].(status := Running, started := true)],
        runs := s.runs[p.task := s.runs[p.task] + 1])
    else s
  }

  function DoTake(s: State, w: nat): State {
    if w < |s.workers| && s.workers[w].Idle? && s.queue != [] then
      var p, t := s.queue[0], s.(queue := s.queue[1..]);
      if p.attempts == 0 && p.delayed then SetWorker(t, w, Delaying(p)) else Begin(t, w, p)
    else s
  }

  function DoWake(s: State, w: nat): State {
    if w < |s.workers| && s.workers[w].Delaying? then Begin(s, w, s.workers[w].payload) else s
  }

  /** The submitted function returned or raised. */
  function DoFinish(s: State, w: nat, outcome: Outcome): State {
    if w < |s.workers| && s.workers[w].Executing? && s.workers[w].payload.task in s.results then
      var p := s.workers[w].payload;
      var r := s.results[p.task];
      if outcome.Raised? && p.attempts < p.maxRetries then
        SetWorker(s, w, Backoff(p.(attempts := p.attempts + 1))).(
          results := s.results[p.task := r.(
            status := Retrying, attempts := p.attempts + 1,
            trouble := AttemptFailed(p.attempts + 1, outcome.fault))])
      else
        SetWorker(s, w, Idle).(
          results := s.results[p.task := Ended(r, p.attempts + 1, outcome)],
          unfinished := s.unfinished - 1)
    else s
  }

  function Ended(r: Result, attempts: nat, outcome: Outcome): Result {
    match outcome
    case Returned(value) => r.(status := Success, attempts := attempts, finished := true, value := Some(value))
    case Raised(fault) => r.(status := Failed, attempts := attempts, finished := true, trouble := GaveUp(fault))
  }

  /** After the retry delay: put back first, then report the old item done. */
  function DoRequeue(s: State, w: nat): State {
    if w < |s.workers| && s.workers[w].Backoff? then
      SetWorker(s, w, Idle).(queue := s.queue + [s.workers[w].payload], unfinished := s.unfinished + 1 - 1)
    else s
  }

  function Step(s: State, e: Event): State {
    match e
    case Submit(t, delayed, maxRetries) => DoSubmit(s, t, delayed, maxRetries)
    case Take(w) => DoTake(s, w)
    case Wake(w) => DoWake(s, w)
    case Finish(w, outcome) => DoFinish(s, w, outcome)
    case Requeue(w) => DoRequeue(s, w)
  }

  function At(es: seq<Event>, n: nat, workers: nat): State
    requires n <= |es|
  {
    if n == 0 then Start(workers) else Step(At(es, n - 1, workers), es[n - 1])
  }

  // ----- the invariant -----

  function Busy(workers: seq<Worker>): nat {
    if workers == [] then 0 else Busy(workers[..|workers| - 1]) + (if workers[|workers| - 1].Idle? then 0 else 1)
  }

  /** Every payload is in exactly one place. */
  ghost predicate OnePlace(queue: seq<Payload>, workers: seq<Worker>) {
    && (forall i, j :: 0 <= i < j < |queue| ==> queue[i].task != queue[j].task)
    && (forall i, w :: 0 <= i < |queue| && 0 <= w < |workers| && !workers[w].Idle? ==>
          queue[i].task != workers[w].payload.task)
    && (forall v, w :: 0 <= v < w < |workers| && !workers[v].Idle? && !workers[w].Idle? ==>
          workers[v].payload.task != workers[w].payload.task)
  }

  ghost predicate InFlight(queue: seq<Payload>, workers: seq<Worker>, t: TaskId) {
    || (exists i :: 0 <= i < |queue| && queue[i].task == t)
    || (exists w :: 0 <= w < |workers| && !workers[w].Idle? && workers[w].payload.task == t)
  }

  /** What a payload in flight and its result say about each other. */
  ghost predicate Agrees(p: Payload, status: Status, running: nat,
                         results: map<TaskId, Result>, runs: map<TaskId, nat>, limits: map<TaskId, int>) {
    && p.task in results && p.task in runs && p.task in limits
    && results[p.task].status == status && limits[p.task] == p.maxRetries
    && results[p.task].attempts == p.attempts && !results[p.task].finished && results[p.task].value == None
    && (results[p.task].started <==> runs[p.task] > 0)
    && runs[p.task] == p.attempts + running && p.attempts <= Retries(p.maxRetries)
  }

  ghost predicate WorkerAgrees(worker: Worker, results: map<TaskId, Result>, runs: map<TaskId, nat>,
                               limits: map<TaskId, int>) {
    match worker
    case Idle => true
    case Delaying(p) => p.delayed && p.attempts == 0 && Agrees(p, Pending, 0, results, runs, limits)
    case Executing(p) => Agrees(p, Running, 1, results, runs, limits)
    case Backoff(p) => p.attempts > 0 && Agrees(p, Retrying, 0, results, runs, limits)
  }

  ghost predicate QueuedAgrees(p: Payload, results: map<TaskId, Result>, runs: map<TaskId, nat>, limits: map<TaskId,
                               int>) {
    Agrees(p, if p.attempts == 0 then Pending else Retrying, 0, results, runs, limits)
  }

  ghost predicate AllAgree(s: State) {
    && (forall i :: 0 <= i < |s.queue| ==> QueuedAgrees(s.queue[i], s.results, s.runs, s.limits))
    && (forall w :: 0 <= w < |s.workers| ==> WorkerAgrees(s.workers[w], s.results, s.runs, s.limits))
  }

  /** A finished task: it ran as often as its result says, within its limit, and a
      failure has used up every retry. */
  ghost predicate Settled(t: TaskId, results: map<TaskId, Result>, runs: map<TaskId, nat>, limits: map<TaskId, int>)
    requires t in results
  {
    Terminal(results[t]) && t in runs && t in limits && results[t].finished
    && results[t].started && results[t].attempts == runs[t] && 1 <= runs[t] <= Retries(limits[t]) + 1
    && (results[t].status.Failed? ==> runs[t] == Retries(limits[t]) + 1)
  }

  ghost predicate EachSettledOrInFlight(s: State) {
    forall t :: t in s.results ==> Settled(t, s.results, s.runs, s.limits) || InFlight(s.queue, s.workers, t)
  }

  ghost predicate Inv(s: State) {
    && s.unfinished == |s.queue| + Busy(s.workers)
    && OnePlace(s.queue, s.workers) && AllAgree(s) && EachSettledOrInFlight(s)
  }

  lemma {:induction false} BusyUpdate(workers: seq<Worker>, w: nat, x: Worker)
    requires w < |workers|
    ensures Busy(workers[w := x]) == Busy(workers) - (if workers[w].Idle? then 0 else 1) + (if x.Idle? then 0 else 1)
  {
    var n := |workers| - 1;
    var after := workers[w := x];
    if w < n {
      BusyUpdate(workers[..n], w, x);
      assert after[..n] == workers[..n][w := x];
    } else {
      assert after[..n] == workers[..n];
    }
  }

  lemma {:induction false} BusyPositive(workers: seq<Worker>, w: nat)
    requires w < |workers| && !workers[w].Idle?
    ensures Busy(workers) > 0
  {
    var n := |workers| - 1;
    if w < n { BusyPositive(workers[..n], w); }
  }

  lemma {:induction false} NobodyBusy(workers: seq<Worker>)
    ensures Busy(workers) == 0 <==> forall w :: 0 <= w < |workers| ==> workers[w].Idle?
  {
    if workers != [] {
      var n := |workers| - 1;
      NobodyBusy(workers[..n]);
      assert forall w :: 0 <= w < n ==> workers[w] == workers[..n][w];
    }
  }

  /** A new item goes to the end of the queue. */
  lemma {:induction false} Enqueued(queue: seq<Payload>, workers: seq<Worker>, p: Payload)
    requires OnePlace(queue, workers) && !InFlight(queue, workers, p.task)
    ensures OnePlace(queue + [p], workers)
    ensures forall t :: t == p.task || InFlight(queue, workers, t) ==> InFlight(queue + [p], workers, t)
  {
    var q := queue + [p];
    forall t | t == p.task || InFlight(queue, workers, t) ensures InFlight(q, workers, t) {
      if t == p.task {
        assert q[|queue|].task == t;
      } else if i :| 0 <= i < |queue| && queue[i].task == t {
        assert q[i].task == t;
      }
    }
  }

  lemma {:induction false} FreshTask(s: State, t: TaskId)
    requires AllAgree(s) && t !in s.results
    ensures !InFlight(s.queue, s.workers, t)
    ensures forall i :: 0 <= i < |s.queue| ==> Kept(s.queue[i], t, s.queue)
    ensures forall v :: 0 <= v < |s.workers| ==> KeptBy(s.workers[v], t, s.workers)
  {
    assert forall i :: 0 <= i < |s.queue| ==> QueuedAgrees(s.queue[i], s.results, s.runs, s.limits);
    assert forall v :: 0 <= v < |s.workers| ==> WorkerAgrees(s.workers[v], s.results, s.runs, s.limits);
  }

  lemma {:induction false} SubmitInv(s: State, t: TaskId, delayed: bool, maxRetries: int)
    requires Inv(s)
    ensures Inv(DoSubmit(s, t, delayed, maxRetries))
  {
    var u := DoSubmit(s, t, delayed, maxRetries);
    if t !in s.results {
      var p := Payload(t, delayed, maxRetries, 0);
      FreshTask(s, t);
      Enqueued(s.queue, s.workers, p);
      assert QueuedAgrees(p, u.results, u.runs, u.limits);
      hide QueuedAgrees;
      hide OnePlace, Kept, KeptBy, Inv, InFlight, AllAgree, EachSettledOrInFlight, WorkerAgrees, Settled;
      OnlyOneTask(s, u, t);
      Conclude(u);
    }
  }

  /** A worker takes the first item off the queue into a place of its own. */
  lemma {:induction false} MoveToWorker(queue: seq<Payload>, workers: seq<Worker>, w: nat, x: Worker)
    requires OnePlace(queue, workers) && queue != [] && w < |workers| && workers[w].Idle?
    requires !x.Idle? && x.payload == queue[0]
    ensures OnePlace(queue[1..], workers[w := x])
    ensures forall t :: InFlight(queue, workers, t) ==> InFlight(queue[1..], workers[w := x], t)
  {
    var q, v := queue[1..], workers[w := x];
    forall t | InFlight(queue, workers, t) ensures InFlight(q, v, t) {
      if i :| 0 <= i < |queue| && queue[i].task == t {
        if i == 0 { assert v[w].payload.task == t; } else { assert q[i - 1].task == t; }
      } else {
        var k :| 0 <= k < |workers| && !workers[k].Idle? && workers[k].payload.task == t;
        assert v[k] == workers[k];
      }
    }
  }

  /** A worker keeps its item while its phase or the attempt count changes. */
  lemma {:induction false} SameItem(queue: seq<Payload>, workers: seq<Worker>, w: nat, x: Worker)
    requires OnePlace(queue, workers) && w < |workers| && !workers[w].Idle?
    requires !x.Idle? && x.payload.task == workers[w].payload.task
    ensures OnePlace(queue, workers[w := x])
    ensures forall t :: InFlight(queue, workers, t) <==> InFlight(queue, workers[w := x], t)
  {
    var v := workers[w := x];
    forall t ensures InFlight(queue, workers, t) <==> InFlight(queue, v, t) {
      assert forall k :: 0 <= k < |v| ==>
        (v[k].Idle? <==> workers[k].Idle?) && (!v[k].Idle? ==> v[k].payload.task == workers[k].payload.task);
      if k :| 0 <= k < |workers| && !workers[k].Idle? && workers[k].payload.task == t { assert v[k].payload.task == t; }
    }
  }

  lemma {:induction false} Released(queue: seq<Payload>, workers: seq<Worker>, w: nat)
    requires OnePlace(queue, workers) && w < |workers| && !workers[w].Idle?
    ensures OnePlace(queue, workers[w := Idle])
    ensures forall t :: t != workers[w].payload.task && InFlight(queue, workers, t) ==> InFlight(queue, workers[w := Idle], t)
  {
    var v := workers[w := Idle];
    forall t | t != workers[w].payload.task && InFlight(queue, workers, t) ensures InFlight(queue, v, t) {
      if k :| 0 <= k < |workers| && !workers[k].Idle? && workers[k].payload.task == t { assert v[k] == workers[k]; }
    }
  }

  lemma {:induction false} PutBack(queue: seq<Payload>, workers: seq<Worker>, w: nat)
    requires OnePlace(queue, workers) && w < |workers| && !workers[w].Idle?
    ensures OnePlace(queue + [workers[w].payload], workers[w := Idle])
    ensures forall t :: InFlight(queue, workers, t) ==> InFlight(queue + [workers[w].payload], workers[w := Idle], t)
  {
    var q, v := queue + [workers[w].payload], workers[w := Idle];
    forall t | InFlight(queue, workers, t) ensures InFlight(q, v, t) {
      if i :| 0 <= i < |queue| && queue[i].task == t {
        assert q[i] == queue[i];
      } else {
        var k :| 0 <= k < |workers| && !workers[k].Idle? && workers[k].payload.task == t;
        if k == w { assert q[|queue|].task == t; } else { assert v[k] == workers[k]; }
      }
    }
  }

  /** Only the records of task `t` changed. */
  ghost predicate OnlyRecordsOf(t: TaskId, s: State, u: State) {
    && (forall x :: x != t ==> (x in s.results <==> x in u.results))
    && (forall x :: x in s.results && x != t ==> u.results[x] == s.results[x])
    && (forall x :: x in s.runs && x != t ==> x in u.runs && u.runs[x] == s.runs[x])
    && (forall x :: x in s.limits && x != t ==> x in u.limits && u.limits[x] == s.limits[x])
  }

  /** `x` is an item that was there before, of another task. */
  ghost predicate Kept(x: Payload, t: TaskId, queue: seq<Payload>) {
    x.task != t && x in queue
  }

  ghost predicate KeptBy(x: Worker, t: TaskId, workers: seq<Worker>) {
    x.Idle? || (x.payload.task != t && x in workers)
  }

  /** After a step that concerns only task `t`, it is enough to look at `t`. */
  lemma {:induction false} OnlyOneTask(s: State, u: State, t: TaskId)
    requires AllAgree(s) && EachSettledOrInFlight(s) && OnlyRecordsOf(t, s, u)
    requires forall i :: 0 <= i < |u.queue| ==>
               Kept(u.queue[i], t, s.queue) || QueuedAgrees(u.queue[i], u.results, u.runs, u.limits)
    requires forall w :: 0 <= w < |u.workers| ==>
               KeptBy(u.workers[w], t, s.workers) || WorkerAgrees(u.workers[w], u.results, u.runs, u.limits)
    requires forall x :: x != t && InFlight(s.queue, s.workers, x) ==> InFlight(u.queue, u.workers, x)
    requires t in u.results ==> Settled(t, u.results, u.runs, u.limits) || InFlight(u.queue, u.workers, t)
    ensures AllAgree(u) && EachSettledOrInFlight(u)
  {
    hide InFlight;
    forall i | 0 <= i < |u.queue| ensures QueuedAgrees(u.queue[i], u.results, u.runs, u.limits) {
      if Kept(u.queue[i], t, s.queue) {
        var j :| 0 <= j < |s.queue| && s.queue[j] == u.queue[i];
        assert QueuedAgrees(s.queue[j], s.results, s.runs, s.limits);
      }
    }
    forall w | 0 <= w < |u.workers| ensures WorkerAgrees(u.workers[w], u.results, u.runs, u.limits) {
      if KeptBy(u.workers[w], t, s.workers) && !u.workers[w].Idle? {
        var j :| 0 <= j < |s.workers| && s.workers[j] == u.workers[w];
        assert WorkerAgrees(s.workers[j], s.results, s.runs, s.limits);
      }
    }
    forall x | x in u.results ensures Settled(x, u.results, u.runs, u.limits) || InFlight(u.queue, u.workers, x) {
      if x != t { assert Settled(x, s.results, s.runs, s.limits) || InFlight(s.queue, s.workers, x); }
    }
  }

  /** All other items belong to other tasks. */
  lemma {:induction false} OthersKept(s: State, w: nat)
    requires OnePlace(s.queue, s.workers) && w < |s.workers|
    ensures !s.workers[w].Idle? ==>
              && (forall i :: 0 <= i < |s.queue| ==> Kept(s.queue[i], s.workers[w].payload.task, s.queue))
              && (forall v :: 0 <= v < |s.workers| && v != w ==> KeptBy(s.workers[v], s.workers[w].payload.task, s.workers))
    ensures s.queue != [] ==>
              && (forall i :: 0 < i < |s.queue| ==> Kept(s.queue[i], s.queue[0].task, s.queue))
              && (forall v :: 0 <= v < |s.workers| ==> KeptBy(s.workers[v], s.queue[0].task, s.workers))
  {
  }

  lemma {:induction false} Conclude(u: State)
    requires u.unfinished == |u.queue| + Busy(u.workers) && OnePlace(u.queue, u.workers)
    requires AllAgree(u) && EachSettledOrInFlight(u)
    ensures Inv(u)
  {
  }

  lemma {:induction false} TakeInv(s: State, w: nat)
    requires Inv(s)
    ensures Inv(DoTake(s, w))
  {
    hide OnePlace, Kept, KeptBy, Settled, Agrees, AllAgree, EachSettledOrInFlight, InFlight, WorkerAgrees, DoTake;
    TakeMeans(s, w);
    if w < |s.workers| && s.workers[w].Idle? && s.queue != [] {
      var u := DoTake(s, w);
      OthersKept(s, w);
      MoveToWorker(s.queue, s.workers, w, u.workers[w]);
      BusyUpdate(s.workers, w, u.workers[w]);
      HolderInFlight(u.queue, u.workers, w);
      OnlyOneTask(s, u, s.queue[0].task);
    }
  }

  lemma {:induction false} TakeMeans(s: State, w: nat)
    requires AllAgree(s)
    ensures var u := DoTake(s, w);
            if w < |s.workers| && s.workers[w].Idle? && s.queue != [] then
              && u.queue == s.queue[1..] && w < |u.workers| && u.workers == s.workers[w := u.workers[w]]
              && OnlyRecordsOf(s.queue[0].task, s, u) && u.unfinished == s.unfinished
              && !u.workers[w].Idle? && u.workers[w].payload == s.queue[0]
              && WorkerAgrees(u.workers[w], u.results, u.runs, u.limits)
            else u == s
  {
    if s.queue != [] { assert QueuedAgrees(s.queue[0], s.results, s.runs, s.limits); }
  }

  lemma {:induction false} WakeInv(s: State, w: nat)
    requires Inv(s)
    ensures Inv(DoWake(s, w))
  {
    var u := DoWake(s, w);
    if w < |s.workers| && s.workers[w].Delaying? {
      var p := s.workers[w].payload;
      assert WorkerAgrees(s.workers[w], s.results, s.runs, s.limits);
      OthersKept(s, w);
      SameItem(s.queue, s.workers, w, u.workers[w]);
      BusyUpdate(s.workers, w, u.workers[w]);
      hide OnePlace, Kept, KeptBy, Inv;
      assert InFlight(u.queue, u.workers, p.task);
      assert u.workers == s.workers[w := u.workers[w]];
      OnlyOneTask(s, u, p.task);
      Conclude(u);
    }
  }

  lemma {:induction false} FinishInv(s: State, w: nat, outcome: Outcome)
    requires Inv(s)
    ensures Inv(DoFinish(s, w, outcome))
  {
    hide OnePlace, Kept, KeptBy, Settled, Agrees, AllAgree, EachSettledOrInFlight, InFlight, WorkerAgrees, DoFinish;
    FinishMeans(s, w, outcome);
    if w < |s.workers| && s.workers[w].Executing? {
      var u, p := DoFinish(s, w, outcome), s.workers[w].payload;
      OthersKept(s, w);
      BusyUpdate(s.workers, w, u.workers[w]);
      if outcome.Raised? && p.attempts < p.maxRetries {
        SameItem(s.queue, s.workers, w, u.workers[w]);
        HolderInFlight(u.queue, u.workers, w);
        RetryAgrees(s, w, outcome.fault);
      } else {
        Released(s.queue, s.workers, w);
        FinalSettles(s, w, outcome);
      }
      OnlyOneTask(s, u, p.task);
    }
  }

  /** What the proof of the invariant needs to know of the step. */
  lemma {:induction false} FinishMeans(s: State, w: nat, outcome: Outcome)
    requires AllAgree(s)
    ensures var u := DoFinish(s, w, outcome);
            if w < |s.workers| && s.workers[w].Executing? then
              var p := s.workers[w].payload;
              && p.task in s.results && WorkerAgrees(s.workers[w], s.results, s.runs, s.limits)
              && u.queue == s.queue && w < |u.workers| && u.workers == s.workers[w := u.workers[w]]
              && OnlyRecordsOf(p.task, s, u)
              && (if outcome.Raised? && p.attempts < p.maxRetries then
                    u.workers[w].Backoff? && u.workers[w].payload.task == p.task && u.unfinished == s.unfinished
                  else u.workers[w] == Idle && u.unfinished == s.unfinished - 1)
            else u == s
  {
    if w < |s.workers| { assert WorkerAgrees(s.workers[w], s.results, s.runs, s.limits); }
  }

  lemma {:induction false} HolderInFlight(queue: seq<Payload>, workers: seq<Worker>, w: nat)
    requires w < |workers| && !workers[w].Idle?
    ensures InFlight(queue, workers, workers[w].payload.task)
  {
  }

  lemma {:induction false} RetryAgrees(s: State, w: nat, fault: Fault)
    requires w < |s.workers| && s.workers[w].Executing? && WorkerAgrees(s.workers[w], s.results, s.runs, s.limits)
    requires s.workers[w].payload.attempts < s.workers[w].payload.maxRetries
    ensures var u := DoFinish(s, w, Raised(fault)); WorkerAgrees(u.workers[w], u.results, u.runs, u.limits)
  {
  }

  lemma {:induction false} FinalSettles(s: State, w: nat, outcome: Outcome)
    requires w < |s.workers| && s.workers[w].Executing? && WorkerAgrees(s.workers[w], s.results, s.runs, s.limits)
    requires outcome.Returned? || s.workers[w].payload.attempts >= s.workers[w].payload.maxRetries
    ensures var u := DoFinish(s, w, outcome); Settled(s.workers[w].payload.task, u.results, u.runs, u.limits)
    ensures var u := DoFinish(s, w, outcome); WorkerAgrees(u.workers[w], u.results, u.runs, u.limits)
  {
  }

  lemma {:induction false} RequeueInv(s: State, w: nat)
    requires Inv(s)
    ensures Inv(DoRequeue(s, w))
  {
    var u := DoRequeue(s, w);
    if w < |s.workers| && s.workers[w].Backoff? {
      var p := s.workers[w].payload;
      assert WorkerAgrees(s.workers[w], s.results, s.runs, s.limits);
      OthersKept(s, w);
      PutBack(s.queue, s.workers, w);
      BusyUpdate(s.workers, w, Idle);
      hide OnePlace, Kept, KeptBy, Inv;
      assert u.queue[|s.queue|] == p && InFlight(u.queue, u.workers, p.task);
      OnlyOneTask(s, u, p.task);
      Conclude(u);
    }
  }

  /** Over every run: the counter is the number of items queued or held by a worker, every
      item is in one place, and every task is finished or has exactly one item. */
  lemma {:induction false} RunInv(es: seq<Event>, n: nat, workers: nat)
    requires n <= |es|
    ensures Inv(At(es, n, workers)) && |At(es, n, workers).workers| == workers
  {
    hide Inv;
    if n == 0 {
      StartInv(workers);
    } else {
      RunInv(es, n - 1, workers);
      StepInv(At(es, n - 1, workers), es[n - 1]);
    }
  }

  lemma {:induction false} StartInv(workers: nat)
    ensures Inv(Start(workers))
  {
    NobodyBusy(Start(workers).workers);
  }

  lemma {:induction false} StepInv(s: State, e: Event)
    requires Inv(s)
    ensures Inv(Step(s, e)) && |Step(s, e).workers| == |s.workers|
  {
    hide Inv;
    match e
    case Submit(t, delayed, maxRetries) => SubmitInv(s, t, delayed, maxRetries);
    case Take(w) => TakeInv(s, w);
    case Wake(w) => WakeInv(s, w);
    case Finish(w, outcome) => FinishInv(s, w, outcome);
    case Requeue(w) => RequeueInv(s, w);
  }

  /** A worker that executes an item can look up its result and report it done. */
  lemma {:induction false} FinishIsSafe(s: State, w: nat)
    requires Inv(s) && w < |s.workers| && s.workers[w].Executing?
    ensures s.workers[w].payload.task in s.results && s.unfinished > 0
  {
    assert WorkerAgrees(s.workers[w], s.results, s.runs, s.limits);
    BusyPositive(s.workers, w);
  }

  /** Without exception: a task has run at most once more than it has retries, and when it
      is finished it has run as often as its result says. */
  lemma {:induction false} RunsAreBounded(es: seq<Event>, n: nat, workers: nat, t: TaskId)
    requires n <= |es| && t in At(es, n, workers).results
    ensures var s := At(es, n, workers);
            && t in s.runs && t in s.limits && s.runs[t] <= Retries(s.limits[t]) + 1
            && (Terminal(s.results[t]) ==> Settled(t, s.results, s.runs, s.limits))
  {
    RunInv(es, n, workers);
    var s := At(es, n, workers);
    hide OnePlace;
    if !Settled(t, s.results, s.runs, s.limits) {
      assert InFlight(s.queue, s.workers, t);
      if i :| 0 <= i < |s.queue| && s.queue[i].task == t {
        assert QueuedAgrees(s.queue[i], s.results, s.runs, s.limits);
      } else {
        var w :| 0 <= w < |s.workers| && !s.workers[w].Idle? && s.workers[w].payload.task == t;
        assert WorkerAgrees(s.workers[w], s.results, s.runs, s.limits);
      }
    }
  }

  /** A finished task's result never changes, and it never runs again. */
  lemma {:induction false} TerminalIsFinal(es: seq<Event>, i: nat, n: nat, workers: nat, t: TaskId)
    requires i <= n <= |es| && t in At(es, i, workers).results && Terminal(At(es, i, workers).results[t])
    ensures var s, u := At(es, i, workers), At(es, n, workers);
            t in u.results && u.results[t] == s.results[t] && t in s.runs && t in u.runs && u.runs[t] == s.runs[t]
    decreases n
  {
    hide Inv, Step;
    if i == n {
      RunsAreBounded(es, n, workers, t);
      hide Settled;
    } else {
      TerminalIsFinal(es, i, n - 1, workers, t);
      RunInv(es, n - 1, workers);
      StepKeepsTerminal(At(es, n - 1, workers), es[n - 1], t);
    }
  }

  lemma {:induction false} StepKeepsTerminal(s: State, e: Event, t: TaskId)
    requires Inv(s) && t in s.results && Terminal(s.results[t]) && t in s.runs
    ensures var u := Step(s, e); t in u.results && u.results[t] == s.results[t] && t in u.runs && u.runs[t] == s.runs[t]
  {
    hide OnePlace, Settled, InFlight;
    match e
    case Submit(_, _, _) =>
    case Take(w) =>
      if s.queue != [] { assert QueuedAgrees(s.queue[0], s.results, s.runs, s.limits); }
    case Wake(w) =>
      if w < |s.workers| { assert WorkerAgrees(s.workers[w], s.results, s.runs, s.limits); }
    case Finish(w, _) =>
      if w < |s.workers| { assert WorkerAgrees(s.workers[w], s.results, s.runs, s.limits); }
    case Requeue(_) =>
  }

  // ----- results and the outcomes of attempts -----

  /** What a step adds to the outcomes of task `t`'s attempts. */
  ghost function EndedBy(s: State, e: Event, t: TaskId): seq<Outcome> {
    if e.Finish? && e.w < |s.workers| && s.workers[e.w].Executing? && s.workers[e.w].payload.task == t then [e.outcome]
    else []
  }

  /** How the attempts of task `t` ended in the first `n` events, in order. */
  ghost function Outcomes(es: seq<Event>, n: nat, workers: nat, t: TaskId): seq<Outcome>
    requires n <= |es|
  {
    if n == 0 then [] else Outcomes(es, n - 1, workers, t) + EndedBy(At(es, n - 1, workers), es[n - 1], t)
  }

  ghost predicate EndsWith(outs: seq<Outcome>, o: Outcome) {
    outs != [] && outs[|outs| - 1] == o
  }

  /** A result says how the attempts ended: at most the last returned; it is a success if
      that one did, with its value, and failed if as many raised as it may have attempts;
      the error is that of the last attempt that raised. */
  ghost predicate Reports(r: Result, limit: int, outs: seq<Outcome>) {
    && r.attempts == |outs| <= Retries(limit) + 1
    && (forall i :: 0 <= i < |outs| - 1 ==> outs[i].Raised?)
    && (r.status.Success? <==> exists v :: EndsWith(outs, Returned(v)))
    && (r.status.Failed? <==> |outs| == Retries(limit) + 1 && exists f :: EndsWith(outs, Raised(f)))
    && (r.finished <==> r.status.Success? || r.status.Failed?)
    && (forall v :: r.value == Some(v) <==> EndsWith(outs, Returned(v)))
    && Blames(r.trouble, limit, outs)
  }

  ghost predicate Blames(trouble: Trouble, limit: int, outs: seq<Outcome>) {
    match trouble
    case NoTrouble => forall i :: 0 <= i < |outs| ==> outs[i].Returned?
    case AttemptFailed(k, f) =>
      0 < k <= |outs| && k <= Retries(limit) && outs[k - 1] == Raised(f)
      && forall i :: k <= i < |outs| ==> outs[i].Returned?
    case GaveUp(f) => |outs| == Retries(limit) + 1 && EndsWith(outs, Raised(f))
  }

  /** In every reachable state, every result reports exactly how the attempts of its task
      ended. */
  lemma {:induction false} ResultsReport(es: seq<Event>, n: nat, workers: nat, t: TaskId)
    requires n <= |es|
    ensures var s := At(es, n, workers);
            && (t !in s.results ==> Outcomes(es, n, workers, t) == [])
            && (t in s.results ==> t in s.limits && Reports(s.results[t], s.limits[t], Outcomes(es, n, workers, t)))
  {
    hide Inv, Step, EndedBy, Reports;
    if n > 0 {
      ResultsReport(es, n - 1, workers, t);
      RunInv(es, n - 1, workers);
      StepReports(At(es, n - 1, workers), es[n - 1], t, Outcomes(es, n - 1, workers, t));
    }
  }

  lemma {:induction false} StepReports(s: State, e: Event, t: TaskId, outs: seq<Outcome>)
    requires Inv(s)
    requires t !in s.results ==> outs == []
    requires t in s.results ==> t in s.limits && Reports(s.results[t], s.limits[t], outs)
    ensures var u, more := Step(s, e), outs + EndedBy(s, e, t);
            && (t !in u.results ==> more == [])
            && (t in u.results ==> t in u.limits && Reports(u.results[t], u.limits[t], more))
  {
    hide OnePlace, EachSettledOrInFlight;
    assert outs + [] == outs;
    match e
    case Submit(_, _, _) =>
    case Take(w) =>
      if s.queue != [] { assert QueuedAgrees(s.queue[0], s.results, s.runs, s.limits); }
    case Wake(w) =>
      if w < |s.workers| { assert WorkerAgrees(s.workers[w], s.results, s.runs, s.limits); }
    case Finish(w, outcome) =>
      if w < |s.workers| && s.workers[w].Executing? {
        assert WorkerAgrees(s.workers[w], s.results, s.runs, s.limits);
        if s.workers[w].payload.task == t { FinishReports(s, w, outcome, outs); }
      }
    case Requeue(_) =>
  }

  lemma {:induction false} FinishReports(s: State, w: nat, outcome: Outcome, outs: seq<Outcome>)
    requires w < |s.workers| && s.workers[w].Executing? && WorkerAgrees(s.workers[w], s.results, s.runs, s.limits)
    requires var t := s.workers[w].payload.task; Reports(s.results[t], s.limits[t], outs)
    ensures var t, u := s.workers[w].payload.task, DoFinish(s, w, outcome);
            t in u.results && u.limits == s.limits && Reports(u.results[t], u.limits[t], outs + [outcome])
  {
    var p := s.workers[w].payload;
    var more := outs + [outcome];
    assert EndsWith(more, outcome);
    assert forall i :: 0 <= i < |outs| ==> outs[i].Raised? by {
      if outs != [] { assert EndsWith(outs, outs[|outs| - 1]); }
    }
    assert forall i :: 0 <= i < |outs| ==> more[i] == outs[i];
  }

  /** When the counter is zero, as it is when `join` returns, every task submitted so far
      has succeeded or failed; its attempts are its runs, at least one and at most one
      more than its retries, and a failed task has used them all; and its result reports
      exactly how these attempts ended. */
  lemma {:induction false} JoinMeansDone(es: seq<Event>, n: nat, workers: nat, t: TaskId)
    requires n <= |es| && At(es, n, workers).unfinished == 0 && t in At(es, n, workers).results
    ensures var s := At(es, n, workers);
            && Settled(t, s.results, s.runs, s.limits)
            && Reports(s.results[t], s.limits[t], Outcomes(es, n, workers, t))
  {
    hide Settled, OnePlace, AllAgree;
    RunInv(es, n, workers);
    NobodyBusy(At(es, n, workers).workers);
    ResultsReport(es, n, workers, t);
  }

  /** `get_result`: the value of a success, and nothing else. */
  function GetResult(results: map<TaskId, Result>, t: TaskId): Option<Value> {
    if t in results && results[t].status.Success? then results[t].value else None
  }

  /** Over every run, `get_result` answers a value if and only if that is what a task's
      last attempt returned. */
  lemma {:induction false} GetResultIsReturned(es: seq<Event>, n: nat, workers: nat, t: TaskId, v: Value)
    requires n <= |es|
    ensures GetResult(At(es, n, workers).results, t) == Some(v) <==> EndsWith(Outcomes(es, n, workers, t), Returned(v))
  {
    hide At, Outcomes;
    ResultsReport(es, n, workers, t);
  }

  // ----- items are the submissions, taken in turn -----

  ghost predicate Submits(es: seq<Event>, i: nat, workers: nat, t: TaskId, delayed: bool, limit: int) {
    i < |es| && es[i] == Submit(t, delayed, limit) && t !in At(es, i, workers).results
  }

  /** A task's retries are those it was submitted with. */
  lemma {:induction false} LimitsAreSubmitted(es: seq<Event>, n: nat, workers: nat, t: TaskId) returns (i: nat)
    requires n <= |es| && t in At(es, n, workers).results
    ensures t in At(es, n, workers).limits
    ensures i < n && es[i].Submit? && Submits(es, i, workers, t, es[i].delayed, At(es, n, workers).limits[t])
  {
    hide Inv;
    if n > 0 {
      var s := At(es, n - 1, workers);
      RunInv(es, n, workers);
      if t in s.results {
        i := LimitsAreSubmitted(es, n - 1, workers, t);
        LimitsStay(s, es[n - 1], t);
      } else {
        i := n - 1;
      }
    }
  }

  lemma {:induction false} LimitsStay(s: State, e: Event, t: TaskId)
    requires t in s.results && t in s.limits
    ensures t in Step(s, e).limits && Step(s, e).limits[t] == s.limits[t]
  {
  }

  ghost predicate HasItem(s: State, p: Payload) {
    p in s.queue || exists w :: 0 <= w < |s.workers| && !s.workers[w].Idle? && s.workers[w].payload == p
  }

  /** An item of the queue or of a worker carries what its task was submitted with. */
  lemma {:induction false} ItemsAreSubmitted(es: seq<Event>, n: nat, workers: nat, p: Payload)
    requires n <= |es| && HasItem(At(es, n, workers), p)
    ensures exists i :: 0 <= i < n && Submits(es, i, workers, p.task, p.delayed, p.maxRetries)
  {
    hide Step, HasItem;
    if n == 0 {
      NoItems(workers, p);
    } else {
      var s, e := At(es, n - 1, workers), es[n - 1];
      if e == Submit(p.task, p.delayed, p.maxRetries) && p.task !in s.results {
        assert Submits(es, n - 1, workers, p.task, p.delayed, p.maxRetries);
      } else {
        var q := ItemsStay(s, e, p);
        ItemsAreSubmitted(es, n - 1, workers, q);
      }
    }
  }

  lemma {:induction false} NoItems(workers: nat, p: Payload)
    ensures !HasItem(Start(workers), p)
  {
  }

  lemma {:induction false} ItemsStay(s: State, e: Event, p: Payload) returns (q: Payload)
    requires HasItem(Step(s, e), p)
    requires e == Submit(p.task, p.delayed, p.maxRetries) ==> p.task in s.results
    ensures HasItem(s, q) && q.(attempts := p.attempts) == p
  {
    q := p;
    if !HasItem(s, p) && p !in Step(s, e).queue {
      var w :| 0 <= w < |s.workers| && !Step(s, e).workers[w].Idle? && Step(s, e).workers[w].payload == p;
      if !s.workers[w].Idle? { q := s.workers[w].payload; }
    }
  }

  /** The step starts an attempt of `p` on worker `w`. */
  ghost predicate Begins(s: State, e: Event, w: nat, p: Payload) {
    w < |s.workers| && !s.workers[w].Executing? && w < |Step(s, e).workers| && Step(s, e).workers[w] == Executing(p)
  }

  /** A task that was submitted with a delay waits before its first attempt and only then;
      the others never wait to be started. */
  lemma {:induction false} DelaysAreHonoured(es: seq<Event>, n: nat, workers: nat, w: nat, p: Payload)
    requires n < |es| && Begins(At(es, n, workers), es[n], w, p)
    ensures At(es, n, workers).workers[w] == Delaying(p) <==> p.delayed && p.attempts == 0
  {
    hide Inv, Step, Begins;
    RunInv(es, n, workers);
    BeginsInTime(At(es, n, workers), es[n], w, p);
  }

  lemma {:induction false} BeginsInTime(s: State, e: Event, w: nat, p: Payload)
    requires Inv(s) && Begins(s, e, w, p)
    ensures s.workers[w] == Delaying(p) <==> p.delayed && p.attempts == 0
  {
    hide OnePlace, EachSettledOrInFlight, Agrees, Busy;
    assert WorkerAgrees(s.workers[w], s.results, s.runs, s.limits);
  }

  ghost predicate Took(s: State, e: Event) {
    e.Take? && e.w < |s.workers| && s.workers[e.w].Idle? && s.queue != []
  }

  /** How many items were taken between two moments of a run. */
  ghost function Takes(es: seq<Event>, i: nat, n: nat, workers: nat): nat
    requires i <= n <= |es|
  {
    if i == n then 0 else Takes(es, i, n - 1, workers) + (if Took(At(es, n - 1, workers), es[n - 1]) then 1 else 0)
  }

  lemma {:induction false} StepShifts(s: State, e: Event, queue: seq<Payload>, k: nat)
    requires k <= |queue| && queue[k..] <= s.queue
    ensures var more := if Took(s, e) then k + 1 else k; more <= |queue| ==> queue[more..] <= Step(s, e).queue
  {
    if Took(s, e) && k < |queue| {
      assert queue[k..][1..] == queue[k + 1..];
      assert Step(s, e).queue == s.queue[1..];
    }
  }

  lemma {:induction false} QueueShifts(es: seq<Event>, i: nat, n: nat, workers: nat)
    requires i <= n <= |es| && Takes(es, i, n, workers) <= |At(es, i, workers).queue|
    ensures At(es, i, workers).queue[Takes(es, i, n, workers)..] <= At(es, n, workers).queue
  {
    hide Step, Took;
    if i < n {
      QueueShifts(es, i, n - 1, workers);
      StepShifts(At(es, n - 1, workers), es[n - 1], At(es, i, workers).queue, Takes(es, i, n - 1, workers));
    }
  }

  /** First in, first out: the item at place `j` of the queue is the one that the next take
      but `j` hands to its worker, whatever is submitted, retried or put back meanwhile. */
  lemma {:induction false} TakenInTurn(es: seq<Event>, i: nat, n: nat, workers: nat)
    requires i <= n < |es| && Took(At(es, n, workers), es[n])
    requires Takes(es, i, n, workers) < |At(es, i, workers).queue|
    ensures var worker := At(es, n + 1, workers).workers[es[n].w];
            !worker.Idle? && worker.payload == At(es, i, workers).queue[Takes(es, i, n, workers)]
  {
    var s := At(es, n, workers);
    QueueShifts(es, i, n, workers);
    RunInv(es, n, workers);
    assert QueuedAgrees(s.queue[0], s.results, s.runs, s.limits);
    assert At(es, n + 1, workers) == Step(s, es[n]);
  }

  // ----- every run comes to rest -----

  /** Steps that an item can still cause: four per remaining attempt, less what is done. */
  function Cost(p: Payload): nat {
    4 * Retries(p.maxRetries - p.attempts)
  }

  function QueueCost(queue: seq<Payload>): nat {
    if queue == [] then 0 else Cost(queue[0]) + 3 + QueueCost(queue[1..])
  }

  function WorkerCost(worker: Worker): nat {
    match worker
    case Idle => 0
    case Delaying(p) => Cost(p) + 2
    case Executing(p) => Cost(p) + 1
    case Backoff(p) => Cost(p) + 4
  }

  function WorkersCost(workers: seq<Worker>): nat {
    if workers == [] then 0 else WorkersCost(workers[..|workers| - 1]) + WorkerCost(workers[|workers| - 1])
  }

  function Remaining(s: State): nat {
    QueueCost(s.queue) + WorkersCost(s.workers)
  }

  lemma {:induction false} WorkersCostUpdate(workers: seq<Worker>, w: nat, x: Worker)
    requires w < |workers|
    ensures WorkersCost(workers[w := x]) == WorkersCost(workers) - WorkerCost(workers[w]) + WorkerCost(x)
  {
    var n := |workers| - 1;
    var after := workers[w := x];
    if w < n {
      WorkersCostUpdate(workers[..n], w, x);
      assert after[..n] == workers[..n][w := x];
    } else {
      assert after[..n] == workers[..n];
    }
  }

  lemma {:induction false} QueueCostAppend(queue: seq<Payload>, p: Payload)
    ensures QueueCost(queue + [p]) == QueueCost(queue) + Cost(p) + 3
  {
    if queue == [] {
      assert [p][1..] == [];
    } else {
      QueueCostAppend(queue[1..], p);
      assert (queue + [p])[1..] == queue[1..] + [p];
    }
  }

  function SubmissionCost(e: Event): nat {
    if e.Submit? then 4 * Retries(e.maxRetries) + 3 else 0
  }

  /** Every worker step that does anything uses up some of what remains; only a
      submission adds to it. */
  lemma {:induction false} WorkIsUsedUp(s: State, e: Event)
    requires Inv(s)
    ensures Remaining(Step(s, e)) <= Remaining(s) + SubmissionCost(e)
    ensures !e.Submit? && Step(s, e) != s ==> Remaining(Step(s, e)) < Remaining(s)
  {
    hide OnePlace, EachSettledOrInFlight, Settled, Step;
    match e
    case Submit(t, delayed, maxRetries) => SubmitCosts(s, t, delayed, maxRetries);
    case Take(w) => TakeCosts(s, w);
    case Wake(w) => WakeCosts(s, w);
    case Finish(w, outcome) => FinishCosts(s, w, outcome);
    case Requeue(w) => RequeueCosts(s, w);
  }

  lemma {:induction false} SubmitCosts(s: State, t: TaskId, delayed: bool, maxRetries: int)
    ensures Remaining(Step(s, Submit(t, delayed, maxRetries))) <= Remaining(s) + 4 * Retries(maxRetries) + 3
  {
    QueueCostAppend(s.queue, Payload(t, delayed, maxRetries, 0));
  }

  lemma {:induction false} TakeCosts(s: State, w: nat)
    requires Inv(s)
    ensures Step(s, Take(w)) == s || Remaining(Step(s, Take(w))) < Remaining(s)
  {
    hide OnePlace, EachSettledOrInFlight, WorkersCost;
    var u := Step(s, Take(w));
    if w < |s.workers| && s.workers[w].Idle? && s.queue != [] {
      assert QueuedAgrees(s.queue[0], s.results, s.runs, s.limits);
      WorkersCostUpdate(s.workers, w, u.workers[w]);
      assert u.workers == s.workers[w := u.workers[w]];
    }
  }

  lemma {:induction false} WakeCosts(s: State, w: nat)
    ensures Step(s, Wake(w)) == s || Remaining(Step(s, Wake(w))) < Remaining(s)
  {
    hide WorkersCost, QueueCost;
    if w < |s.workers| && s.workers[w].Delaying? {
      WorkersCostUpdate(s.workers, w, Executing(s.workers[w].payload));
    }
  }

  lemma {:induction false} FinishCosts(s: State, w: nat, outcome: Outcome)
    ensures Step(s, Finish(w, outcome)) == s || Remaining(Step(s, Finish(w, outcome))) < Remaining(s)
  {
    hide WorkersCost, QueueCost;
    if w < |s.workers| && s.workers[w].Executing? {
      var u := Step(s, Finish(w, outcome));
      WorkersCostUpdate(s.workers, w, u.workers[w]);
      assert u.workers == s.workers[w := u.workers[w]];
    }
  }

  lemma {:induction false} RequeueCosts(s: State, w: nat)
    ensures Step(s, Requeue(w)) == s || Remaining(Step(s, Requeue(w))) < Remaining(s)
  {
    hide WorkersCost, QueueCost;
    if w < |s.workers| && s.workers[w].Backoff? {
      WorkersCostUpdate(s.workers, w, Idle);
      QueueCostAppend(s.queue, s.workers[w].payload);
    }
  }

  /** Worker steps of a run that changed something. */
  function WorkerSteps(es: seq<Event>, n: nat, workers: nat): nat
    requires n <= |es|
  {
    if n == 0 then 0
    else
      WorkerSteps(es, n - 1, workers)
      + (if !es[n - 1].Submit? && At(es, n, workers) != At(es, n - 1, workers) then 1 else 0)
  }

  function Submissions(es: seq<Event>, n: nat): nat
    requires n <= |es|
  {
    if n == 0 then 0 else Submissions(es, n - 1) + SubmissionCost(es[n - 1])
  }

  /** However the workers are scheduled and whatever the submitted functions do, a run takes at most
      four steps per attempt that was paid for. */
  lemma {:induction false} RunsComeToRest(es: seq<Event>, n: nat, workers: nat)
    requires n <= |es|
    ensures WorkerSteps(es, n, workers) + Remaining(At(es, n, workers)) <= Submissions(es, n)
  {
    hide Inv, Step, Remaining, SubmissionCost;
    if n == 0 {
      NothingRemains(workers);
    } else {
      RunsComeToRest(es, n - 1, workers);
      RunInv(es, n - 1, workers);
      WorkIsUsedUp(At(es, n - 1, workers), es[n - 1]);
    }
  }

  lemma {:induction false} NothingRemains(workers: nat)
    ensures Remaining(Start(workers)) == 0
  {
    AllIdleCost(Start(workers).workers);
  }

  lemma {:induction false} AllIdleCost(ws: seq<Worker>)
    requires forall w :: 0 <= w < |ws| ==> ws[w].Idle?
    ensures WorkersCost(ws) == 0
  {
    if ws != [] { AllIdleCost(ws[..|ws| - 1]); }
  }

  /** While the counter is not zero and there is a worker, some worker can take a step: so
      a run that takes every step it can ends with the counter at zero. */
  lemma {:induction false} NeverStuck(es: seq<Event>, n: nat, workers: nat) returns (e: Event)
    requires n <= |es| && workers > 0 && At(es, n, workers).unfinished != 0
    ensures !e.Submit? && Step(At(es, n, workers), e) != At(es, n, workers)
  {
    hide OnePlace, EachSettledOrInFlight, AllAgree, Busy, Step;
    var s := At(es, n, workers);
    RunInv(es, n, workers);
    NobodyBusy(s.workers);
    if Busy(s.workers) != 0 {
      var w :| 0 <= w < |s.workers| && !s.workers[w].Idle?;
      e := HolderCanStep(s, w);
    } else {
      e := Take(0);
      IdleCanTake(s, 0);
    }
  }

  lemma {:induction false} HolderCanStep(s: State, w: nat) returns (e: Event)
    requires AllAgree(s) && w < |s.workers| && !s.workers[w].Idle?
    ensures !e.Submit? && Step(s, e) != s
  {
    assert WorkerAgrees(s.workers[w], s.results, s.runs, s.limits);
    e := if s.workers[w].Delaying? then Wake(w) else if s.workers[w].Executing? then Finish(w, Returned(0)) else Requeue(w);
    assert Step(s, e).workers[w] != s.workers[w];
  }

  lemma {:induction false} IdleCanTake(s: State, w: nat)
    requires AllAgree(s) && w < |s.workers| && s.workers[w].Idle? && s.queue != []
    ensures Step(s, Take(w)) != s
  {
    assert QueuedAgrees(s.queue[0], s.results, s.runs, s.limits);
    assert Step(s, Take(w)).workers[w] != s.workers[w];
  }

  // ----- the backend object -----

  /** `AsyncioBackend`, one method for each stretch between awaits.  Looking up a result
      and reporting an item done never fail. */
  class AsyncioBackend {
    var queue: seq<Payload>
    var results: map<TaskId, Result>
    var unfinished: int
    var workers: seq<Worker>
    ghost var runs: map<TaskId, nat>
    ghost var limits: map<TaskId, int>

    ghost function Value(): State
      reads this
    {
      State(queue, results, unfinished, workers, runs, limits)
    }

    constructor (maxConcurrent: nat)
      ensures Value() == Start(maxConcurrent) && Inv(Value())
    {
      queue, results, unfinished, workers := [], map[], 0, seq(maxConcurrent, _ => Idle);
      runs, limits := map[], map[];
      new;
      StartInv(maxConcurrent);
    }

    /** `submit`, with a fresh id. */
    method SubmitTask(t: TaskId, delayed: bool, maxRetries: int)
      requires Inv(Value()) && t !in results
      modifies this
      ensures Value() == Step(old(Value()), Submit(t, delayed, maxRetries)) && Inv(Value())
    {
      StepInv(Value(), Submit(t, delayed, maxRetries));
      hide Inv;
      results := results[t := NEW];
      queue := queue + [Payload(t, delayed, maxRetries, 0)];
      unfinished := unfinished + 1;
      runs, limits := runs[t := 0], limits[t := maxRetries];
    }

    /** From taking an item to the first await after it. */
    method TakeItem(w: nat)
      requires Inv(Value()) && w < |workers| && workers[w].Idle? && queue != []
      modifies this
      ensures Value() == Step(old(Value()), Take(w)) && Inv(Value())
    {
      StepInv(Value(), Take(w));
      assert QueuedAgrees(queue[0], results, runs, limits);
      hide Inv;
      var payload := queue[0];
      queue := queue[1..];
      if payload.attempts == 0 && payload.delayed {
        workers := workers[w := Delaying(payload)];
      } else {
        BeginExecution(w, payload);
      }
    }

    method BeginExecution(w: nat, payload: Payload)
      requires w < |workers| && payload.task in results && payload.task in runs
      modifies this
      ensures Value() == Begin(old(Value()), w, payload)
    {
      results := results[payload.task := results[payload.task].(status := Running, started := true)];
      runs := runs[payload.task := runs[payload.task] + 1];
      workers := workers[w := Executing(payload)];
    }

    method WakeUp(w: nat)
      requires Inv(Value()) && w < |workers| && workers[w].Delaying?
      modifies this
      ensures Value() == Step(old(Value()), Wake(w)) && Inv(Value())
    {
      StepInv(Value(), Wake(w));
      assert WorkerAgrees(workers[w], results, runs, limits);
      hide Inv;
      BeginExecution(w, workers[w].payload);
    }

    /** The submitted function returned or raised; then up to the retry delay or the end. */
    method FinishAttempt(w: nat, outcome: Outcome)
      requires Inv(Value()) && w < |workers| && workers[w].Executing?
      modifies this
      ensures Value() == Step(old(Value()), Finish(w, outcome)) && Inv(Value())
    {
      hide Inv;
      StepInv(Value(), Finish(w, outcome));
      FinishIsSafe(Value(), w);
      var payload := workers[w].payload;
      var result := results[payload.task];
      if outcome.Returned? {
        result := result.(status := Success, value := Some(outcome.value), attempts := payload.attempts + 1);
      } else if payload.attempts < payload.maxRetries {
        payload := payload.(attempts := payload.attempts + 1);
        result := result.(attempts := payload.attempts, status := Retrying);
        result := result.(trouble := AttemptFailed(payload.attempts, outcome.fault));
        results := results[payload.task := result];
        workers := workers[w := Backoff(payload)];
        return;
      } else {
        result := result.(status := Failed, trouble := GaveUp(outcome.fault), attempts := payload.attempts + 1);
      }
      results := results[payload.task := result.(finished := true)];
      TaskDone();
      workers := workers[w := Idle];
    }

    method PutBackItem(w: nat)
      requires Inv(Value()) && w < |workers| && workers[w].Backoff?
      modifies this
      ensures Value() == Step(old(Value()), Requeue(w)) && Inv(Value())
    {
      StepInv(Value(), Requeue(w));
      hide Inv;
      queue := queue + [workers[w].payload];
      unfinished := unfinished + 1;
      TaskDone();
      workers := workers[w := Idle];
    }

    /** `task_done`, which raises when it is called too often. */
    method TaskDone()
      requires unfinished > 0
      modifies `unfinished
      ensures unfinished == old(unfinished) - 1
    {
      unfinished := unfinished - 1;
    }
  }
}
