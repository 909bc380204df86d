/** Goroutine pools: bounded queues, bounded workers, and every task launched at most once. */
module SchedulerPools {
  import opened TaskPhases
  import opened TaskLifeCycle
  import opened SchedulerState
  import opened SchedulerTasks
  import opened SchedulerCalls

  ghost predicate ShapeInv(k: Config, s: State) {
    && s.workers.Keys == k.pools.Keys && s.queues.Keys == k.pools.Keys
    && (forall p | p in k.pools ::
          |s.workers[p]| == k.pools[p].maxConcurrency && |s.queues[p]| <= k.pools[p].maxCapacity)
    && (forall p | p in k.pools && HasParked(s, p) :: s.queues[p] == [])
  }

  ghost predicate QueueInv(s: State, p: PoolId)
    requires p in s.queues
  {
    && (forall i | 0 <= i < |s.queues[p]| ::
          && s.queues[p][i] < |s.ctxs|
          && s.ctxs[s.queues[p][i]].place.Queued?
          && s.ctxs[s.queues[p][i]].spec.pool == p)
    && (forall i, j | 0 <= i < j < |s.queues[p]| :: s.queues[p][i] != s.queues[p][j])
  }

  /** The worker has taken a task and not let go of it. */
  predicate IsBusy(worker: Worker) {
    !worker.Idle? && !worker.Parked?
  }

  ghost predicate WorkerInv(s: State, p: PoolId, w: nat)
    requires p in s.workers && w < |s.workers[p]|
  {
    var worker := s.workers[p][w];
    !IsBusy(worker) ||
    (&& worker.ctx < |s.ctxs|
     && s.ctxs[worker.ctx].place == Held(w)
     && s.ctxs[worker.ctx].spec.pool == p
     && (!worker.Running? ==> s.ctxs[worker.ctx].launches == 0)
     && (worker.Starting? ==>
           && worker.call < |s.calls|
           && s.calls[worker.call].ctx == worker.ctx
           && s.calls[worker.call].phase == Processing))
  }

  /** Its transaction has not stored the context, or has taken it back. */
  predicate Early(t: Task) {
    t.submit.Created? || t.submit.Counted? || t.submit.Refused?
  }

  ghost predicate JobInv(s: State, c: nat)
    requires c < |s.ctxs|
  {
    var t := s.ctxs[c];
    && t.launches <= 1
    && (Early(t) ==> t.place.Unqueued?)
    && (t.submit.CommitFailed? ==> !t.place.Unqueued?)
    && (t.place.Unqueued? || t.place.Queued? ==> t.launches == 0)
    && (t.place.Held? ==>
          && t.spec.pool in s.workers
          && t.place.worker < |s.workers[t.spec.pool]|
          && IsBusy(s.workers[t.spec.pool][t.place.worker])
          && s.workers[t.spec.pool][t.place.worker].ctx == c)
    && (t.launches == 1 ==> t.entered)
    && (t.launches == 1 && !t.done ==> t.place.Held? && s.workers[t.spec.pool][t.place.worker].Running?)
  }

  ghost predicate PoolsInv(k: Config, s: State) {
    && ShapeInv(k, s)
    && (forall p | p in s.queues :: QueueInv(s, p))
    && (forall p, w | p in s.workers && 0 <= w < |s.workers[p]| :: WorkerInv(s, p, w))
    && (forall c | 0 <= c < |s.ctxs| :: JobInv(s, c))
  }

  // ---------- preservation ----------

  ghost predicate CallsKept(s: State, s': State) {
    && |s.calls| <= |s'.calls|
    && forall i | 0 <= i < |s.calls| ::
         s'.calls[i].ctx == s.calls[i].ctx && s'.calls[i].phase == s.calls[i].phase
  }

  /** Contexts keep their places; they may enter processing or be done. */
  ghost predicate JobsKept(s: State, s': State) {
    && |s.ctxs| <= |s'.ctxs|
    && (forall c | 0 <= c < |s.ctxs| ::
          && s'.ctxs[c].spec == s.ctxs[c].spec
          && s'.ctxs[c].place == s.ctxs[c].place
          && s'.ctxs[c].launches == s.ctxs[c].launches
          && (Early(s'.ctxs[c]) ==> Early(s.ctxs[c]))
          && (s'.ctxs[c].submit.CommitFailed? ==> s.ctxs[c].submit.CommitFailed?)
          && (s.ctxs[c].entered ==> s'.ctxs[c].entered)
          && (s.ctxs[c].done ==> s'.ctxs[c].done))
    && (forall c | |s.ctxs| <= c < |s'.ctxs| ::
          s'.ctxs[c].submit.Created? && s'.ctxs[c].place.Unqueued? && s'.ctxs[c].launches == 0)
  }

  lemma KeptJobs(k: Config, s: State, s': State)
    requires PoolsInv(k, s) && s'.workers == s.workers && s'.queues == s.queues
    requires CallsKept(s, s') && JobsKept(s, s')
    ensures PoolsInv(k, s')
  {
    forall p | p in s'.queues
      ensures QueueInv(s', p)
    {
      assert QueueInv(s, p);
    }
    forall p, w | p in s'.workers && 0 <= w < |s'.workers[p]|
      ensures WorkerInv(s', p, w)
    {
      assert WorkerInv(s, p, w);
    }
    forall c | 0 <= c < |s'.ctxs|
      ensures JobInv(s', c)
    {
      if c < |s.ctxs| {
        assert JobInv(s, c);
      }
    }
  }

  lemma LiveKeepsJobs(s: State, c: nat, act: LifeAct)
    requires CanLive(s, c, act)
    ensures JobsKept(s, Live(s, c, act)) && CallsKept(s, Live(s, c, act))
    ensures Live(s, c, act).workers == s.workers && Live(s, c, act).queues == s.queues
  {
  }

  lemma OtherStepsKeepJobs(k: Config, s: State, step: Step)
    requires Enabled(k, s, step)
    requires !step.Living? && !step.Working? && !step.Parking? && !step.Transacting? && !step.Cleaning?
    ensures var s' := Apply(k, s, step);
            && JobsKept(s, s') && CallsKept(s, s') && s'.workers == s.workers && s'.queues == s.queues
  {
  }

  lemma CleanKeepsJobs(k: Config, s: State, act: CleanAct)
    requires CanClean(k, s, act)
    ensures var s' := Clean(k, s, act);
            && JobsKept(s, s') && CallsKept(s, s') && s'.workers == s.workers && s'.queues == s.queues
  {
  }

  /** A worker that is blocked after the transaction was so before, and then nothing was buffered. */
  lemma TransactKeepsParked(k: Config, s: State, c: nat, result: TxResult, p: PoolId)
    requires PoolsInv(k, s) && CanTransact(k, s, c, result) && p in k.pools && HasParked(Transact(s, c, result), p)
    ensures p in s.queues && Transact(s, c, result).queues[p] == []
  {
    var s' := Transact(s, c, result);
    var w :| 0 <= w < |s'.workers[p]| && s'.workers[p][w].Parked?;
    assert s.workers[p][w].Parked?;
    assert HasParked(s, p);
  }

  lemma TransactKeepsShape(k: Config, s: State, c: nat, result: TxResult)
    requires PoolsInv(k, s) && CanTransact(k, s, c, result)
    ensures ShapeInv(k, Transact(s, c, result))
  {
    var s' := Transact(s, c, result);
    TransactKeepsSizes(k, s, c, result);
    forall p | p in k.pools && HasParked(s', p)
      ensures s'.queues[p] == []
    {
      TransactKeepsParked(k, s, c, result, p);
    }
  }

  lemma TransactKeepsSizes(k: Config, s: State, c: nat, result: TxResult)
    requires ShapeInv(k, s) && CanTransact(k, s, c, result)
    ensures var s' := Transact(s, c, result);
            && s'.workers.Keys == k.pools.Keys && s'.queues.Keys == k.pools.Keys
            && forall p | p in k.pools ::
                 |s'.workers[p]| == k.pools[p].maxConcurrency && |s'.queues[p]| <= k.pools[p].maxCapacity
  {
  }

  lemma TransactKeepsQueues(k: Config, s: State, c: nat, result: TxResult)
    requires PoolsInv(k, s) && CanTransact(k, s, c, result)
    ensures var s' := Transact(s, c, result);
            forall p | p in s'.queues :: QueueInv(s', p)
  {
    var s' := Transact(s, c, result);
    forall p | p in s'.queues
      ensures QueueInv(s', p)
    {
      TransactKeepsQueue(k, s, c, result, p);
    }
  }

  lemma TransactKeepsQueue(k: Config, s: State, c: nat, result: TxResult, p: PoolId)
    requires PoolsInv(k, s) && CanTransact(k, s, c, result) && p in Transact(s, c, result).queues
    ensures QueueInv(Transact(s, c, result), p)
  {
    assert JobInv(s, c) && QueueInv(s, p);
  }

  /** A worker that takes the task over was blocked, so it held no other. */
  lemma TransactKeepsWorkers(k: Config, s: State, c: nat, result: TxResult)
    requires PoolsInv(k, s) && CanTransact(k, s, c, result)
    ensures var s' := Transact(s, c, result);
            forall p, w | p in s'.workers && 0 <= w < |s'.workers[p]| :: WorkerInv(s', p, w)
  {
    var s' := Transact(s, c, result);
    forall p, w | p in s'.workers && 0 <= w < |s'.workers[p]|
      ensures WorkerInv(s', p, w)
    {
      TransactKeepsWorker(k, s, c, result, p, w);
    }
  }

  lemma TransactKeepsWorker(k: Config, s: State, c: nat, result: TxResult, p: PoolId, w: nat)
    requires PoolsInv(k, s) && CanTransact(k, s, c, result)
    requires p in Transact(s, c, result).workers && w < |Transact(s, c, result).workers[p]|
    ensures WorkerInv(Transact(s, c, result), p, w)
  {
    var s' := Transact(s, c, result);
    assert JobInv(s, c) && WorkerInv(s, p, w);
    if HandsOver(result) && p == s.ctxs[c].spec.pool && w == result.to.worker {
      assert s'.workers[p][w] == Handed(c) && s'.ctxs[c].place == Held(w);
    } else {
      assert s'.workers[p][w] == s.workers[p][w];
      if IsBusy(s.workers[p][w]) {
        assert s.workers[p][w].ctx != c;
        assert s'.ctxs[s.workers[p][w].ctx] == s.ctxs[s.workers[p][w].ctx];
      }
    }
  }

  lemma TransactKeepsOwnJob(k: Config, s: State, c: nat, result: TxResult)
    requires PoolsInv(k, s) && CanTransact(k, s, c, result)
    ensures JobInv(Transact(s, c, result), c)
  {
    assert JobInv(s, c);
  }

  /** The worker another task is held by was not blocked. */
  lemma TransactKeepsOtherJob(k: Config, s: State, c: nat, result: TxResult, d: nat)
    requires PoolsInv(k, s) && CanTransact(k, s, c, result) && d < |s.ctxs| && d != c
    ensures JobInv(Transact(s, c, result), d)
  {
    var s' := Transact(s, c, result);
    var t := s.ctxs[d];
    assert JobInv(s, d) && s'.ctxs[d] == t;
    if t.place.Held? {
      assert s'.workers[t.spec.pool][t.place.worker] == s.workers[t.spec.pool][t.place.worker];
    }
  }

  lemma TransactKeepsPools(k: Config, s: State, c: nat, result: TxResult)
    requires PoolsInv(k, s) && CanTransact(k, s, c, result)
    ensures PoolsInv(k, Transact(s, c, result))
  {
    var s' := Transact(s, c, result);
    TransactKeepsShape(k, s, c, result);
    TransactKeepsQueues(k, s, c, result);
    TransactKeepsWorkers(k, s, c, result);
    forall d | 0 <= d < |s'.ctxs|
      ensures JobInv(s', d)
    {
      if d == c {
        TransactKeepsOwnJob(k, s, c, result);
      } else {
        TransactKeepsOtherJob(k, s, c, result, d);
      }
    }
  }

  lemma ParkKeepsShape(k: Config, s: State, p: PoolId, w: nat)
    requires ShapeInv(k, s) && CanPark(s, p, w)
    ensures ShapeInv(k, Park(s, p, w))
  {
    var s' := Park(s, p, w);
    forall q | q in k.pools && HasParked(s', q)
      ensures s'.queues[q] == []
    {
      assert q != p ==> s'.workers[q] == s.workers[q] && HasParked(s, q);
    }
  }

  lemma ParkKeepsWorker(k: Config, s: State, p: PoolId, w: nat, q: PoolId, v: nat)
    requires PoolsInv(k, s) && CanPark(s, p, w) && q in s.workers && v < |s.workers[q]|
    ensures v < |Park(s, p, w).workers[q]| && WorkerInv(Park(s, p, w), q, v)
  {
    assert WorkerInv(s, q, v);
  }

  lemma ParkKeepsJob(k: Config, s: State, p: PoolId, w: nat, c: nat)
    requires PoolsInv(k, s) && CanPark(s, p, w) && c < |s.ctxs|
    ensures JobInv(Park(s, p, w), c)
  {
    assert JobInv(s, c);
  }

  lemma ParkKeepsQueue(k: Config, s: State, p: PoolId, w: nat, q: PoolId)
    requires PoolsInv(k, s) && CanPark(s, p, w) && q in s.queues
    ensures QueueInv(Park(s, p, w), q)
  {
    assert QueueInv(s, q);
  }

  /** A worker that blocks changes nothing else. */
  lemma ParkKeepsPools(k: Config, s: State, p: PoolId, w: nat)
    requires PoolsInv(k, s) && CanPark(s, p, w)
    ensures PoolsInv(k, Park(s, p, w))
  {
    var s' := Park(s, p, w);
    ParkKeepsShape(k, s, p, w);
    forall q | q in s'.queues
      ensures QueueInv(s', q)
    {
      ParkKeepsQueue(k, s, p, w, q);
    }
    forall q, v | q in s'.workers && 0 <= v < |s'.workers[q]|
      ensures WorkerInv(s', q, v)
    {
      ParkKeepsWorker(k, s, p, w, q, v);
    }
    forall c | 0 <= c < |s'.ctxs|
      ensures JobInv(s', c)
    {
      ParkKeepsJob(k, s, p, w, c);
    }
  }

  lemma WorkKeepsShape(k: Config, s: State, p: PoolId, w: nat, act: WorkAct)
    requires PoolsInv(k, s) && CanWork(s, p, w, act)
    ensures ShapeInv(k, Work(s, p, w, act))
  {
    var s' := Work(s, p, w, act);
    forall q | q in k.pools && HasParked(s', q)
      ensures s'.queues[q] == []
    {
      var v :| 0 <= v < |s'.workers[q]| && s'.workers[q][v].Parked?;
      assert s.workers[q][v].Parked?;
      assert HasParked(s, q);
    }
  }

  lemma WorkKeepsQueues(k: Config, s: State, p: PoolId, w: nat, act: WorkAct)
    requires PoolsInv(k, s) && CanWork(s, p, w, act)
    ensures var s' := Work(s, p, w, act);
            forall q | q in s'.queues :: QueueInv(s', q)
  {
    var s' := Work(s, p, w, act);
    assert QueueInv(s, p) && WorkerInv(s, p, w) && JobInv(s, WorkTask(s, p, w, act));
    forall q | q in s'.queues
      ensures QueueInv(s', q)
    {
      assert QueueInv(s, q);
    }
  }

  /** The worker that moves is in order afterwards. */
  lemma WorkKeepsOwnWorker(k: Config, s: State, p: PoolId, w: nat, act: WorkAct)
    requires PoolsInv(k, s) && CanWork(s, p, w, act)
    ensures WorkerInv(Work(s, p, w, act), p, w)
  {
    assert QueueInv(s, p) && WorkerInv(s, p, w) && JobInv(s, WorkTask(s, p, w, act));
  }

  /** The other workers are busy with other tasks. */
  lemma WorkKeepsOtherWorker(k: Config, s: State, p: PoolId, w: nat, act: WorkAct, q: PoolId, v: nat)
    requires PoolsInv(k, s) && CanWork(s, p, w, act)
    requires q in s.workers && v < |s.workers[q]| && (q != p || v != w)
    ensures v < |Work(s, p, w, act).workers[q]| && WorkerInv(Work(s, p, w, act), q, v)
  {
    assert QueueInv(s, p) && WorkerInv(s, p, w) && WorkerInv(s, q, v);
    var worker := s.workers[q][v];
    assert Work(s, p, w, act).workers[q][v] == worker;
    if IsBusy(worker) {
      assert worker.ctx != WorkTask(s, p, w, act);
      assert Work(s, p, w, act).ctxs[worker.ctx] == s.ctxs[worker.ctx];
    }
  }

  lemma WorkKeepsWorkers(k: Config, s: State, p: PoolId, w: nat, act: WorkAct)
    requires PoolsInv(k, s) && CanWork(s, p, w, act)
    ensures var s' := Work(s, p, w, act);
            forall q, v | q in s'.workers && 0 <= v < |s'.workers[q]| :: WorkerInv(s', q, v)
  {
    var s' := Work(s, p, w, act);
    WorkKeepsOwnWorker(k, s, p, w, act);
    forall q, v | q in s'.workers && 0 <= v < |s'.workers[q]|
      ensures WorkerInv(s', q, v)
    {
      if q != p || v != w {
        WorkKeepsOtherWorker(k, s, p, w, act, q, v);
      }
    }
  }

  /** A worker launches a task only after its row entered processing. */
  lemma LaunchAfterEntering(k: Config, s: State, p: PoolId, w: nat)
    requires PoolsInv(k, s) && CallsInv(s) && CanWork(s, p, w, Launch)
    ensures s.ctxs[WorkTask(s, p, w, Launch)].entered
    ensures s.ctxs[WorkTask(s, p, w, Launch)].launches == 0
  {
    assert WorkerInv(s, p, w);
    var call := s.calls[s.workers[p][w].call];
    assert EffectInv(s, call) && StageInv(call);
  }

  lemma WorkKeepsJobs(k: Config, s: State, p: PoolId, w: nat, act: WorkAct)
    requires PoolsInv(k, s) && CallsInv(s) && CanWork(s, p, w, act)
    ensures var s' := Work(s, p, w, act);
            forall d | 0 <= d < |s'.ctxs| :: JobInv(s', d)
  {
    var s' := Work(s, p, w, act);
    assert QueueInv(s, p) && WorkerInv(s, p, w);
    if act.Launch? {
      LaunchAfterEntering(k, s, p, w);
    }
    forall d | 0 <= d < |s'.ctxs|
      ensures JobInv(s', d)
    {
      assert JobInv(s, d);
    }
  }

  lemma StepKeepsPools(k: Config, s: State, step: Step)
    requires CallsInv(s) && PoolsInv(k, s) && Enabled(k, s, step)
    ensures PoolsInv(k, Apply(k, s, step))
  {
    match step
    case Living(c, act) =>
      LiveKeepsJobs(s, c, act);
      KeptJobs(k, s, Live(s, c, act));
    case Working(p, w, act) =>
      WorkKeepsShape(k, s, p, w, act);
      WorkKeepsQueues(k, s, p, w, act);
      WorkKeepsWorkers(k, s, p, w, act);
      WorkKeepsJobs(k, s, p, w, act);
    case Transacting(c, result) => TransactKeepsPools(k, s, c, result);
    case Parking(p, w) => ParkKeepsPools(k, s, p, w);
    case Cleaning(act) =>
      CleanKeepsJobs(k, s, act);
      KeptJobs(k, s, Clean(k, s, act));
    case _ =>
      OtherStepsKeepJobs(k, s, step);
      KeptJobs(k, s, Apply(k, s, step));
  }

  lemma {:induction false} RunKeepsPools(k: Config, run: seq<State>, steps: seq<Step>, i: nat)
    requires IsRun(k, run, steps) && i < |run|
    ensures PoolsInv(k, run[i])
  {
    if i > 0 {
      RunKeepsPools(k, run, steps, i - 1);
      RunKeepsCalls(k, run, steps, i - 1);
      assert StepAt(k, run, steps, i - 1);
      StepKeepsPools(k, run[i - 1], steps[i - 1]);
    }
  }

  // ---------- dispatching ----------

  /**
   A send to a pool's channel succeeds exactly when a worker is blocked or the buffer has room: for a
   pool of capacity zero exactly when a worker is blocked. When one is, it takes the task over.
   */
  lemma DispatchesExactly(k: Config, s: State, pool: PoolId)
    requires ShapeInv(k, s)
    ensures (exists to :: CanDispatch(k, s, pool, to))
            <==> pool in k.pools && (HasParked(s, pool) || |s.queues[pool]| < k.pools[pool].maxCapacity)
    ensures pool in k.pools && HasParked(s, pool) ==> !CanDispatch(k, s, pool, ToQueue)
  {
    if pool in k.pools {
      if HasParked(s, pool) {
        var w :| 0 <= w < |s.workers[pool]| && s.workers[pool][w].Parked?;
        assert CanDispatch(k, s, pool, ToWorker(w));
      } else if |s.queues[pool]| < k.pools[pool].maxCapacity {
        assert CanDispatch(k, s, pool, ToQueue);
      }
    }
  }

  // ---------- the bounds ----------

  /** The tasks of a pool whose executor was launched and whose Done is still open. */
  ghost function RunningTasks(s: State, p: PoolId): set<nat> {
    set c: nat | c < |s.ctxs| && s.ctxs[c].spec.pool == p && s.ctxs[c].launches > 0 && !s.ctxs[c].done
  }

  lemma AtMostOne(ids: set<nat>)
    requires forall c, d | c in ids && d in ids :: c == d
    ensures |ids| <= 1
  {
    if ids != {} {
      var c :| c in ids;
      assert ids == {c};
    }
  }

  /** The tasks of one of the workers. */
  ghost function HeldBy(tasks: set<nat>, worker: nat -> nat, w: nat): set<nat> {
    set c | c in tasks && worker(c) == w
  }

  /** Tasks held by different ones of n workers are at most n. */
  lemma {:induction false} DistinctWorkersBound(tasks: set<nat>, worker: nat -> nat, n: nat)
    requires forall c | c in tasks :: worker(c) < n
    requires forall c, d | c in tasks && d in tasks && worker(c) == worker(d) :: c == d
    ensures |tasks| <= n
    decreases n
  {
    if n == 0 {
      assert tasks == {};
    } else {
      var last := HeldBy(tasks, worker, n - 1);
      AtMostOne(last);
      DistinctWorkersBound(tasks - last, worker, n - 1);
      assert tasks == (tasks - last) + last;
    }
  }

  /**
   In every reachable state a pool runs at most MaxConcurrency launched executors with an open
   Done and queues at most MaxCapacity tasks; a task is launched at most once and only after its
   row was set to processing.
   */
  lemma PoolBounds(k: Config, run: seq<State>, steps: seq<Step>, i: nat, p: PoolId)
    requires IsRun(k, run, steps) && i < |run| && p in k.pools
    ensures |RunningTasks(run[i], p)| <= k.pools[p].maxConcurrency
    ensures p in run[i].queues && |run[i].queues[p]| <= k.pools[p].maxCapacity
    ensures forall c | 0 <= c < |run[i].ctxs| ::
              run[i].ctxs[c].launches <= 1 && (run[i].ctxs[c].launches == 1 ==> run[i].ctxs[c].entered)
  {
    RunKeepsPools(k, run, steps, i);
    var s := run[i];
    forall c | c in RunningTasks(s, p)
      ensures s.ctxs[c].place.Held? && s.ctxs[c].place.worker < k.pools[p].maxConcurrency
      ensures s.workers[p][s.ctxs[c].place.worker].Running? && s.workers[p][s.ctxs[c].place.worker].ctx == c
    {
      assert JobInv(s, c);
    }
    var worker := (c: nat) => if c < |s.ctxs| && s.ctxs[c].place.Held? then s.ctxs[c].place.worker else 0;
    DistinctWorkersBound(RunningTasks(s, p), worker, k.pools[p].maxConcurrency);
    forall c | 0 <= c < |s.ctxs|
      ensures s.ctxs[c].launches <= 1 && (s.ctxs[c].launches == 1 ==> s.ctxs[c].entered)
    {
      assert JobInv(s, c);
    }
  }
}
