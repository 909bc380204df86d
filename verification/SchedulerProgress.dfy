/** What submitters and pool workers can get done: a task is stored, queued in order, started and launched. */
module SchedulerProgress {
  import opened Basics
  import opened TaskPhases
  import opened TaskLifeCycle
  import opened SchedulerState
  import opened SchedulerTasks
  import opened SchedulerCalls
  import opened SchedulerPools

  // ---------- submitting ----------

  /** The limits leave room for the task of context c, and its id was never stored. */
  ghost predicate HasPlace(k: Config, s: State, c: nat) {
    && AtStage(s, c, Counted)
    && |s.rows| < k.maxRows && s.ctxs[c].spec.id !in s.rows
    && (forall d | 0 <= d < |s.ctxs| && Owns(s.ctxs[d]) :: s.ctxs[d].spec.id != s.ctxs[c].spec.id)
    && s.ctxs[c].spec.pool in k.pools && HasPool(s, s.ctxs[c].spec.pool)
    && (HasParked(s, s.ctxs[c].spec.pool)
        || |s.queues[s.ctxs[c].spec.pool]| < k.pools[s.ctxs[c].spec.pool].maxCapacity)
  }

  /** The submission is through: a waiting row, a registry entry, and a life cycle in its first loop. */
  ghost predicate IsSubmitted(s: State, c: nat) {
    && c < |s.ctxs|
    && var t := s.ctxs[c];
       && t.submit.Accepted? && t.life.OnWaiting? && t.phase.Waiting? && t.pending.None?
       && t.spec.id in s.rows && s.rows[t.spec.id] == Row(Waiting, t.spec.parentId)
       && t.spec.id in s.active && s.active[t.spec.id] == c
  }

  /** The task is last in its pool's queue, or in the hands of a worker that waited. */
  ghost predicate IsDispatched(s: State, s': State, c: nat)
    requires c < |s.ctxs| && c < |s'.ctxs|
  {
    var p := s.ctxs[c].spec.pool;
    && p in s.queues && p in s'.queues && p in s.workers && p in s'.workers
    && if s'.ctxs[c].place.Held? then
         var w := s'.ctxs[c].place.worker;
         w < |s.workers[p]| && s.workers[p][w].Parked? && s'.queues == s.queues
         && s'.workers[p] == s.workers[p][w := Handed(c)]
       else
         s'.ctxs[c].place.Queued? && s'.queues[p] == s.queues[p] + [c] && s'.workers == s.workers
  }

  lemma SubmissionCanSucceed(k: Config, s: State, c: nat)
    requires CoreInv(s) && ShapeInv(k, s) && HasPlace(k, s, c)
    ensures exists to: Dispatch ::
              CanTransact(k, s, c, Commits(to))
              && var stored := Transact(s, c, Commits(to));
                 CanFinish(stored, c)
                 && IsSubmitted(Finish(stored, c), c) && IsDispatched(s, Finish(stored, c), c)
                 && Finish(stored, c).count == s.count
  {
    DispatchesExactly(k, s, s.ctxs[c].spec.pool);
    var to :| CanDispatch(k, s, s.ctxs[c].spec.pool, to);
    assert FreshId(s, s.ctxs[c].spec.id);
    assert TaskInv(s.ctxs[c], RowOf(s, c));
    CommitStores(k, s, c, to);
  }

  lemma CommitStores(k: Config, s: State, c: nat, to: Dispatch)
    requires CanTransact(k, s, c, Commits(to)) && TaskInv(s.ctxs[c], RowOf(s, c)) && s.ctxs[c].pending.None?
    ensures var stored := Transact(s, c, Commits(to));
            CanFinish(stored, c)
            && IsSubmitted(Finish(stored, c), c) && IsDispatched(s, Finish(stored, c), c)
            && Finish(stored, c).count == s.count
  {
  }

  /** A master can always be submitted, a sub-task while its parent is registered; it is derived from that one. */
  lemma CreatesExactly(k: Config, s: State, spec: TaskSpec)
    ensures Enabled(k, s, Creating(spec)) <==> spec.id != "" && (spec.parentId == "" || spec.parentId in s.active)
    ensures Enabled(k, s, Creating(spec)) ==>
              var s' := Apply(k, s, Creating(spec));
              && s'.ctxs[..|s.ctxs|] == s.ctxs && |s'.ctxs| == |s.ctxs| + 1
              && s'.ctxs[|s.ctxs|].spec == spec && s'.ctxs[|s.ctxs|].submit.Created?
              && s'.ctxs[|s.ctxs|].parent == if spec.parentId == "" then None else Some(s.active[spec.parentId])
  {
  }

  /** A context can be counted exactly when the counter is below its limit. */
  lemma CountsBelowLimit(k: Config, s: State, c: nat)
    requires c < |s.ctxs| && s.ctxs[c].submit.Created?
    ensures Enabled(k, s, Counting(c)) <==> s.count < k.maxActive
    ensures Enabled(k, s, Counting(c)) ==> Apply(k, s, Counting(c)).count == s.count + 1
  {
  }

  // ---------- the queue ----------

  /** Queues are first in, first out: a queue stays, gains a task at its end, or loses its head to a worker. */
  ghost predicate QueueMoves(s: State, s': State, p: PoolId)
    requires p in s.queues && p in s'.queues
  {
    || s'.queues[p] == s.queues[p]
    || (exists c :: s'.queues[p] == s.queues[p] + [c])
    || (&& s.queues[p] != [] && s'.queues[p] == s.queues[p][1..] && p in s'.workers
        && exists w :: 0 <= w < |s'.workers[p]| && s'.workers[p][w] == Handed(s.queues[p][0]))
  }

  lemma WorkMovesQueue(s: State, p: PoolId, w: nat, act: WorkAct, q: PoolId)
    requires CanWork(s, p, w, act) && q in s.queues
    ensures q in Work(s, p, w, act).queues && QueueMoves(s, Work(s, p, w, act), q)
  {
    if act.Dequeue? && p == q {
      assert Work(s, p, w, act).workers[p][w] == Handed(s.queues[p][0]);
    }
  }

  lemma TransactMovesQueue(k: Config, s: State, c: nat, result: TxResult, q: PoolId)
    requires CanTransact(k, s, c, result) && q in s.queues
    ensures q in Transact(s, c, result).queues && QueueMoves(s, Transact(s, c, result), q)
  {
  }

  lemma OthersKeepQueues(k: Config, s: State, step: Step)
    requires Enabled(k, s, step) && !step.Working? && !step.Transacting?
    ensures Apply(k, s, step).queues == s.queues
  {
    match step
    case Living(c, act) => LivingKeepsQueues(s, c, act);
    case Cleaning(act) => CleaningKeepsQueues(k, s, act);
    case _ =>
  }

  lemma LivingKeepsQueues(s: State, c: nat, act: LifeAct)
    requires CanLive(s, c, act)
    ensures Live(s, c, act).queues == s.queues
  {
  }

  lemma CleaningKeepsQueues(k: Config, s: State, act: CleanAct)
    requires CanClean(k, s, act)
    ensures Clean(k, s, act).queues == s.queues
  {
  }

  lemma QueuesAreInOrder(k: Config, s: State, step: Step, p: PoolId)
    requires Enabled(k, s, step) && p in s.queues
    ensures p in Apply(k, s, step).queues && QueueMoves(s, Apply(k, s, step), p)
  {
    match step
    case Working(q, w, act) => WorkMovesQueue(s, q, w, act, p);
    case Transacting(c, result) => TransactMovesQueue(k, s, c, result, p);
    case _ => OthersKeepQueues(k, s, step);
  }

  // ---------- starting and launching ----------

  /** The worker has asked its task to start, and the task's loop picks the request. */
  function Asked(s: State, p: PoolId, w: nat, c: nat): State
    requires CanWork(s, p, w, Ask) && c == WorkTask(s, p, w, Ask) && Started(s.ctxs[c]) && Listening(s.ctxs[c])
  {
    var s' := Work(s, p, w, Ask);
    LiveTake(s', c, |s.calls|)
  }

  lemma AskedIsGranted(s: State, p: PoolId, w: nat, c: nat)
    requires CoreInv(s) && CanWork(s, p, w, Ask) && s.workers[p][w] == Handed(c)
    requires Started(s.ctxs[c]) && s.ctxs[c].life.OnWaiting? && Listening(s.ctxs[c]) && RowOf(s, c) == Some(Waiting)
    ensures var s', call := Asked(s, p, w, c), |s.calls|;
            && CoreInv(s') && IsGranted(s', c) && CanLive(s', c, Handle(Hit))
            && s'.ctxs[c].pending == Some(Request(Processing, true, false, FromCall(call)))
            && s'.ctxs[c].phase.Waiting? && s'.ctxs[c].spec == s.ctxs[c].spec && s'.ctxs[c].launches == s.ctxs[c].launches
            && HasPool(s', p) && w < |s'.workers[p]| && s'.workers[p][w] == Starting(c, call)
            && call < |s'.calls| && s'.calls[call].stage == Awaiting(None) && s'.calls[call].ctx == c
  {
    assert TaskInv(s.ctxs[c], RowOf(s, c));
    WorkKeepsCore(s, p, w, Ask);
    TakeKeepsCore(Work(s, p, w, Ask), c, |s.calls|);
  }

  /** From such a state the worker can get its nil and launch the executor. */
  ghost predicate CanBeLaunched(s: State, p: PoolId, w: nat, c: nat, call: nat) {
    CanLive(s, c, Handle(Hit))
    && var handled := LiveHandle(s, c, Hit);
       CanCallStep(handled, call, Receive)
       && var told := CallStep(handled, call, Receive);
          CanWork(told, p, w, Launch)
          && var s' := Work(told, p, w, Launch);
             && RowOf(s', c) == Some(Processing) && s'.workers[p][w] == Running(c)
             && s'.ctxs[c].launches == s.ctxs[c].launches + 1
  }

  lemma GrantedCanBeLaunched(s: State, p: PoolId, w: nat, c: nat, call: nat)
    requires CoreInv(s) && IsGranted(s, c) && CanLive(s, c, Handle(Hit))
    requires s.ctxs[c].pending == Some(Request(Processing, true, false, FromCall(call))) && s.ctxs[c].spec.command != ""
    requires HasPool(s, p) && w < |s.workers[p]| && s.workers[p][w] == Starting(c, call)
    requires call < |s.calls| && s.calls[call].stage == Awaiting(None) && s.calls[call].ctx == c
    ensures CanBeLaunched(s, p, w, c, call)
  {
    GrantedEndsInNil(s, c, call);
    GrantedTakesEffect(s, c, Hit);
    var handled := LiveHandle(s, c, Hit);
    HandleKeepsLaunches(s, c);
    var told := CallStep(handled, call, Receive);
    assert told.workers == s.workers && told.queues == s.queues && told.ctxs == handled.ctxs;
    LaunchCounts(told, p, w, c);
  }

  lemma HandleKeepsLaunches(s: State, c: nat)
    requires CanLive(s, c, Handle(Hit))
    ensures var s' := LiveHandle(s, c, Hit);
            && s'.ctxs[c].launches == s.ctxs[c].launches && s'.ctxs[c].spec == s.ctxs[c].spec
            && s'.workers == s.workers && s'.queues == s.queues
  {
  }

  /** A launch is recorded, and the worker is busy with its task until Done is closed. */
  lemma LaunchCounts(s: State, p: PoolId, w: nat, c: nat)
    requires CanWork(s, p, w, Launch) && s.workers[p][w].Starting? && s.workers[p][w].ctx == c
    ensures var s' := Work(s, p, w, Launch);
            && s'.ctxs[c].launches == s.ctxs[c].launches + 1 && RowOf(s', c) == RowOf(s, c)
            && HasPool(s', p) && w < |s'.workers[p]| && s'.workers[p][w] == Running(c)
  {
  }

  /** A worker that has been handed a waiting task can start it: its row is set to processing and its executor launched. */
  lemma HandedTaskCanLaunch(s: State, p: PoolId, w: nat, c: nat)
    requires CoreInv(s) && CanWork(s, p, w, Ask) && s.workers[p][w] == Handed(c) && s.ctxs[c].spec.command != ""
    requires Started(s.ctxs[c]) && s.ctxs[c].life.OnWaiting? && Listening(s.ctxs[c]) && RowOf(s, c) == Some(Waiting)
    ensures CanBeLaunched(Asked(s, p, w, c), p, w, c, |s.calls|)
  {
    AskedIsGranted(s, p, w, c);
    GrantedCanBeLaunched(Asked(s, p, w, c), p, w, c, |s.calls|);
  }

  /** A worker comes free when its task's Done is closed, and when it did not get its nil. */
  lemma WorkersComeFree(s: State, p: PoolId, w: nat)
    requires HasPool(s, p) && w < |s.workers[p]|
    requires match s.workers[p][w]
             case Running(c) => c < |s.ctxs| && s.ctxs[c].done
             case Starting(c, call) =>
               c < |s.ctxs| && call < |s.calls| && s.calls[call].stage.Returned? && !s.calls[call].stage.result.Nil?
             case Reporting(c, call) => c < |s.ctxs| && call < |s.calls| && s.calls[call].stage.Returned?
             case _ => false
    ensures var act := if s.workers[p][w].Running? then Release else Drop;
            CanWork(s, p, w, act)
            && var s' := Work(s, p, w, act);
               p in s'.workers && w < |s'.workers[p]| && s'.workers[p][w].Idle? && s'.queues == s.queues
  {
  }

  /** An idle worker takes the head of its queue, or waits at an empty one. */
  lemma IdleWorkerTurns(s: State, p: PoolId, w: nat)
    requires HasPool(s, p) && w < |s.workers[p]| && s.workers[p][w].Idle?
    ensures s.queues[p] == [] ==> CanPark(s, p, w) && Park(s, p, w).workers == s.workers[p := s.workers[p][w := Parked]]
    ensures s.queues[p] != [] && s.queues[p][0] < |s.ctxs| ==>
              CanWork(s, p, w, Dequeue)
              && var s' := Work(s, p, w, Dequeue);
                 s'.workers == s.workers[p := s.workers[p][w := Handed(s.queues[p][0])]]
                 && s'.queues[p] == s.queues[p][1..] && CanWork(s', p, w, Ask)
  {
  }

  /** A caller of UpdateStatus never hangs: its timer ends the call, and so does a channel that was closed. */
  lemma CallersNeverHang(s: State, call: nat)
    requires call < |s.calls| && s.calls[call].ctx < |s.ctxs| && !s.calls[call].stage.Returned?
    ensures CanCallStep(s, call, GiveUp) && CallStep(s, call, GiveUp).calls[call].stage == Returned(TimedOut)
    ensures s.calls[call].stage.Sending? && s.ctxs[s.calls[call].ctx].closed ==>
              CanCallStep(s, call, Panic) && CallStep(s, call, Panic).calls[call].stage == Returned(Panicked)
  {
  }

  // ---------- timers and cancellation ----------

  /** Whether the timer is set, and the loop is the one that waits for it. */
  predicate MayFire(t: Task, act: LifeAct, mainDone: bool) {
    match act
    case WaitTimer => t.life.OnWaiting? && t.spec.waitTimeout > 0
    case HeartbeatLost => t.life.OnProcessing? && t.spec.heartbeatTimeout > 0
    case ExecuteTimer => t.life.OnProcessing? && t.spec.executeTimeout > 0
    case MainContextDone => mainDone && !t.life.OnAborting?
    case GraceTimer => t.life.OnAborting?
    case _ => false
  }

  /** A timer that fires stops the task: a processing one is asked to abort, any other has failed. */
  lemma TimersStopTasks(s: State, c: nat, act: LifeAct)
    requires CoreInv(s) && c < |s.ctxs| && Started(s.ctxs[c]) && Listening(s.ctxs[c])
    requires RowOf(s, c) == Some(s.ctxs[c].phase) && MayFire(s.ctxs[c], act, MainDone(s.ctxs, s.rootDone, c))
    ensures CanLive(s, c, act)
            && var fired := Live(s, c, act);
               CanLive(fired, c, Handle(Hit))
               && var s' := LiveHandle(fired, c, Hit);
                  RowOf(s', c) == Some(if s.ctxs[c].phase.Processing? then Aborting else Failed)
                  && s'.ctxs[c].phase == RowOf(s', c).value
  {
    var fired := WithTask(s, c, Fire(s.ctxs[c]));
    assert TaskInv(s.ctxs[c], RowOf(s, c));
    assert Live(s, c, act) == fired;
    FireKeepsCore(s, c, act);
    GrantedTakesEffect(fired, c, Hit);
  }

  /** Leaving processing: without a grace period the task is failed at once, with one it is told and given time. */
  lemma GraceIsGiven(t: Task)
    requires CanAdvance(t) && t.life.EnterAborting?
    ensures var t' := TaskLifeCycle.Next(t);
            && (t.spec.gracefulTimeout <= 0 ==>
                  && t'.pending.Some? && t'.pending.value.phase == Failed && !t'.pending.value.byUser
                  && t'.graceful == t.graceful)
            && (t.spec.gracefulTimeout > 0 ==>
                  t'.pending.None? && t'.graceful && t'.life.OnAborting? && t'.phase == t.phase)
  {
  }
}
