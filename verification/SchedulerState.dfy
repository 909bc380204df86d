/**
 The task scheduler as a step machine. Every goroutine of the source is an agent here:
 submitters, life cycles, callers of UpdateStatus, pool workers and the history cleaner.
 One step is one action that other goroutines can observe. Database transactions are serial,
 because the scheduler's database has a single connection.
 */
module SchedulerState {
  import opened Basics
  import opened TaskPhases
  import opened TaskLifeCycle

  datatype PoolSpec = PoolSpec(maxConcurrency: nat, maxCapacity: nat)

  datatype Config = Config(
    maxHistory: int,
    maxActive: int,
    maxRows: int,
    pools: map<PoolId, PoolSpec>)

  datatype Row = Row(phase: TaskPhase, parentId: TaskId)

  datatype CallResult = Nil | NoRowsAffected | TimedOut | Panicked

  datatype CallStage =
    | Sending
    | Awaiting(rows: Option<nat>)
    | Returned(result: CallResult)

  /** One call of UpdateStatus; effect records what the database did for it. */
  datatype Call = Call(
    ctx: nat, phase: TaskPhase, columns: bool, byUser: bool, stage: CallStage, effect: Option<Effect>)

  datatype Worker =
    | Idle                             // about to look at its queue
    | Parked                           // blocked in its receive
    | Handed(ctx: nat)                 // has received a task
    | Starting(ctx: nat, call: nat)    // asks for phase processing
    | Reporting(ctx: nat, call: nat)   // found no executor factory and asks once more
    | Running(ctx: nat)                // waits for the task's Done

  datatype Cleaner =
    | Resting
    | Querying
    | Sweeping(all: seq<TaskId>, tasks: seq<TaskId>, todo: seq<TaskId>)   // still to visit, still to unregister
    | Trimming(all: seq<TaskId>)

  datatype State = State(
    rows: map<TaskId, Row>,
    ctxs: seq<Task>,               // every context ever built, oldest first
    active: map<TaskId, nat>,      // activeTaskContexts
    count: int,                    // activeTaskCount
    queues: map<PoolId, seq<nat>>,
    workers: map<PoolId, seq<Worker>>,
    calls: seq<Call>,
    token: bool,                   // taskDone, a channel of capacity one
    cleaner: Cleaner,
    rootDone: bool,
    stranded: nat,                 // history: registry entries left by failed commits
    overwritten: nat,              // history: registry entries lost to a later store
    skipped: set<TaskId>)          // history: masters the cleaner passed over on a failed read

  // ---------- reading the state ----------

  /** The context's transaction committed, so the row with its id is its own. */
  predicate Owns(t: Task) {
    t.submit.Committed? || t.submit.Accepted?
  }

  function RowOf(s: State, c: nat): Option<TaskPhase>
    requires c < |s.ctxs|
  {
    var t := s.ctxs[c];
    if Owns(t) && t.spec.id in s.rows then Some(s.rows[t.spec.id].phase) else None
  }

  /** A context derived from another is done when that one is. */
  predicate MainDone(ctxs: seq<Task>, rootDone: bool, c: nat)
    requires c < |ctxs|
    decreases c
  {
    || ctxs[c].cancelled
    || (match ctxs[c].parent
        case Some(p) => p < c && MainDone(ctxs, rootDone, p)
        case None => rootDone)
  }

  /** No context with this id ever got a row: ids are not used twice. */
  ghost predicate FreshId(s: State, id: TaskId) {
    forall c | 0 <= c < |s.ctxs| && Owns(s.ctxs[c]) :: s.ctxs[c].spec.id != id
  }

  predicate IsFinishedMaster(s: State, id: TaskId) {
    id in s.rows && s.rows[id].parentId == NO_PARENT && IsFinished(s.rows[id].phase)
  }

  // ---------- submitting ----------

  datatype TxResult =
    | Rejects          // counting or creating failed, or a limit was met
    | DispatchFails    // stored and removed again
    | CommitFails(to: Dispatch)
    | Commits(to: Dispatch)

  /** A channel hands its element to a blocked receiver, or buffers it when nobody waits. */
  datatype Dispatch = ToQueue | ToWorker(worker: nat)

  predicate CanCreate(s: State, spec: TaskSpec) {
    && spec.id != ""
    && (spec.IsMaster() || spec.parentId in s.active)
  }

  function NewTask(spec: TaskSpec, parent: Option<nat>): Task {
    Task(spec, parent, Created, Unstarted, Waiting, None, false, false, false, false, 0, false, Unqueued, 0)
  }

  function Create(s: State, spec: TaskSpec): State
    requires CanCreate(s, spec)
  {
    var parent := if spec.IsMaster() then None else Some(s.active[spec.parentId]);
    s.(ctxs := s.ctxs + [NewTask(spec, parent)])
  }

  predicate AtStage(s: State, c: nat, stage: SubmitStage) {
    c < |s.ctxs| && s.ctxs[c].submit == stage
  }

  predicate CanCount(k: Config, s: State, c: nat) {
    AtStage(s, c, Created) && s.count < k.maxActive
  }

  function Count(s: State, c: nat): State
    requires AtStage(s, c, Created)
  {
    s.(ctxs := s.ctxs[c := s.ctxs[c].(submit := Counted)], count := s.count + 1)
  }

  predicate HasPool(s: State, pool: PoolId) {
    pool in s.queues && pool in s.workers
  }

  ghost predicate HasParked(s: State, pool: PoolId)
    requires HasPool(s, pool)
  {
    exists w :: 0 <= w < |s.workers[pool]| && s.workers[pool][w].Parked?
  }

  /** How a non-blocking send to the pool's channel can succeed. A channel without buffer needs a blocked worker. */
  ghost predicate CanDispatch(k: Config, s: State, pool: PoolId, to: Dispatch) {
    && pool in k.pools && HasPool(s, pool)
    && match to
       case ToWorker(w) => w < |s.workers[pool]| && s.workers[pool][w].Parked?
       case ToQueue => |s.queues[pool]| < k.pools[pool].maxCapacity && !HasParked(s, pool)
  }

  ghost predicate CanTransact(k: Config, s: State, c: nat, result: TxResult) {
    && AtStage(s, c, Counted)
    && var spec := s.ctxs[c].spec;
       && (!result.Rejects? ==> |s.rows| < k.maxRows && spec.id !in s.rows && FreshId(s, spec.id))
       && match result
          case Rejects => true
          case DispatchFails => forall to: Dispatch :: !CanDispatch(k, s, spec.pool, to)
          case CommitFails(to) => CanDispatch(k, s, spec.pool, to)
          case Commits(to) => CanDispatch(k, s, spec.pool, to)
  }

  predicate Dispatched(result: TxResult) {
    result.CommitFails? || result.Commits?
  }

  /** The worker that takes the task over, if one was blocked. */
  predicate HandsOver(result: TxResult) {
    Dispatched(result) && result.to.ToWorker?
  }

  predicate ReachesPool(s: State, pool: PoolId, result: TxResult) {
    && (Dispatched(result) ==> HasPool(s, pool))
    && (HandsOver(result) ==> result.to.worker < |s.workers[pool]|)
  }

  function Transact(s: State, c: nat, result: TxResult): State
    requires AtStage(s, c, Counted) && ReachesPool(s, s.ctxs[c].spec.pool, result)
  {
    var t := s.ctxs[c];
    var id, pool := t.spec.id, t.spec.pool;
    var dispatched, handed := Dispatched(result), HandsOver(result);
    var stage := if result.Commits? then Committed else if result.CommitFails? then CommitFailed else Refused;
    s.(ctxs := s.ctxs[c := t.(submit := stage,
                              place := if handed then Held(result.to.worker) else if dispatched then Queued else t.place)],
       rows := if result.Commits? then s.rows[id := Row(Waiting, t.spec.parentId)] else s.rows,
       active := if dispatched then s.active[id := c] else if result.DispatchFails? then s.active - {id} else s.active,
       queues := if dispatched && !handed then s.queues[pool := s.queues[pool] + [c]] else s.queues,
       workers := if handed then s.workers[pool := s.workers[pool][result.to.worker := Handed(c)]] else s.workers,
       overwritten := if id in s.active && !result.Rejects? then s.overwritten + 1 else s.overwritten)
  }

  predicate CanFinish(s: State, c: nat) {
    AtStage(s, c, Committed) || AtStage(s, c, Refused) || AtStage(s, c, CommitFailed)
  }

  function Finish(s: State, c: nat): State
    requires CanFinish(s, c)
  {
    var t := s.ctxs[c];
    var ok := t.submit.Committed?;
    s.(ctxs := s.ctxs[c := t.(submit := if ok then Accepted else Destroyed,
                              life := if ok then OnWaiting else t.life,
                              cancelled := t.cancelled || !ok,
                              graceful := t.graceful || !ok,
                              done := t.done || !ok)],
       count := if ok then s.count else s.count - 1,
       stranded := if t.submit.CommitFailed? then s.stranded + 1 else s.stranded)
  }

  // ---------- the life cycle of a context ----------

  predicate CanLive(s: State, c: nat, act: LifeAct) {
    && c < |s.ctxs|
    && var t := s.ctxs[c];
       && Started(t)
       && match act
          case Take(call) =>
            Listening(t) && call < |s.calls| && s.calls[call].ctx == c && s.calls[call].stage.Sending?
          case Handle(outcome) =>
            CanHandle(t, RowOf(s, c), outcome)
          case Advance => CanAdvance(t)
          case _ => CanFire(t, act, MainDone(s.ctxs, s.rootDone, c))
  }

  function WithTask(s: State, c: nat, t: Task): State
    requires c < |s.ctxs|
  {
    s.(ctxs := s.ctxs[c := t])
  }

  function LiveTake(s: State, c: nat, call: nat): State
    requires CanLive(s, c, Take(call))
  {
    var k := s.calls[call];
    s.(ctxs := s.ctxs[c := s.ctxs[c].(pending := Some(Request(k.phase, k.columns, k.byUser, FromCall(call))))],
       calls := s.calls[call := k.(stage := Awaiting(None))])
  }

  /** The answer to a request; a caller that gave up no longer hears it. */
  function Answered(calls: seq<Call>, req: Request, effect: Option<Effect>): seq<Call> {
    match req.origin
    case FromLoop => calls
    case FromCall(call) =>
      if call < |calls| then
        var k := calls[call];
        calls[call := k.(stage := if k.stage == Awaiting(None)
                                  then Awaiting(Some(if effect.Some? then 1 else 0))
                                  else k.stage,
                         effect := effect)]
      else
        calls
  }

  function LiveHandle(s: State, c: nat, outcome: Outcome): State
    requires CanLive(s, c, Handle(outcome))
  {
    var t := s.ctxs[c];
    var h := HandleUpdateRequest(t, RowOf(s, c), outcome);
    var id := t.spec.id;
    s.(ctxs := s.ctxs[c := h.task],
       rows := if h.effect.Some? then s.rows[id := s.rows[id].(phase := h.effect.value.to)] else s.rows,
       calls := Answered(s.calls, t.pending.value, h.effect))
  }

  /** Ending a master offers the done event; a full channel drops it. */
  function LiveAdvance(s: State, c: nat): State
    requires CanLive(s, c, Advance)
  {
    var t := s.ctxs[c];
    s.(ctxs := s.ctxs[c := TaskLifeCycle.Next(t)],
       token := s.token || (t.life.Signalling? && t.spec.IsMaster()))
  }

  function Live(s: State, c: nat, act: LifeAct): State
    requires CanLive(s, c, act)
  {
    match act
    case Take(call) => LiveTake(s, c, call)
    case Handle(outcome) => LiveHandle(s, c, outcome)
    case Advance => LiveAdvance(s, c)
    case _ => WithTask(s, c, Fire(s.ctxs[c]))
  }

  // ---------- callers of UpdateStatus ----------

  datatype CallAct = GiveUp | Panic | Receive

  function NewCall(c: nat, phase: TaskPhase, columns: bool, byUser: bool): Call {
    Call(c, phase, columns, byUser, Sending, None)
  }

  function UserCall(s: State, c: nat, phase: TaskPhase, columns: bool): State {
    s.(calls := s.calls + [NewCall(c, phase, columns, true)])
  }

  predicate CanCallStep(s: State, call: nat, act: CallAct) {
    && call < |s.calls|
    && s.calls[call].ctx < |s.ctxs|
    && match act
       case GiveUp => !s.calls[call].stage.Returned?
       case Panic => s.calls[call].stage.Sending? && s.ctxs[s.calls[call].ctx].closed
       case Receive => s.calls[call].stage.Awaiting? && s.calls[call].stage.rows.Some?
  }

  function CallStep(s: State, call: nat, act: CallAct): State
    requires CanCallStep(s, call, act)
  {
    var k := s.calls[call];
    var result := match act
      case GiveUp => TimedOut
      case Panic => Panicked
      case Receive => if k.stage.rows.value > 0 then Nil else NoRowsAffected;
    s.(calls := s.calls[call := k.(stage := Returned(result))])
  }

  function Cancel(s: State, c: nat): State
    requires c < |s.ctxs|
  {
    WithTask(s, c, s.ctxs[c].(cancelled := true))
  }

  // ---------- pool workers ----------

  datatype WorkAct = Dequeue | Ask | Launch | RunBare | MissFactory | Drop | Release

  predicate CanWork(s: State, p: PoolId, w: nat, act: WorkAct) {
    && HasPool(s, p)
    && w < |s.workers[p]|
    && match s.workers[p][w]
       case Idle => act.Dequeue? && s.queues[p] != [] && s.queues[p][0] < |s.ctxs|
       case Parked => false
       case Handed(c) => c < |s.ctxs| && act.Ask?
       case Starting(c, call) =>
         && c < |s.ctxs|
         && call < |s.calls|
         && s.calls[call].stage.Returned?
         && (if s.calls[call].stage.result.Nil?
             then act.RunBare? || ((act.Launch? || act.MissFactory?) && s.ctxs[c].spec.command != "")
             else act.Drop?)
       case Reporting(c, call) =>
         c < |s.ctxs| && call < |s.calls| && s.calls[call].stage.Returned? && act.Drop?
       case Running(c) =>
         c < |s.ctxs| && act.Release? && s.ctxs[c].done
  }

  /** The task a worker turns to or is busy with. */
  function WorkTask(s: State, p: PoolId, w: nat, act: WorkAct): (c: nat)
    requires CanWork(s, p, w, act)
    ensures c < |s.ctxs|
  {
    if s.workers[p][w].Idle? then s.queues[p][0] else s.workers[p][w].ctx
  }

  function Work(s: State, p: PoolId, w: nat, act: WorkAct): State
    requires CanWork(s, p, w, act)
  {
    var c := WorkTask(s, p, w, act);
    var t := s.ctxs[c];
    var busy := match act
      case Dequeue => Handed(c)
      case Ask => Starting(c, |s.calls|)
      case MissFactory => Reporting(c, |s.calls|)
      case Launch => Running(c)
      case RunBare => Running(c)
      case _ => Idle;
    s.(ctxs := s.ctxs[c := t.(place := if busy.Idle? then Released else Held(w),
                              launches := if act.Launch? then t.launches + 1 else t.launches)],
       queues := if act.Dequeue? then s.queues[p := s.queues[p][1..]] else s.queues,
       workers := s.workers[p := s.workers[p][w := busy]],
       calls := if act.Ask? || act.MissFactory? then s.calls + [NewCall(c, Processing, true, false)] else s.calls)
  }

  /** A worker that finds its queue empty blocks in its receive. */
  predicate CanPark(s: State, p: PoolId, w: nat) {
    HasPool(s, p) && s.queues[p] == [] && w < |s.workers[p]| && s.workers[p][w].Idle?
  }

  function Park(s: State, p: PoolId, w: nat): State
    requires CanPark(s, p, w)
  {
    s.(workers := s.workers[p := s.workers[p][w := Parked]])
  }

  // ---------- the history cleaner ----------

  datatype CleanAct =
    | Wake
    | Query(tasks: seq<TaskId>)
    | QueryFails
    | Visit(children: seq<TaskId>)
    | Pass
    | VisitFails
    | Unregister
    | EndSweep
    | DeleteRow(id: TaskId)
    | EndTrim

  /** The result of the query for finished masters, in any order. */
  ghost predicate ListsFinishedMasters(s: State, tasks: seq<TaskId>) {
    && (forall id :: id in tasks <==> IsFinishedMaster(s, id))
    && (forall i, j | 0 <= i < j < |tasks| :: tasks[i] != tasks[j])
  }

  ghost predicate ListsChildren(s: State, id: TaskId, children: seq<TaskId>) {
    forall x :: x in children <==> x in s.rows && s.rows[x].parentId == id
  }

  ghost predicate CanClean(k: Config, s: State, act: CleanAct) {
    match s.cleaner
    case Resting => act.Wake? && s.token
    case Querying => act.QueryFails? || (act.Query? && ListsFinishedMasters(s, act.tasks))
    case Sweeping(_, tasks, todo) =>
      if todo != [] then
        act.Unregister?
      else if tasks == [] then
        act.EndSweep?
      else if tasks[0] !in s.active then
        act.Pass?
      else
        act.VisitFails? || (act.Visit? && tasks[0] in s.rows && ListsChildren(s, tasks[0], act.children))
    case Trimming(all) =>
      || act.EndTrim?
      || (act.DeleteRow? && (act.id in all || (act.id in s.rows && s.rows[act.id].parentId in all)))
  }

  /**
   Trimming is kept loose: it may delete any row of any tree it listed, in any order, and stop
   at any time. Which rows it really deletes is the subject of module HistoryTrim.
   */
  ghost function Clean(k: Config, s: State, act: CleanAct): State
    requires CanClean(k, s, act)
  {
    match act
    case Wake => s.(cleaner := Querying, token := false)
    case Query(tasks) => s.(cleaner := Sweeping(tasks, tasks, []), skipped := {})
    case QueryFails =>
      s.(cleaner := Resting, skipped := s.skipped + (set id | id in s.active && IsFinishedMaster(s, id)))
    case EndSweep =>
      s.(cleaner := if |s.cleaner.all| <= k.maxHistory then Resting else Trimming(s.cleaner.all))
    case DeleteRow(id) => s.(rows := s.rows - {id})
    case EndTrim => s.(cleaner := Resting)
    case _ => Sweep(s, act)
  }

  ghost function Sweep(s: State, act: CleanAct): State
    requires s.cleaner.Sweeping?
    requires act.Unregister? || act.Visit? || act.Pass? || act.VisitFails?
    requires act.Unregister? <==> s.cleaner.todo != []
    requires !act.Unregister? ==> s.cleaner.tasks != []
  {
    var tasks, todo := s.cleaner.tasks, s.cleaner.todo;
    var leaving := act.Unregister? && todo[0] in s.active;
    s.(cleaner := s.cleaner.(tasks := if act.Unregister? then tasks else tasks[1..],
                             todo := if act.Unregister? then todo[1..]
                                     else if act.Visit? then act.children + [tasks[0]]
                                     else []),
       active := if leaving then s.active - {todo[0]} else s.active,
       count := if leaving then s.count - 1 else s.count,
       skipped := if act.VisitFails? then s.skipped + {tasks[0]} else s.skipped)
  }

  // ---------- the whole machine ----------

  datatype Step =
    | Creating(spec: TaskSpec)
    | Counting(c: nat)
    | Transacting(c: nat, result: TxResult)
    | Finishing(c: nat)
    | Living(c: nat, life: LifeAct)
    | UserCalling(c: nat, phase: TaskPhase, columns: bool)
    | Calling(call: nat, callAct: CallAct)
    | Working(p: PoolId, w: nat, work: WorkAct)
    | Parking(p: PoolId, w: nat)
    | Cancelling(c: nat)
    | StoppingRoot
    | Cleaning(clean: CleanAct)

  ghost predicate Enabled(k: Config, s: State, step: Step) {
    match step
    case Creating(spec) => CanCreate(s, spec)
    case Counting(c) => CanCount(k, s, c)
    case Transacting(c, result) => CanTransact(k, s, c, result)
    case Finishing(c) => CanFinish(s, c)
    case Living(c, act) => CanLive(s, c, act)
    case UserCalling(c, _, _) => c < |s.ctxs|
    case Calling(call, act) => CanCallStep(s, call, act)
    case Working(p, w, act) => CanWork(s, p, w, act)
    case Parking(p, w) => CanPark(s, p, w)
    case Cancelling(c) => c < |s.ctxs|
    case StoppingRoot => true
    case Cleaning(act) => CanClean(k, s, act)
  }

  ghost function Apply(k: Config, s: State, step: Step): State
    requires Enabled(k, s, step)
  {
    match step
    case Creating(spec) => Create(s, spec)
    case Counting(c) => Count(s, c)
    case Transacting(c, result) => Transact(s, c, result)
    case Finishing(c) => Finish(s, c)
    case Living(c, act) => Live(s, c, act)
    case UserCalling(c, phase, columns) => UserCall(s, c, phase, columns)
    case Calling(call, act) => CallStep(s, call, act)
    case Working(p, w, act) => Work(s, p, w, act)
    case Parking(p, w) => Park(s, p, w)
    case Cancelling(c) => Cancel(s, c)
    case StoppingRoot => s.(rootDone := true)
    case Cleaning(act) => Clean(k, s, act)
  }

  /** A fresh scheduler over the rows of an earlier run, which start marks as failed if unfinished. */
  ghost predicate Init(k: Config, s: State) {
    && (forall id | id in s.rows :: IsFinished(s.rows[id].phase))
    && s.ctxs == [] && s.active == map[] && s.count == 0 && s.calls == []
    && s.queues == (map p | p in k.pools :: [])
    && s.workers == (map p | p in k.pools :: seq(k.pools[p].maxConcurrency, _ => Idle))
    && !s.token && s.cleaner == Resting && !s.rootDone
    && s.stranded == 0 && s.overwritten == 0 && s.skipped == {}
  }

  ghost predicate StepAt(k: Config, run: seq<State>, steps: seq<Step>, i: nat)
    requires i < |steps| && |run| == |steps| + 1
  {
    Enabled(k, run[i], steps[i]) && run[i + 1] == Apply(k, run[i], steps[i])
  }

  /** A run: states joined by enabled steps. */
  ghost predicate IsRun(k: Config, run: seq<State>, steps: seq<Step>) {
    && |run| == |steps| + 1
    && Init(k, run[0])
    && forall i | 0 <= i < |steps| :: StepAt(k, run, steps, i)
  }
}
