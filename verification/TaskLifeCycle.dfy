/**
 The life cycle of one task context: the three loops of its goroutine, the request it is
 handling, and the row it owns. Timers, the channel the select statement picks and the result
 of a database statement are choices of the environment.
 */
module TaskLifeCycle {
  import opened Basics
  import opened TaskPhases

  type PoolId = string

  /** A task without parent is a master task. */
  const NO_PARENT: TaskId := ""

  datatype TaskSpec = TaskSpec(
    id: TaskId,
    parentId: TaskId,
    pool: PoolId,
    command: string,
    waitTimeout: int,
    heartbeatTimeout: int,
    executeTimeout: int,
    gracefulTimeout: int)
  {
    predicate IsMaster() { parentId == NO_PARENT }
  }

  /** How far SubmitTask got with the context. */
  datatype SubmitStage =
    | Created           // built, not yet counted as active
    | Counted           // holds a unit of the active-task counter
    | Refused           // its transaction failed and left nothing behind
    | CommitFailed      // its transaction failed only when it committed
    | Committed         // row, registry entry and queue entry exist
    | Destroyed         // given up
    | Accepted          // its life cycle was started

  /** Where the life cycle goroutine is. */
  datatype LifeStage =
    | Unstarted
    | OnWaiting
    | OnProcessing
    | EnterAborting
    | ForcedAborting    // no grace period: one forced request
    | OnAborting
    | Closing           // about to close the update and heartbeat channels
    | ShuttingDown      // about to close Done
    | Signalling        // about to offer the done event
    | Ended

  datatype Origin = FromCall(call: nat) | FromLoop

  /** A status to store: its phase, and whether it has any other column to set. */
  datatype Request = Request(phase: TaskPhase, columns: bool, byUser: bool, origin: Origin)

  const FORCED_SHUTDOWN := Request(Failed, false, false, FromLoop)
  const GRACEFUL_SHUTDOWN := Request(Aborting, false, false, FromLoop)

  datatype Task = Task(
    spec: TaskSpec,
    parent: Option<nat>,         // index of the parent's context
    submit: SubmitStage,
    life: LifeStage,
    phase: TaskPhase,            // the cached phase
    pending: Option<Request>,    // the request being handled
    cancelled: bool,             // its own main context was cancelled
    graceful: bool,              // graceful shutdown was signalled
    closed: bool,                // the update channel is closed
    done: bool,                  // Done is closed
    changes: nat,                // history: how often its row changed phase
    entered: bool,               // history: its row was set to processing
    place: Place,
    launches: nat)               // history: executors launched for it

  /** Where a context is on its way through its goroutine pool. */
  datatype Place = Unqueued | Queued | Held(worker: nat) | Released

  /** What the database did with a status update. */
  datatype Outcome =
    | Hit     // updated the row
    | Miss    // matched no row
    | Fault   // failed

  datatype LifeAct =
    | Take(call: nat)
    | WaitTimer
    | HeartbeatLost
    | ExecuteTimer
    | MainContextDone
    | GraceTimer
    | Handle(outcome: Outcome)
    | Advance

  datatype Effect = Effect(from: TaskPhase, to: TaskPhase)

  datatype Handled = Handled(task: Task, row: Option<TaskPhase>, effect: Option<Effect>)

  /** The condition of the loop the goroutine is in still holds. */
  predicate InLoop(t: Task) {
    || (t.life.OnWaiting? && t.phase.Waiting?)
    || (t.life.OnProcessing? && t.phase.Processing?)
    || (t.life.OnAborting? && t.phase.Aborting?)
  }

  /** The context is in one of its select statements. */
  predicate Listening(t: Task) {
    t.pending.None? && InLoop(t)
  }

  predicate CanFire(t: Task, act: LifeAct, mainDone: bool) {
    && Listening(t)
    && match act
       case WaitTimer => t.life.OnWaiting? && t.spec.waitTimeout > 0
       case HeartbeatLost => t.life.OnProcessing? && t.spec.heartbeatTimeout > 0
       case ExecuteTimer => t.life.OnProcessing? && t.spec.executeTimeout > 0
       case MainContextDone => (t.life.OnWaiting? || t.life.OnProcessing?) && mainDone
       case GraceTimer => t.life.OnAborting?
       case _ => false
  }

  /** What a loop asks for when a timer fires or the main context is done. */
  function LoopRequest(t: Task): Request {
    if t.life.OnProcessing? then GRACEFUL_SHUTDOWN else FORCED_SHUTDOWN
  }

  function Fire(t: Task): Task {
    t.(pending := Some(LoopRequest(t)))
  }

  /** The status names no column at all, so that no statement is sent. */
  predicate IsBlank(req: Request) {
    req.phase.Unset? && !req.columns
  }

  /** The statement may always fail; otherwise it updates one row unless the row is gone or there is nothing to set. */
  predicate CanHandle(t: Task, row: Option<TaskPhase>, outcome: Outcome) {
    && t.pending.Some?
    && match outcome
       case Hit => row.Some? && !IsBlank(t.pending.value)
       case Miss => row.None? || IsBlank(t.pending.value)
       case Fault => true
  }

  /** The answer of a repository that does not fail. */
  function Answer(row: Option<TaskPhase>, req: Request): Outcome {
    if row.None? || IsBlank(req) then Miss else Hit
  }

  predicate IsAllowed(t: Task) {
    t.pending.Some? && AllowPhaseTrans(t.phase, t.pending.value.phase, t.pending.value.byUser)
  }

  /** Handling the request loses the cached phase: the update matches no row, or is the scheduler's own and fails. */
  predicate LosesPhase(t: Task, outcome: Outcome) {
    IsAllowed(t) && (outcome.Miss? || (outcome.Fault? && !t.pending.value.byUser))
  }

  /** What the update statement makes of the row's phase; an unset phase names no column. */
  function Updated(row: TaskPhase, wanted: TaskPhase): TaskPhase {
    if wanted.Unset? then row else wanted
  }

  function HandleUpdateRequest(t: Task, row: Option<TaskPhase>, outcome: Outcome): Handled
    requires CanHandle(t, row, outcome)
  {
    var req := t.pending.value;
    var hit := IsAllowed(t) && outcome.Hit?;
    var lost := LosesPhase(t, outcome);
    var to := if hit then Updated(row.value, req.phase) else Unset;
    Handled(
      t.(pending := None,
         phase := if hit then to else if lost then Unset else t.phase,
         changes := if hit && to != row.value then t.changes + 1 else t.changes,
         entered := t.entered || (hit && to.Processing?)),
      if hit then Some(to) else row,
      if hit then Some(Effect(row.value, to)) else None)
  }

  predicate CanAdvance(t: Task) {
    && t.pending.None?
    && !InLoop(t)
    && !t.life.Unstarted?
    && !t.life.Ended?
  }

  /** The statement that follows in the goroutine. */
  function NextStage(t: Task): LifeStage {
    match t.life
    case OnWaiting => OnProcessing
    case OnProcessing => EnterAborting
    case EnterAborting => if t.spec.gracefulTimeout <= 0 then ForcedAborting else OnAborting
    case ForcedAborting => Closing
    case OnAborting => Closing
    case Closing => ShuttingDown
    case ShuttingDown => Signalling
    case Signalling => Ended
    case _ => t.life
  }

  /**
   Leaving processing cancels the main context; aborting signals graceful shutdown, at once when
   there is a grace period and after one forced request when there is none.
   */
  function Next(t: Task): Task
    requires CanAdvance(t)
  {
    var stage := NextStage(t);
    t.(life := stage,
       cancelled := t.cancelled || stage.EnterAborting?,
       graceful := t.graceful || stage.OnAborting? || stage.Closing?,
       closed := t.closed || stage.ShuttingDown?,
       done := t.done || stage.Signalling?,
       pending := if stage.ForcedAborting? then Some(FORCED_SHUTDOWN) else None)
  }

  /** The life cycle goroutine has been started. */
  predicate Started(t: Task) {
    !t.life.Unstarted?
  }

  /** The task has left its processing loop. */
  predicate PastProcessing(t: Task) {
    Started(t) && !t.life.OnWaiting? && !t.life.OnProcessing?
  }

  /** The task has left its aborting loop. */
  predicate PastAborting(t: Task) {
    t.life.Closing? || Unheard(t)
  }

  /** The update channel has been closed. */
  predicate Unheard(t: Task) {
    t.life.ShuttingDown? || t.life.Signalling? || t.life.Ended?
  }

  /** What the position in the goroutine says about the channels and contexts. */
  predicate FlagsInv(t: Task) {
    && (Started(t) <==> t.submit.Accepted?)
    && (PastProcessing(t) ==> t.cancelled)
    && (t.life.OnAborting? || PastAborting(t) ==> t.graceful)
    && (t.closed <==> Unheard(t))
    && (t.done <==> t.life.Signalling? || t.life.Ended? || t.submit.Destroyed?)
    && (t.submit.Destroyed? ==> t.cancelled && t.graceful)
  }

  /** What the position says about the cached phase and the request in hand. */
  predicate PhaseInv(t: Task) {
    && (t.phase.Unset? || IsStored(t.phase))
    && (!Started(t) ==> t.phase.Waiting? && t.changes == 0 && !t.entered)
    && (Started(t) && !t.life.OnWaiting? ==> !t.phase.Waiting?)
    && (PastProcessing(t) ==> !t.phase.Processing?)
    && (PastAborting(t) ==> !t.phase.Aborting?)
    && (t.life.ForcedAborting? && t.pending.None? ==> !t.phase.Aborting?)
    && (t.pending.Some? ==>
          && (InLoop(t) || t.life.ForcedAborting?)
          && (t.life.ForcedAborting? || t.pending.value.origin.FromLoop? ==> t.pending.value == LoopRequest(t)))
    && (!t.phase.Unset? ==> t.changes <= Weight(t.phase))
  }

  /** The cached phase and the stored row agree; a finished row is never forgotten. */
  predicate RowInv(t: Task, row: Option<TaskPhase>) {
    row.Some? ==>
      && IsStored(row.value)
      && (t.phase == row.value || (t.phase.Unset? && !IsFinished(row.value)))
      && t.changes <= Weight(row.value)
      && (row.value == Processing ==> t.entered)
  }

  predicate TaskInv(t: Task, row: Option<TaskPhase>) {
    FlagsInv(t) && PhaseInv(t) && RowInv(t, row)
  }

  /** Until its life cycle starts, a context moves through SubmitTask with a waiting row or none. */
  lemma SubmitKeepsInv(t: Task, stage: SubmitStage, place: Place, row: Option<TaskPhase>)
    requires FlagsInv(t) && PhaseInv(t) && !Started(t) && !t.done
    requires !stage.Accepted? && !stage.Destroyed?
    requires row == None || row == Some(Waiting)
    ensures TaskInv(t.(submit := stage, place := place), row)
  {
  }

  lemma FireKeepsInv(t: Task, act: LifeAct, mainDone: bool, row: Option<TaskPhase>)
    requires TaskInv(t, row) && CanFire(t, act, mainDone)
    ensures TaskInv(Fire(t), row)
  {
  }

  lemma TakeKeepsInv(t: Task, req: Request, row: Option<TaskPhase>)
    requires TaskInv(t, row) && Listening(t) && req.origin.FromCall?
    ensures TaskInv(t.(pending := Some(req)), row)
  {
  }

  lemma AdvanceKeepsInv(t: Task, row: Option<TaskPhase>)
    requires TaskInv(t, row) && CanAdvance(t)
    ensures TaskInv(Next(t), row)
  {
  }

  /** The effect of one request on the row is what the design permits. */
  lemma HandlePermitted(t: Task, row: Option<TaskPhase>, outcome: Outcome)
    requires TaskInv(t, row) && CanHandle(t, row, outcome)
    ensures var h := HandleUpdateRequest(t, row, outcome);
            && (h.row.Some? <==> row.Some?)
            && (h.effect.None? ==> h.row == row)
            && (h.effect.Some? ==>
                  && row.Some?
                  && h.effect.value == Effect(row.value, h.row.value)
                  && Permitted(row.value, h.row.value, t.pending.value.byUser)
                  && (t.pending.value.origin.FromLoop? ==> h.row == Some(t.pending.value.phase)))
  {
  }

  /**
   What becomes of a request when the cached phase is that of the row. A permitted one that names a column
   takes effect: row and cached phase are as asked, reported as one effect. Without a column, or when the
   scheduler's own statement fails, the row stays and the cached phase is lost; a user's failing statement
   changes nothing. A request that is not permitted changes nothing at all.
   */
  lemma HandleTakesEffect(t: Task, row: TaskPhase, outcome: Outcome)
    requires TaskInv(t, Some(row)) && CanHandle(t, Some(row), outcome) && t.phase == row
    ensures var req, h := t.pending.value, HandleUpdateRequest(t, Some(row), outcome);
            var to := if req.phase.Unset? then row else req.phase;
            && h.task.(phase := row, changes := t.changes, entered := t.entered) == t.(pending := None)
            && if !Permitted(row, to, req.byUser) || (outcome.Fault? && req.byUser) then
                 h == Handled(t.(pending := None), Some(row), None)
               else if outcome.Fault? || (req.phase.Unset? && !req.columns) then
                 h == Handled(t.(pending := None, phase := Unset), Some(row), None)
               else
                 && h.row == Some(to) && h.task.phase == to && h.effect == Some(Effect(row, to))
                 && h.task.changes == (if to == row then t.changes else t.changes + 1)
                 && (h.task.entered <==> t.entered || to.Processing?)
  {
    AllowIsPermitted(row, t.pending.value.phase, t.pending.value.byUser);
  }

  /** Once the cached phase is lost, only a request to finish, or one that names no phase, reaches the row. */
  lemma HandleWhenLost(t: Task, row: TaskPhase, outcome: Outcome)
    requires TaskInv(t, Some(row)) && CanHandle(t, Some(row), outcome) && t.phase.Unset?
    ensures var req, h := t.pending.value, HandleUpdateRequest(t, Some(row), outcome);
            && (h.effect.Some? <==>
                  && !outcome.Fault?
                  && (req.phase.Succeed? || req.phase.Failed? || req.phase.PartiallyFailed?
                      || (req.phase.Unset? && req.columns)))
            && (h.effect.Some? ==>
                  var to := if req.phase.Unset? then row else req.phase;
                  h.row == Some(to) && h.task.phase == to && h.effect == Some(Effect(row, to)))
            && (h.effect.None? ==> h.row == Some(row) && h.task.phase.Unset?)
  {
  }

  /** Handling a request keeps the invariant. */
  lemma HandleKeepsInv(t: Task, row: Option<TaskPhase>, outcome: Outcome)
    requires TaskInv(t, row) && CanHandle(t, row, outcome)
    ensures var h := HandleUpdateRequest(t, row, outcome);
            TaskInv(h.task, h.row)
  {
    var req := t.pending.value;
    var h := HandleUpdateRequest(t, row, outcome);
    HandlePermitted(t, row, outcome);
    if h.effect.Some? {
      PermittedGains(row.value, h.row.value, req.byUser);
    }
  }
}
