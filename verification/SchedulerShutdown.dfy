/** Cancellation cascades down the task tree, and a cancelled task can always come to its end. */
module SchedulerShutdown {
  import opened Basics
  import opened TaskPhases
  import opened TaskLifeCycle
  import opened SchedulerState
  import opened SchedulerTasks
  import opened SchedulerResults

  // ---------- the cascade ----------

  /** Context d is context c or was derived from it, directly or through others. */
  ghost predicate Descends(ctxs: seq<Task>, d: nat, c: nat)
    requires d < |ctxs|
    decreases d
  {
    d == c
    || (ctxs[d].parent.Some? && ctxs[d].parent.value < d && Descends(ctxs, ctxs[d].parent.value, c))
  }

  lemma {:induction false} Cascade(ctxs: seq<Task>, rootDone: bool, c: nat, d: nat)
    requires c < |ctxs| && d < |ctxs| && Descends(ctxs, d, c) && MainDone(ctxs, rootDone, c)
    ensures MainDone(ctxs, rootDone, d)
    decreases d
  {
    if d != c {
      Cascade(ctxs, rootDone, c, ctxs[d].parent.value);
    }
  }

  /** Once a task has left processing, the main context of every descendant is done. */
  lemma DescendantsAreDone(k: Config, run: seq<State>, steps: seq<Step>, i: nat, c: nat, d: nat)
    requires IsRun(k, run, steps) && i < |run|
    requires c < |run[i].ctxs| && d < |run[i].ctxs|
    requires PastProcessing(run[i].ctxs[c]) && Descends(run[i].ctxs, d, c)
    ensures MainDone(run[i].ctxs, run[i].rootDone, d)
  {
    RunKeepsCore(k, run, steps, i);
    assert TaskInv(run[i].ctxs[c], RowOf(run[i], c));
    Cascade(run[i].ctxs, run[i].rootDone, c, d);
  }

  /** Contexts only gain cancellations and keep their parents. */
  ghost predicate Cancels(ctxs: seq<Task>, ctxs': seq<Task>) {
    && |ctxs| <= |ctxs'|
    && forall c | 0 <= c < |ctxs| ::
         ctxs'[c].parent == ctxs[c].parent && (ctxs[c].cancelled ==> ctxs'[c].cancelled)
  }

  lemma {:induction false} DoneStays(ctxs: seq<Task>, ctxs': seq<Task>, rootDone: bool, c: nat)
    requires c < |ctxs| && Cancels(ctxs, ctxs') && MainDone(ctxs, rootDone, c)
    ensures MainDone(ctxs', rootDone, c)
    decreases c
  {
    if !ctxs[c].cancelled && ctxs[c].parent.Some? {
      DoneStays(ctxs, ctxs', rootDone, ctxs[c].parent.value);
    }
  }

  /** A context's main context is derived from that of the task with its parent's id; a master's from the root. */
  ghost predicate TreeInv(ctxs: seq<Task>) {
    forall c | 0 <= c < |ctxs| ::
      && (ctxs[c].parent.None? <==> ctxs[c].spec.IsMaster())
      && (ctxs[c].parent.Some? ==>
            ctxs[c].parent.value < c && ctxs[ctxs[c].parent.value].spec.id == ctxs[c].spec.parentId)
  }

  lemma CreateKeepsTree(s: State, spec: TaskSpec)
    requires CoreInv(s) && TreeInv(s.ctxs) && CanCreate(s, spec)
    ensures TreeInv(Create(s, spec).ctxs)
  {
    assert !spec.IsMaster() ==> s.ctxs[s.active[spec.parentId]].spec.id == spec.parentId;
  }

  lemma KeptTree(s: State, s': State)
    requires TreeInv(s.ctxs) && SpecsKept(s, s') && |s'.ctxs| == |s.ctxs|
    ensures TreeInv(s'.ctxs)
  {
  }

  lemma StepKeepsTree(k: Config, s: State, step: Step)
    requires CoreInv(s) && TreeInv(s.ctxs) && Enabled(k, s, step)
    ensures TreeInv(Apply(k, s, step).ctxs)
  {
    if step.Creating? {
      CreateKeepsTree(s, step.spec);
    } else {
      StepKeepsSpecs(k, s, step);
      KeptTree(s, Apply(k, s, step));
    }
  }

  /** In every reachable state the tree of contexts is the tree of the tasks' parent ids. */
  lemma {:induction false} TreeFollowsIds(k: Config, run: seq<State>, steps: seq<Step>, i: nat)
    requires IsRun(k, run, steps) && i < |run|
    ensures TreeInv(run[i].ctxs)
  {
    if i > 0 {
      TreeFollowsIds(k, run, steps, i - 1);
      RunKeepsCore(k, run, steps, i - 1);
      assert StepAt(k, run, steps, i - 1);
      StepKeepsTree(k, run[i - 1], steps[i - 1]);
    }
  }

  /** Cancelling a task ends the main context of the whole tree below it. */
  lemma CancelReachesTree(s: State, c: nat, d: nat)
    requires c < |s.ctxs| && d < |s.ctxs| && Descends(s.ctxs, d, c)
    ensures var s' := Cancel(s, c); |s'.ctxs| == |s.ctxs| && MainDone(s'.ctxs, s'.rootDone, d)
  {
    var s' := Cancel(s, c);
    DescendsStays(s.ctxs, s'.ctxs, d, c);
    Cascade(s'.ctxs, s'.rootDone, c, d);
  }

  lemma {:induction false} DescendsStays(ctxs: seq<Task>, ctxs': seq<Task>, d: nat, c: nat)
    requires d < |ctxs| == |ctxs'| && Descends(ctxs, d, c)
    requires forall e | 0 <= e < |ctxs| :: ctxs'[e].parent == ctxs[e].parent
    ensures Descends(ctxs', d, c)
    decreases d
  {
    if d != c {
      DescendsStays(ctxs, ctxs', ctxs[d].parent.value, c);
    }
  }

  /** Stopping the scheduler's own context ends every main context. */
  lemma {:induction false} RootReachesAll(ctxs: seq<Task>, c: nat)
    requires c < |ctxs| && TreeInv(ctxs)
    ensures MainDone(ctxs, true, c)
    decreases c
  {
    if ctxs[c].parent.Some? {
      RootReachesAll(ctxs, ctxs[c].parent.value);
    }
  }

  // ---------- coming to an end ----------

  function PhaseDistance(p: TaskPhase): nat {
    match p
    case Waiting => 4
    case Processing => 3
    case Aborting => 2
    case Unset => 1
    case _ => 0
  }

  function StageDistance(t: Task): nat {
    match t.life
    case Unstarted => 9
    case OnWaiting => 8
    case OnProcessing => 7
    case EnterAborting => 6
    case ForcedAborting => if t.pending.Some? then 5 else 4
    case OnAborting => 4
    case Closing => 3
    case ShuttingDown => 2
    case Signalling => 1
    case Ended => 0
  }

  /** How far a life cycle still has to go. */
  function Distance(t: Task): nat {
    PhaseDistance(t.phase) + StageDistance(t)
  }

  lemma HandleShrinks(t: Task, row: Option<TaskPhase>, outcome: Outcome)
    requires TaskInv(t, row) && CanHandle(t, row, outcome)
    ensures var t' := HandleUpdateRequest(t, row, outcome).task;
            && t'.life == t.life
            && (t'.phase == t.phase || PhaseDistance(t'.phase) < PhaseDistance(t.phase))
  {
  }

  // ---------- how often a life cycle moves ----------

  /** The task's phase or its position in the goroutine changes in this step. */
  predicate Moves(s: State, s': State, c: nat) {
    c < |s.ctxs| && c < |s'.ctxs| && (s'.ctxs[c].phase != s.ctxs[c].phase || s'.ctxs[c].life != s.ctxs[c].life)
  }

  /** How many steps of the run between i and j move the task. */
  function Moved(run: seq<State>, c: nat, i: nat, j: nat): nat
    requires i <= j < |run|
    decreases j
  {
    if i == j then 0 else Moved(run, c, i, j - 1) + if Moves(run[j - 1], run[j], c) then 1 else 0
  }

  lemma LiveShrinks(s: State, d: nat, act: LifeAct, c: nat)
    requires CoreInv(s) && CanLive(s, d, act) && c < |s.ctxs|
    ensures var s' := Live(s, d, act);
            && c < |s'.ctxs|
            && Distance(s'.ctxs[c]) + (if Moves(s, s', c) then 1 else 0) <= Distance(s.ctxs[c])
  {
    assert TaskInv(s.ctxs[d], RowOf(s, d));
    if act.Handle? {
      HandleShrinks(s.ctxs[d], RowOf(s, d), act.outcome);
    }
  }

  lemma SubmitShrinks(k: Config, s: State, step: Step, c: nat)
    requires CoreInv(s) && Enabled(k, s, step) && c < |s.ctxs|
    requires step.Counting? || step.Transacting? || step.Finishing?
    ensures var s' := Apply(k, s, step);
            && c < |s'.ctxs|
            && Distance(s'.ctxs[c]) + (if Moves(s, s', c) then 1 else 0) <= Distance(s.ctxs[c])
  {
    assert TaskInv(s.ctxs[c], RowOf(s, c));
  }

  lemma OthersShrink(k: Config, s: State, step: Step, c: nat)
    requires Enabled(k, s, step) && c < |s.ctxs|
    requires !step.Living? && !step.Counting? && !step.Transacting? && !step.Finishing? && !step.Cleaning?
    ensures var s' := Apply(k, s, step);
            c < |s'.ctxs| && !Moves(s, s', c) && Distance(s'.ctxs[c]) == Distance(s.ctxs[c])
  {
  }

  /** Every step that moves the task brings it nearer to its end, and no step takes it further away. */
  lemma StepShrinks(k: Config, s: State, step: Step, c: nat)
    requires CoreInv(s) && Enabled(k, s, step) && c < |s.ctxs|
    ensures var s' := Apply(k, s, step);
            && c < |s'.ctxs|
            && Distance(s'.ctxs[c]) + (if Moves(s, s', c) then 1 else 0) <= Distance(s.ctxs[c])
  {
    if step.Living? {
      LiveShrinks(s, step.c, step.life, c);
    } else if step.Counting? || step.Transacting? || step.Finishing? {
      SubmitShrinks(k, s, step, c);
    } else if step.Cleaning? {
      CleanKeepsCached(k, s, step.clean, c);
    } else {
      OthersShrink(k, s, step, c);
    }
  }

  lemma RunStepShrinks(k: Config, run: seq<State>, steps: seq<Step>, i: nat, c: nat)
    requires IsRun(k, run, steps) && i < |steps| && c < |run[i].ctxs|
    ensures c < |run[i + 1].ctxs|
    ensures Distance(run[i + 1].ctxs[c]) + (if Moves(run[i], run[i + 1], c) then 1 else 0) <= Distance(run[i].ctxs[c])
  {
    RunKeepsCore(k, run, steps, i);
    assert StepAt(k, run, steps, i);
    StepShrinks(k, run[i], steps[i], c);
  }

  /** Along every run, however long, a life cycle changes its phase or its position at most thirteen times. */
  lemma {:induction false} LifeCyclesMoveSeldom(
    k: Config, run: seq<State>, steps: seq<Step>, i: nat, j: nat, c: nat)
    requires IsRun(k, run, steps) && i <= j < |run| && c < |run[i].ctxs|
    ensures c < |run[j].ctxs|
    ensures Moved(run, c, i, j) + Distance(run[j].ctxs[c]) <= Distance(run[i].ctxs[c]) <= 13
    decreases j
  {
    if i < j {
      LifeCyclesMoveSeldom(k, run, steps, i, j - 1, c);
      RunStepShrinks(k, run, steps, j - 1, c);
    }
  }

  /** The row of a task changes its phase at most three times. */
  lemma AtMostThreeChanges(k: Config, run: seq<State>, steps: seq<Step>, i: nat, c: nat)
    requires IsRun(k, run, steps) && i < |run| && c < |run[i].ctxs|
    requires RowOf(run[i], c).Some?
    ensures IsStored(RowOf(run[i], c).value)
    ensures run[i].ctxs[c].changes <= Weight(RowOf(run[i], c).value) <= 3
  {
    RunKeepsCore(k, run, steps, i);
    assert TaskInv(run[i].ctxs[c], RowOf(run[i], c));
  }

  /** The next step of a life cycle that listens to no caller. */
  ghost function NextAct(s: State, c: nat): LifeAct
    requires c < |s.ctxs|
  {
    var t := s.ctxs[c];
    if t.pending.Some? then Handle(Answer(RowOf(s, c), t.pending.value))
    else if !InLoop(t) then Advance
    else if t.life.OnAborting? then GraceTimer
    else MainContextDone
  }

  /** Distance, with the request in hand as the smaller part: the goroutine's own is nearest to the end. */
  ghost function FineDistance(t: Task): nat {
    3 * Distance(t)
    + (if t.pending.None? then 1 else if t.pending.value.origin.FromLoop? then 0 else 2)
  }

  lemma NextActShrinks(t: Task, row: Option<TaskPhase>)
    requires TaskInv(t, row) && t.pending.Some?
    ensures var outcome := Answer(row, t.pending.value);
            && CanHandle(t, row, outcome)
            && FineDistance(HandleUpdateRequest(t, row, outcome).task) < FineDistance(t)
  {
  }

  lemma AdvanceShrinks(t: Task)
    requires FlagsInv(t) && PhaseInv(t) && CanAdvance(t)
    ensures Started(TaskLifeCycle.Next(t))
    ensures FineDistance(TaskLifeCycle.Next(t)) < FineDistance(t)
  {
  }

  lemma FireShrinks(t: Task)
    requires Listening(t)
    ensures FineDistance(Fire(t)) < FineDistance(t)
  {
  }

  lemma NextActEnabled(s: State, c: nat)
    requires CoreInv(s) && c < |s.ctxs| && Started(s.ctxs[c]) && !s.ctxs[c].life.Ended?
    requires MainDone(s.ctxs, s.rootDone, c)
    ensures CanLive(s, c, NextAct(s, c))
  {
  }

  /** The task after a step of its life cycle. */
  ghost function TaskAfter(s: State, c: nat, act: LifeAct): Task
    requires CanLive(s, c, act) && !act.Take?
  {
    if act.Handle? then HandleUpdateRequest(s.ctxs[c], RowOf(s, c), act.outcome).task
    else if act.Advance? then TaskLifeCycle.Next(s.ctxs[c])
    else Fire(s.ctxs[c])
  }

  lemma LiveTask(s: State, c: nat, act: LifeAct)
    requires CanLive(s, c, act) && !act.Take?
    ensures Live(s, c, act).ctxs == s.ctxs[c := TaskAfter(s, c, act)]
  {
  }

  lemma DrainStep(s: State, c: nat)
    requires CoreInv(s) && c < |s.ctxs| && CanLive(s, c, NextAct(s, c))
    ensures Started(TaskAfter(s, c, NextAct(s, c)))
    ensures FineDistance(TaskAfter(s, c, NextAct(s, c))) < FineDistance(s.ctxs[c])
  {
    var t := s.ctxs[c];
    assert TaskInv(t, RowOf(s, c));
    if t.pending.Some? {
      NextActShrinks(t, RowOf(s, c));
    } else if !InLoop(t) {
      AdvanceShrinks(t);
    } else {
      FireShrinks(t);
    }
  }

  /** Steps of context c alone that bring it to its end. */
  ghost predicate Drains(s: State, c: nat, acts: seq<LifeAct>)
    requires c < |s.ctxs|
    decreases |acts|
  {
    if acts == [] then
      s.ctxs[c].life.Ended?
    else
      && CanLive(s, c, acts[0])
      && c < |Live(s, c, acts[0]).ctxs|
      && Drains(Live(s, c, acts[0]), c, acts[1..])
  }

  lemma DrainsFrom(s: State, c: nat, act: LifeAct, rest: seq<LifeAct>)
    requires c < |s.ctxs| && CanLive(s, c, act) && c < |Live(s, c, act).ctxs|
    requires Drains(Live(s, c, act), c, rest)
    ensures Drains(s, c, [act] + rest)
  {
  }

  lemma DrainOnce(s: State, c: nat)
    requires CoreInv(s) && c < |s.ctxs| && Started(s.ctxs[c]) && MainDone(s.ctxs, s.rootDone, c)
    requires !s.ctxs[c].life.Ended?
    ensures CanLive(s, c, NextAct(s, c))
    ensures var s' := Live(s, c, NextAct(s, c));
            && CoreInv(s') && c < |s'.ctxs| && Started(s'.ctxs[c]) && MainDone(s'.ctxs, s'.rootDone, c)
            && FineDistance(s'.ctxs[c]) < FineDistance(s.ctxs[c])
  {
    var act := NextAct(s, c);
    NextActEnabled(s, c);
    DrainStep(s, c);
    LiveTask(s, c, act);
    LiveKeepsCore(s, c, act);
    LiveKeepsDone(s, c, act);
  }

  /**
   From every reachable state a started task whose main context is done can come to its end by
   its own steps alone, whatever callers, workers and other tasks do, and in a bounded number.
   */
  lemma {:induction false} CancelledTaskCanEnd(s: State, c: nat)
    requires CoreInv(s) && c < |s.ctxs| && Started(s.ctxs[c]) && MainDone(s.ctxs, s.rootDone, c)
    ensures exists acts :: Drains(s, c, acts) && |acts| <= FineDistance(s.ctxs[c])
    ensures FineDistance(s.ctxs[c]) <= 41
    decreases FineDistance(s.ctxs[c])
  {
    if s.ctxs[c].life.Ended? {
      assert Drains(s, c, []);
    } else {
      var act := NextAct(s, c);
      DrainOnce(s, c);
      var s' := Live(s, c, act);
      CancelledTaskCanEnd(s', c);
      var rest :| Drains(s', c, rest) && |rest| <= FineDistance(s'.ctxs[c]);
      DrainsFrom(s, c, act, rest);
    }
  }

  lemma LiveKeepsDone(s: State, c: nat, act: LifeAct)
    requires CanLive(s, c, act) && MainDone(s.ctxs, s.rootDone, c)
    ensures var s' := Live(s, c, act);
            |s'.ctxs| == |s.ctxs| && MainDone(s'.ctxs, s'.rootDone, c)
  {
    DoneStays(s.ctxs, Live(s, c, act).ctxs, s.rootDone, c);
  }

  /** Timers and cancellation only ever abort a processing task and fail any other. */
  lemma LoopRequestsOnlyStop(s: State, c: nat, outcome: Outcome)
    requires CoreInv(s) && CanLive(s, c, Handle(outcome)) && s.ctxs[c].pending.value.origin.FromLoop?
    ensures var row, row' := RowOf(s, c), RowOf(LiveHandle(s, c, outcome), c);
            row' == row
            || (row.Some? && !IsFinished(row.value)
                && row' == Some(if s.ctxs[c].life.OnProcessing? then Aborting else Failed))
  {
    assert TaskInv(s.ctxs[c], RowOf(s, c));
    HandlePermitted(s.ctxs[c], RowOf(s, c), outcome);
  }
}
