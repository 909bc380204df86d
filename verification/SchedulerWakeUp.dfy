/** The done event is never lost: every finished master is on its way out of the registry. */
module SchedulerWakeUp {
  import opened TaskPhases
  import opened TaskLifeCycle
  import opened SchedulerState
  import opened SchedulerTasks
  import opened SchedulerResults

  /** The cleaner has yet to read the finished masters, or to process this one. */
  ghost predicate CleanerHas(s: State, id: TaskId) {
    || s.cleaner.Querying?
    || (s.cleaner.Sweeping? && (id in s.cleaner.tasks || id in s.cleaner.todo))
  }

  ghost predicate Attended(s: State, id: TaskId)
    requires id in s.active && s.active[id] < |s.ctxs|
  {
    || !s.ctxs[s.active[id]].life.Ended?   // its own signal is still to come
    || s.token                             // the done event is waiting
    || CleanerHas(s, id)
    || id in s.skipped                     // the cleaner failed to read it
  }

  ghost predicate WakeInv(s: State) {
    forall id | id in s.active && IsFinishedMaster(s, id) :: s.active[id] < |s.ctxs| && Attended(s, id)
  }

  /** Steps under which no master becomes finished, no life cycle ends and the cleaner rests. */
  ghost predicate WakeKept(s: State, s': State) {
    && |s.ctxs| <= |s'.ctxs|
    && s'.active == s.active && s'.token == s.token && s'.cleaner == s.cleaner && s'.skipped == s.skipped
    && s'.rows == s.rows
    && forall c | 0 <= c < |s.ctxs| :: s'.ctxs[c].life.Ended? ==> s.ctxs[c].life.Ended?
  }

  lemma KeptWake(s: State, s': State)
    requires WakeInv(s) && WakeKept(s, s')
    ensures WakeInv(s')
  {
  }

  lemma OtherStepsKeepWake(k: Config, s: State, step: Step)
    requires Enabled(k, s, step)
    requires !step.Transacting? && !step.Living? && !step.Cleaning?
    ensures WakeKept(s, Apply(k, s, step))
  {
  }

  /** A stored task is waiting, so it is not a finished master. */
  lemma TransactKeepsWake(k: Config, s: State, c: nat, result: TxResult)
    requires CoreInv(s) && WakeInv(s) && CanTransact(k, s, c, result)
    ensures WakeInv(Transact(s, c, result))
  {
    var s' := Transact(s, c, result);
    forall id | id in s'.active && IsFinishedMaster(s', id)
      ensures s'.active[id] < |s'.ctxs| && Attended(s', id)
    {
      assert !result.Rejects? ==> id != s.ctxs[c].spec.id;
      assert id in s.active && IsFinishedMaster(s, id) && Attended(s, id);
      assert s'.ctxs[s'.active[id]].life == s.ctxs[s.active[id]].life;
    }
  }

  /** While a request is handled its life cycle has not ended, so its own signal is still to come. */
  lemma HandleKeepsWake(s: State, c: nat, outcome: Outcome)
    requires CoreInv(s) && WakeInv(s) && CanLive(s, c, Handle(outcome))
    ensures WakeInv(LiveHandle(s, c, outcome))
  {
    var s' := LiveHandle(s, c, outcome);
    assert TaskInv(s.ctxs[c], RowOf(s, c));
    forall id | id in s'.active && IsFinishedMaster(s', id)
      ensures s'.active[id] < |s'.ctxs| && Attended(s', id)
    {
      var d := s.active[id];
      if id == s.ctxs[c].spec.id && Owns(s.ctxs[c]) {
        assert Owns(s.ctxs[d]) && d == c;
        assert !s'.ctxs[c].life.Ended?;
      } else {
        assert IsFinishedMaster(s, id) && Attended(s, id);
        assert s'.ctxs[d].life == s.ctxs[d].life;
      }
    }
  }

  /** A master that ends leaves the done event behind. */
  lemma AdvanceKeepsWake(s: State, c: nat)
    requires CoreInv(s) && WakeInv(s) && CanLive(s, c, Advance)
    ensures WakeInv(LiveAdvance(s, c))
  {
    var s' := LiveAdvance(s, c);
    forall id | id in s'.active && IsFinishedMaster(s', id)
      ensures s'.active[id] < |s'.ctxs| && Attended(s', id)
    {
      assert IsFinishedMaster(s, id) && Attended(s, id);
      assert s.active[id] == c ==> s.ctxs[c].spec.IsMaster();
    }
  }

  lemma LiveKeepsWake(s: State, c: nat, act: LifeAct)
    requires CoreInv(s) && WakeInv(s) && CanLive(s, c, act)
    ensures WakeInv(Live(s, c, act))
  {
    match act
    case Handle(outcome) => HandleKeepsWake(s, c, outcome);
    case Advance => AdvanceKeepsWake(s, c);
    case Take(call) => KeptWake(s, LiveTake(s, c, call));
    case _ => KeptWake(s, WithTask(s, c, Fire(s.ctxs[c])));
  }

  lemma SweepKeepsWake(k: Config, s: State, act: CleanAct)
    requires WakeInv(s) && CanClean(k, s, act) && s.cleaner.Sweeping? && !act.EndSweep?
    ensures WakeInv(Clean(k, s, act))
  {
    var s' := Clean(k, s, act);
    forall id | id in s'.active && IsFinishedMaster(s', id)
      ensures s'.active[id] < |s'.ctxs| && Attended(s', id)
    {
      assert id in s.active && IsFinishedMaster(s, id) && Attended(s, id);
      if act.Unregister? {
        assert id != s.cleaner.todo[0];
        assert id in s.cleaner.todo ==> id in s.cleaner.todo[1..];
      } else {
        assert id in s.cleaner.tasks ==> id == s.cleaner.tasks[0] || id in s.cleaner.tasks[1..];
      }
    }
  }

  lemma CleanKeepsWake(k: Config, s: State, act: CleanAct)
    requires WakeInv(s) && CanClean(k, s, act)
    ensures WakeInv(Clean(k, s, act))
  {
    if s.cleaner.Sweeping? && !act.EndSweep? {
      SweepKeepsWake(k, s, act);
    } else {
      var s' := Clean(k, s, act);
      forall id | id in s'.active && IsFinishedMaster(s', id)
        ensures s'.active[id] < |s'.ctxs| && Attended(s', id)
      {
        assert id in s.active && IsFinishedMaster(s, id) && Attended(s, id);
      }
    }
  }

  lemma StepKeepsWake(k: Config, s: State, step: Step)
    requires CoreInv(s) && WakeInv(s) && Enabled(k, s, step)
    ensures WakeInv(Apply(k, s, step))
  {
    match step
    case Living(c, act) => LiveKeepsWake(s, c, act);
    case Transacting(c, result) => TransactKeepsWake(k, s, c, result);
    case Cleaning(act) => CleanKeepsWake(k, s, act);
    case _ =>
      OtherStepsKeepWake(k, s, step);
      KeptWake(s, Apply(k, s, step));
  }

  /** No lost wake-up, in every reachable state. */
  lemma {:induction false} NoLostWakeUp(k: Config, run: seq<State>, steps: seq<Step>, i: nat)
    requires IsRun(k, run, steps) && i < |run|
    ensures WakeInv(run[i])
  {
    if i > 0 {
      NoLostWakeUp(k, run, steps, i - 1);
      RunKeepsCore(k, run, steps, i - 1);
      assert StepAt(k, run, steps, i - 1);
      StepKeepsWake(k, run[i - 1], steps[i - 1]);
    }
  }

  /** No life cycle has work left, no done event is waiting and the cleaner rests. */
  ghost predicate AtRest(s: State) {
    && !s.token && s.cleaner.Resting?
    && forall c | 0 <= c < |s.ctxs| && Started(s.ctxs[c]) :: s.ctxs[c].life.Ended?
  }

  /** When everything has come to rest, a finished master is still registered only if a read of the cleaner failed. */
  lemma RestMeansUnregistered(k: Config, run: seq<State>, steps: seq<Step>, i: nat, id: TaskId)
    requires IsRun(k, run, steps) && i < |run| && AtRest(run[i])
    requires IsFinishedMaster(run[i], id) && id in run[i].active
    ensures id in run[i].skipped
  {
    NoLostWakeUp(k, run, steps, i);
    RunKeepsCore(k, run, steps, i);
    var s := run[i];
    var c := s.active[id];
    assert TaskInv(s.ctxs[c], RowOf(s, c));
    assert Attended(s, id);
  }
}
