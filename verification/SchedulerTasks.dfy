/**
 What every reachable state knows about each task: its life cycle, its row and its parent.
 The main results are statements about whole runs.
 */
module SchedulerTasks {
  import opened Basics
  import opened TaskLifeCycle
  import opened SchedulerState

  // ---------- the invariant ----------

  ghost predicate ParentsInv(s: State) {
    forall c | 0 <= c < |s.ctxs| && s.ctxs[c].parent.Some? :: s.ctxs[c].parent.value < c
  }

  /** Contexts with rows have distinct ids. */
  ghost predicate IdsInv(s: State) {
    forall c, d | 0 <= c < d < |s.ctxs| && Owns(s.ctxs[c]) && Owns(s.ctxs[d]) ::
      s.ctxs[c].spec.id != s.ctxs[d].spec.id
  }

  /** The registry points to contexts that were stored under their own id. */
  ghost predicate RegistryInv(s: State) {
    forall id | id in s.active ::
      && s.active[id] < |s.ctxs|
      && s.ctxs[s.active[id]].spec.id == id
      && (id in s.rows ==> Owns(s.ctxs[s.active[id]]) && s.ctxs[s.active[id]].spec.parentId == s.rows[id].parentId)
  }

  ghost predicate TasksInv(s: State) {
    forall c | 0 <= c < |s.ctxs| :: TaskInv(s.ctxs[c], RowOf(s, c))
  }

  ghost predicate CoreInv(s: State) {
    ParentsInv(s) && IdsInv(s) && RegistryInv(s) && TasksInv(s)
  }

  // ---------- its preservation ----------

  /** Only context c and its row change. */
  ghost predicate OnlyTask(s: State, s': State, c: nat) {
    && c < |s.ctxs| == |s'.ctxs|
    && (forall d | 0 <= d < |s.ctxs| && d != c :: s'.ctxs[d] == s.ctxs[d])
    && s'.ctxs[c].spec == s.ctxs[c].spec
    && s'.ctxs[c].parent == s.ctxs[c].parent
    && (Owns(s'.ctxs[c]) <==> Owns(s.ctxs[c]))
    && s'.active == s.active
  }

  /** Rows stay, but for the phase of the row of context c. */
  ghost predicate RowsKept(s: State, s': State, c: nat)
    requires c < |s.ctxs|
  {
    && s'.rows.Keys == s.rows.Keys
    && (forall id | id in s.rows :: s'.rows[id].parentId == s.rows[id].parentId)
    && (forall id | id in s.rows && id != s.ctxs[c].spec.id :: s'.rows[id] == s.rows[id])
    && (!Owns(s.ctxs[c]) ==> s'.rows == s.rows)
  }

  lemma OnlyTaskKeepsCore(s: State, s': State, c: nat)
    requires CoreInv(s) && OnlyTask(s, s', c) && RowsKept(s, s', c)
    requires TaskInv(s'.ctxs[c], RowOf(s', c))
    ensures CoreInv(s')
  {
    forall d | 0 <= d < |s'.ctxs|
      ensures TaskInv(s'.ctxs[d], RowOf(s', d))
    {
      if d != c {
        OtherRow(s, s', c, d);
      }
    }
    forall id | id in s'.active
      ensures s'.active[id] < |s'.ctxs| && s'.ctxs[s'.active[id]].spec.id == id
    {
      assert id in s.active;
    }
  }

  lemma OtherRow(s: State, s': State, c: nat, d: nat)
    requires IdsInv(s) && OnlyTask(s, s', c) && RowsKept(s, s', c)
    requires d < |s.ctxs| && d != c
    ensures RowOf(s', d) == RowOf(s, d)
  {
  }

  lemma CreateKeepsCore(s: State, spec: TaskSpec)
    requires CoreInv(s) && CanCreate(s, spec)
    ensures CoreInv(Create(s, spec))
  {
    var s' := Create(s, spec);
    var n := |s.ctxs|;
    assert forall c | 0 <= c < n :: s'.ctxs[c] == s.ctxs[c];
    assert forall c | 0 <= c < n :: RowOf(s', c) == RowOf(s, c);
    assert RowOf(s', n) == None;
  }

  lemma TransactKeepsTasks(k: Config, s: State, c: nat, result: TxResult)
    requires CoreInv(s) && CanTransact(k, s, c, result)
    ensures TasksInv(Transact(s, c, result))
  {
    var s' := Transact(s, c, result);
    var id := s.ctxs[c].spec.id;
    forall d | 0 <= d < |s'.ctxs|
      ensures TaskInv(s'.ctxs[d], RowOf(s', d))
    {
      assert TaskInv(s.ctxs[d], RowOf(s, d));
      if d == c {
        SubmitKeepsInv(s.ctxs[c], s'.ctxs[c].submit, s'.ctxs[c].place, RowOf(s', c));
      } else {
        assert Owns(s.ctxs[d]) && result.Commits? ==> s.ctxs[d].spec.id != id;
        assert RowOf(s', d) == RowOf(s, d);
      }
    }
  }

  lemma TransactKeepsRegistry(k: Config, s: State, c: nat, result: TxResult)
    requires CoreInv(s) && CanTransact(k, s, c, result)
    ensures RegistryInv(Transact(s, c, result))
  {
    var s' := Transact(s, c, result);
    var id := s.ctxs[c].spec.id;
    forall x | x in s'.active
      ensures s'.active[x] < |s'.ctxs| && s'.ctxs[s'.active[x]].spec.id == x
      ensures x in s'.rows ==>
                Owns(s'.ctxs[s'.active[x]]) && s'.ctxs[s'.active[x]].spec.parentId == s'.rows[x].parentId
    {
      if x != id {
        assert x in s.active && s'.active[x] == s.active[x] != c;
        assert x in s'.rows ==> x in s.rows;
      }
    }
  }

  lemma TransactKeepsCore(k: Config, s: State, c: nat, result: TxResult)
    requires CoreInv(s) && CanTransact(k, s, c, result)
    ensures CoreInv(Transact(s, c, result))
  {
    TransactKeepsTasks(k, s, c, result);
    TransactKeepsRegistry(k, s, c, result);
  }

  lemma FinishKeepsCore(s: State, c: nat)
    requires CoreInv(s) && CanFinish(s, c)
    ensures CoreInv(Finish(s, c))
  {
    var s' := Finish(s, c);
    assert TaskInv(s.ctxs[c], RowOf(s, c));
    assert RowOf(s', c) == RowOf(s, c);
    OnlyTaskKeepsCore(s, s', c);
  }

  lemma HandleKeepsCore(s: State, c: nat, outcome: Outcome)
    requires CoreInv(s) && CanLive(s, c, Handle(outcome))
    ensures CoreInv(LiveHandle(s, c, outcome))
  {
    var s' := LiveHandle(s, c, outcome);
    var row := RowOf(s, c);
    assert TaskInv(s.ctxs[c], row);
    HandleKeepsInv(s.ctxs[c], row, outcome);
    HandlePermitted(s.ctxs[c], row, outcome);
    assert RowOf(s', c) == HandleUpdateRequest(s.ctxs[c], row, outcome).row;
    OnlyTaskKeepsCore(s, s', c);
  }

  /** A life cycle step that touches neither the rows nor the registry. */
  lemma QuietKeepsCore(s: State, s': State, c: nat)
    requires CoreInv(s) && OnlyTask(s, s', c) && s'.rows == s.rows
    requires TaskInv(s'.ctxs[c], RowOf(s, c))
    ensures CoreInv(s')
  {
    OnlyTaskKeepsCore(s, s', c);
  }

  lemma AdvanceKeepsCore(s: State, c: nat)
    requires CoreInv(s) && CanLive(s, c, Advance)
    ensures CoreInv(LiveAdvance(s, c))
  {
    assert TaskInv(s.ctxs[c], RowOf(s, c));
    AdvanceKeepsInv(s.ctxs[c], RowOf(s, c));
    QuietKeepsCore(s, LiveAdvance(s, c), c);
  }

  lemma TakeKeepsCore(s: State, c: nat, call: nat)
    requires CoreInv(s) && CanLive(s, c, Take(call))
    ensures CoreInv(LiveTake(s, c, call))
  {
    assert TaskInv(s.ctxs[c], RowOf(s, c));
    var u := s.calls[call];
    TakeKeepsInv(s.ctxs[c], Request(u.phase, u.columns, u.byUser, FromCall(call)), RowOf(s, c));
    QuietKeepsCore(s, LiveTake(s, c, call), c);
  }

  lemma FireKeepsCore(s: State, c: nat, act: LifeAct)
    requires CoreInv(s) && CanLive(s, c, act) && CanFire(s.ctxs[c], act, MainDone(s.ctxs, s.rootDone, c))
    ensures CoreInv(WithTask(s, c, Fire(s.ctxs[c])))
  {
    assert TaskInv(s.ctxs[c], RowOf(s, c));
    FireKeepsInv(s.ctxs[c], act, MainDone(s.ctxs, s.rootDone, c), RowOf(s, c));
    QuietKeepsCore(s, WithTask(s, c, Fire(s.ctxs[c])), c);
  }

  lemma LiveKeepsCore(s: State, c: nat, act: LifeAct)
    requires CoreInv(s) && CanLive(s, c, act)
    ensures CoreInv(Live(s, c, act))
  {
    match act
    case Handle(outcome) => HandleKeepsCore(s, c, outcome);
    case Advance => AdvanceKeepsCore(s, c);
    case Take(call) => TakeKeepsCore(s, c, call);
    case _ => FireKeepsCore(s, c, act);
  }

  lemma WorkKeepsCore(s: State, p: PoolId, w: nat, act: WorkAct)
    requires CoreInv(s) && CanWork(s, p, w, act)
    ensures CoreInv(Work(s, p, w, act))
  {
    var s' := Work(s, p, w, act);
    var c := WorkTask(s, p, w, act);
    assert TaskInv(s.ctxs[c], RowOf(s, c));
    QuietKeepsCore(s, s', c);
  }

  lemma CountKeepsCore(s: State, c: nat)
    requires CoreInv(s) && AtStage(s, c, Created)
    ensures CoreInv(Count(s, c))
  {
    assert TaskInv(s.ctxs[c], RowOf(s, c));
    QuietKeepsCore(s, Count(s, c), c);
  }

  lemma CancelKeepsCore(s: State, c: nat)
    requires CoreInv(s) && c < |s.ctxs|
    ensures CoreInv(Cancel(s, c))
  {
    assert TaskInv(s.ctxs[c], RowOf(s, c));
    QuietKeepsCore(s, Cancel(s, c), c);
  }

  lemma CleanKeepsCore(k: Config, s: State, act: CleanAct)
    requires CoreInv(s) && CanClean(k, s, act)
    ensures CoreInv(Clean(k, s, act))
  {
    var s' := Clean(k, s, act);
    forall c | 0 <= c < |s'.ctxs|
      ensures TaskInv(s'.ctxs[c], RowOf(s', c))
    {
      assert TaskInv(s.ctxs[c], RowOf(s, c));
    }
  }

  lemma StepKeepsCore(k: Config, s: State, step: Step)
    requires CoreInv(s) && Enabled(k, s, step)
    ensures CoreInv(Apply(k, s, step))
  {
    match step
    case Creating(spec) => CreateKeepsCore(s, spec);
    case Transacting(c, result) => TransactKeepsCore(k, s, c, result);
    case Finishing(c) => FinishKeepsCore(s, c);
    case Living(c, act) => LiveKeepsCore(s, c, act);
    case Working(p, w, act) => WorkKeepsCore(s, p, w, act);
    case Cleaning(act) => CleanKeepsCore(k, s, act);
    case Counting(c) => CountKeepsCore(s, c);
    case Cancelling(c) => CancelKeepsCore(s, c);
    case UserCalling(c, phase, columns) => SameTasksKeepCore(s, UserCall(s, c, phase, columns));
    case Parking(p, w) => SameTasksKeepCore(s, Park(s, p, w));
    case Calling(call, act) => SameTasksKeepCore(s, CallStep(s, call, act));
    case StoppingRoot => SameTasksKeepCore(s, s.(rootDone := true));
  }

  /** The steps in which no life cycle and no caller moves, and no worker but to wait for a task. */
  predicate Quiet(step: Step) {
    !step.Living? && !step.UserCalling? && !step.Calling? && !step.Working?
  }

  /** Life cycles stay where they are, but for one that may start; a new context has not started. */
  ghost predicate LivesKept(s: State, s': State) {
    && |s.ctxs| <= |s'.ctxs|
    && (forall c | 0 <= c < |s.ctxs| ::
          && s'.ctxs[c].pending == s.ctxs[c].pending
          && s'.ctxs[c].entered == s.ctxs[c].entered
          && (s'.ctxs[c].life == s.ctxs[c].life || s.ctxs[c].life.Unstarted?))
    && (forall c | |s.ctxs| <= c < |s'.ctxs| :: s'.ctxs[c].pending.None? && s'.ctxs[c].life.Unstarted?)
  }

  lemma SubmitIsQuiet(k: Config, s: State, step: Step)
    requires Enabled(k, s, step) && CoreInv(s)
    requires step.Creating? || step.Counting? || step.Transacting? || step.Finishing?
    ensures var s' := Apply(k, s, step); LivesKept(s, s') && s'.calls == s.calls
  {
    if step.Finishing? {
      assert TaskInv(s.ctxs[step.c], RowOf(s, step.c));
    }
  }

  lemma CleanIsQuiet(k: Config, s: State, act: CleanAct)
    requires CanClean(k, s, act)
    ensures var s' := Clean(k, s, act); LivesKept(s, s') && s'.calls == s.calls
  {
  }

  lemma CancelIsQuiet(k: Config, s: State, step: Step)
    requires Enabled(k, s, step) && (step.Cancelling? || step.StoppingRoot? || step.Parking?)
    ensures var s' := Apply(k, s, step); LivesKept(s, s') && s'.calls == s.calls
  {
  }

  lemma QuietKeepsLives(k: Config, s: State, step: Step)
    requires Enabled(k, s, step) && CoreInv(s) && Quiet(step)
    ensures var s' := Apply(k, s, step); LivesKept(s, s') && s'.calls == s.calls
  {
    if step.Creating? || step.Counting? || step.Transacting? || step.Finishing? {
      SubmitIsQuiet(k, s, step);
    } else if step.Cleaning? {
      CleanIsQuiet(k, s, step.clean);
    } else {
      CancelIsQuiet(k, s, step);
    }
  }

  lemma SameTasksKeepCore(s: State, s': State)
    requires CoreInv(s) && s'.ctxs == s.ctxs && s'.rows == s.rows && s'.active == s.active
    ensures CoreInv(s')
  {
  }

  /** Contexts are never taken away, and none changes its spec or its parent. */
  ghost predicate SpecsKept(s: State, s': State) {
    && |s.ctxs| <= |s'.ctxs|
    && forall c | 0 <= c < |s.ctxs| :: s'.ctxs[c].spec == s.ctxs[c].spec && s'.ctxs[c].parent == s.ctxs[c].parent
  }

  lemma SubmitKeepsSpecs(k: Config, s: State, step: Step)
    requires Enabled(k, s, step)
    requires step.Counting? || step.Transacting? || step.Finishing?
    ensures SpecsKept(s, Apply(k, s, step)) && |Apply(k, s, step).ctxs| == |s.ctxs|
  {
  }

  lemma LiveKeepsSpecs(s: State, c: nat, act: LifeAct)
    requires CanLive(s, c, act)
    ensures SpecsKept(s, Live(s, c, act)) && |Live(s, c, act).ctxs| == |s.ctxs|
  {
  }

  lemma OtherStepsKeepSpecs(k: Config, s: State, step: Step)
    requires Enabled(k, s, step)
    requires step.UserCalling? || step.Calling? || step.Working? || step.Parking? || step.Cancelling? || step.StoppingRoot?
    ensures SpecsKept(s, Apply(k, s, step)) && |Apply(k, s, step).ctxs| == |s.ctxs|
  {
  }

  lemma CleanKeepsSpecs(k: Config, s: State, act: CleanAct)
    requires CanClean(k, s, act)
    ensures SpecsKept(s, Clean(k, s, act)) && |Clean(k, s, act).ctxs| == |s.ctxs|
  {
  }

  lemma StepKeepsSpecs(k: Config, s: State, step: Step)
    requires Enabled(k, s, step) && !step.Creating?
    ensures SpecsKept(s, Apply(k, s, step)) && |Apply(k, s, step).ctxs| == |s.ctxs|
  {
    if step.Living? {
      LiveKeepsSpecs(s, step.c, step.life);
    } else if step.Counting? || step.Transacting? || step.Finishing? {
      SubmitKeepsSpecs(k, s, step);
    } else if step.Cleaning? {
      CleanKeepsSpecs(k, s, step.clean);
    } else {
      OtherStepsKeepSpecs(k, s, step);
    }
  }

  lemma {:induction false} RunKeepsCore(k: Config, run: seq<State>, steps: seq<Step>, i: nat)
    requires IsRun(k, run, steps) && i < |run|
    ensures CoreInv(run[i])
  {
    if i > 0 {
      RunKeepsCore(k, run, steps, i - 1);
      assert StepAt(k, run, steps, i - 1);
      StepKeepsCore(k, run[i - 1], steps[i - 1]);
    }
  }
}
