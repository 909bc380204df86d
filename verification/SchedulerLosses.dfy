/**
 What failed commits do to the active-task counter, told by the state alone: the destroyed contexts that the
 registry still points to, against failed ones that it points to no more.
 */
module SchedulerLosses {
  import opened TaskPhases
  import opened TaskLifeCycle
  import opened SchedulerState
  import opened SchedulerTasks
  import opened SchedulerPools
  import opened SchedulerCounter

  /** Its commit failed and its unit of the counter has been given back. */
  predicate IsStranded(t: Task) {
    t.submit.Destroyed? && !t.place.Unqueued?
  }

  predicate Points(ctxs: seq<Task>, active: map<TaskId, nat>, c: nat) {
    c < |ctxs| && ctxs[c].spec.id in active && active[ctxs[c].spec.id] == c
  }

  ghost function Stranded(ctxs: seq<Task>): set<nat> {
    set c: nat | c < |ctxs| && IsStranded(ctxs[c])
  }

  /** Its commit failed, and its registry entry is gone. */
  predicate IsGone(ctxs: seq<Task>, active: map<TaskId, nat>, c: nat) {
    c < |ctxs| && LostCommit(ctxs[c]) && !Points(ctxs, active, c)
  }

  ghost function Gone(ctxs: seq<Task>, active: map<TaskId, nat>): set<nat> {
    set c: nat | c < |ctxs| && IsGone(ctxs, active, c)
  }

  /** What the cleaner is about to unregister has a row. */
  ghost predicate TodoInv(s: State) {
    s.cleaner.Sweeping? ==> forall id | id in s.cleaner.todo :: id in s.rows
  }

  /** The two history counters are sizes of these sets. */
  ghost predicate LossInv(s: State) {
    s.stranded == |Stranded(s.ctxs)| && s.overwritten == |Gone(s.ctxs, s.active)| && TodoInv(s)
  }

  // ---------- preservation ----------

  /** Besides submissions the ids stay, and no row goes. */
  ghost predicate IdsKept(s: State, s': State) {
    && |s.ctxs| <= |s'.ctxs|
    && (forall c | 0 <= c < |s.ctxs| :: s'.ctxs[c].spec == s.ctxs[c].spec)
    && s'.cleaner == s.cleaner && s.rows.Keys <= s'.rows.Keys
  }

  lemma KeptLosses(s: State, s': State)
    requires LossInv(s) && SubmissionsKept(s, s') && IdsKept(s, s')
    ensures LossInv(s')
  {
    assert Stranded(s'.ctxs) == Stranded(s.ctxs);
    assert Gone(s'.ctxs, s'.active) == Gone(s.ctxs, s.active);
  }

  lemma CountKeepsLossInv(k: Config, s: State, c: nat)
    requires LossInv(s) && PoolsInv(k, s) && CanCount(k, s, c)
    ensures LossInv(Count(s, c))
  {
    var s' := Count(s, c);
    assert JobInv(s, c);
    assert Stranded(s'.ctxs) == Stranded(s.ctxs);
    assert Gone(s'.ctxs, s'.active) == Gone(s.ctxs, s.active);
  }

  lemma FinishKeepsLossInv(k: Config, s: State, c: nat)
    requires LossInv(s) && PoolsInv(k, s) && CanFinish(s, c)
    ensures LossInv(Finish(s, c))
  {
    var s' := Finish(s, c);
    assert JobInv(s, c);
    assert Gone(s'.ctxs, s'.active) == Gone(s.ctxs, s.active);
    if s.ctxs[c].submit.CommitFailed? {
      assert Stranded(s'.ctxs) == Stranded(s.ctxs) + {c};
    } else {
      assert Stranded(s'.ctxs) == Stranded(s.ctxs);
    }
  }

  /** The entry that a store replaces was left by a failed commit, which is pointed to no more. */
  lemma TransactKeepsLossInv(k: Config, s: State, c: nat, result: TxResult)
    requires CoreInv(s) && CounterInv(k, s) && PoolsInv(k, s) && LossInv(s) && CanTransact(k, s, c, result)
    ensures LossInv(Transact(s, c, result))
  {
    TransactStranded(k, s, c, result);
    TransactGone(k, s, c, result);
  }

  lemma TransactStranded(k: Config, s: State, c: nat, result: TxResult)
    requires CanTransact(k, s, c, result)
    ensures Stranded(Transact(s, c, result).ctxs) == Stranded(s.ctxs)
  {
  }

  /** What is stored or taken back under the id of context c, which has just got an outcome. */
  ghost predicate StoresUnder(
    ctxs: seq<Task>, ctxs': seq<Task>, active: map<TaskId, nat>, active': map<TaskId, nat>, c: nat)
  {
    && c < |ctxs| == |ctxs'| && ctxs[c].place.Unqueued? && ctxs'[c].spec == ctxs[c].spec
    && (forall d | 0 <= d < |ctxs| && d != c :: ctxs'[d] == ctxs[d])
    && (|| (active' == active - {ctxs[c].spec.id} && !LostCommit(ctxs'[c]))
        || active' == active[ctxs[c].spec.id := c])
  }

  lemma TransactStores(k: Config, s: State, c: nat, result: TxResult)
    requires PoolsInv(k, s) && CanTransact(k, s, c, result) && !result.Rejects?
    ensures StoresUnder(s.ctxs, Transact(s, c, result).ctxs, s.active, Transact(s, c, result).active, c)
  {
    assert JobInv(s, c);
  }

  lemma StoringGone(ctxs: seq<Task>, ctxs': seq<Task>, active: map<TaskId, nat>, active': map<TaskId, nat>, c: nat)
    requires StoresUnder(ctxs, ctxs', active, active', c)
    requires forall id | id in active :: active[id] < |ctxs| && ctxs[active[id]].spec.id == id && active[id] != c
    requires var id := ctxs[c].spec.id; id in active ==> LostCommit(ctxs[active[id]])
    ensures |Gone(ctxs', active')| == |Gone(ctxs, active)| + if ctxs[c].spec.id in active then 1 else 0
  {
    var id := ctxs[c].spec.id;
    forall d: nat | d < |ctxs|
      ensures IsGone(ctxs', active', d) <==> IsGone(ctxs, active, d) || (id in active && d == active[id])
    {
    }
    if id in active {
      assert Gone(ctxs', active') == Gone(ctxs, active) + {active[id]};
      assert Points(ctxs, active, active[id]);
    } else {
      assert Gone(ctxs', active') == Gone(ctxs, active);
    }
  }

  lemma TransactGone(k: Config, s: State, c: nat, result: TxResult)
    requires CoreInv(s) && CounterInv(k, s) && PoolsInv(k, s) && CanTransact(k, s, c, result)
    ensures |Gone(Transact(s, c, result).ctxs, Transact(s, c, result).active)| - |Gone(s.ctxs, s.active)|
            == Transact(s, c, result).overwritten - s.overwritten
  {
    var id := s.ctxs[c].spec.id;
    if result.Rejects? {
      RejectGone(k, s, c);
    } else {
      TransactStores(k, s, c, result);
      if id in s.active {
        OverwriteMeansLoss(s, id);
      }
      StoringGone(s.ctxs, Transact(s, c, result).ctxs, s.active, Transact(s, c, result).active, c);
    }
  }

  lemma RejectGone(k: Config, s: State, c: nat)
    requires PoolsInv(k, s) && CanTransact(k, s, c, Rejects)
    ensures var s' := Transact(s, c, Rejects);
            s'.overwritten == s.overwritten && Gone(s'.ctxs, s'.active) == Gone(s.ctxs, s.active)
  {
    var s' := Transact(s, c, Rejects);
    assert JobInv(s, c);
    forall d: nat | d < |s.ctxs|
      ensures IsGone(s'.ctxs, s'.active, d) <==> IsGone(s.ctxs, s.active, d)
    {
    }
  }

  /** The cleaner unregisters only what has a row, so no entry left by a failed commit. */
  lemma CleanKeepsLossInv(k: Config, s: State, act: CleanAct)
    requires CoreInv(s) && LossInv(s) && CanClean(k, s, act)
    ensures LossInv(Clean(k, s, act))
  {
    assert Clean(k, s, act).ctxs == s.ctxs;
    CleanKeepsTodo(k, s, act);
    CleanKeepsGone(k, s, act);
  }

  lemma CleanKeepsTodo(k: Config, s: State, act: CleanAct)
    requires TodoInv(s) && CanClean(k, s, act)
    ensures TodoInv(Clean(k, s, act))
  {
  }

  lemma CleanKeepsGone(k: Config, s: State, act: CleanAct)
    requires CoreInv(s) && TodoInv(s) && CanClean(k, s, act)
    ensures Gone(s.ctxs, Clean(k, s, act).active) == Gone(s.ctxs, s.active)
  {
    var s' := Clean(k, s, act);
    assert s'.ctxs == s.ctxs;
    if act.Unregister? {
      var id := s.cleaner.todo[0];
      assert id in s.rows;
      forall c: nat | c < |s.ctxs|
        ensures IsGone(s'.ctxs, s'.active, c) <==> IsGone(s.ctxs, s.active, c)
      {
        assert Points(s.ctxs, s.active, c) && s.ctxs[c].spec.id == id ==> Owns(s.ctxs[c]);
      }
    } else {
      assert s'.active == s.active;
    }
  }

  lemma LiveKeepsIds(s: State, c: nat, act: LifeAct)
    requires CanLive(s, c, act)
    ensures IdsKept(s, Live(s, c, act))
  {
  }

  lemma WorkKeepsIds(k: Config, s: State, p: PoolId, w: nat, act: WorkAct)
    requires PoolsInv(k, s) && CanWork(s, p, w, act)
    ensures IdsKept(s, Work(s, p, w, act))
  {
    assert QueueInv(s, p) && WorkerInv(s, p, w);
  }

  lemma OtherStepsKeepIds(k: Config, s: State, step: Step)
    requires Enabled(k, s, step)
    requires step.UserCalling? || step.Calling? || step.Parking?
             || step.Cancelling? || step.StoppingRoot? || step.Creating?
    ensures IdsKept(s, Apply(k, s, step))
  {
  }

  lemma StepKeepsLossInv(k: Config, s: State, step: Step)
    requires CoreInv(s) && PoolsInv(k, s) && CounterInv(k, s) && LossInv(s) && Enabled(k, s, step)
    ensures LossInv(Apply(k, s, step))
  {
    match step
    case Counting(c) => CountKeepsLossInv(k, s, c);
    case Finishing(c) => FinishKeepsLossInv(k, s, c);
    case Transacting(c, result) => TransactKeepsLossInv(k, s, c, result);
    case Cleaning(act) => CleanKeepsLossInv(k, s, act);
    case _ =>
      QuietStepKeeps(k, s, step);
      KeptLosses(s, Apply(k, s, step));
  }

  lemma QuietStepKeeps(k: Config, s: State, step: Step)
    requires PoolsInv(k, s) && Enabled(k, s, step)
    requires !step.Counting? && !step.Finishing? && !step.Transacting? && !step.Cleaning?
    ensures SubmissionsKept(s, Apply(k, s, step)) && IdsKept(s, Apply(k, s, step))
  {
    match step
    case Living(c, act) =>
      LiveKeepsSubmissions(s, c, act);
      LiveKeepsIds(s, c, act);
    case Working(p, w, act) =>
      WorkKeepsSubmissions(k, s, p, w, act);
      WorkKeepsIds(k, s, p, w, act);
    case _ =>
      OtherStepsKeepSubmissions(k, s, step);
      OtherStepsKeepIds(k, s, step);
  }

  lemma {:induction false} RunKeepsLossInv(k: Config, run: seq<State>, steps: seq<Step>, i: nat)
    requires IsRun(k, run, steps) && i < |run|
    ensures LossInv(run[i])
  {
    if i > 0 {
      RunKeepsLossInv(k, run, steps, i - 1);
      RunStepKeepsLossInv(k, run, steps, i - 1);
    } else {
      InitLosses(k, run[0]);
    }
  }

  lemma InitLosses(k: Config, s: State)
    requires Init(k, s)
    ensures LossInv(s)
  {
    assert Stranded(s.ctxs) == {} && Gone(s.ctxs, s.active) == {};
  }

  lemma RunStepKeepsLossInv(k: Config, run: seq<State>, steps: seq<Step>, i: nat)
    requires IsRun(k, run, steps) && i < |steps| && LossInv(run[i])
    ensures LossInv(run[i + 1])
  {
    RunKeepsCore(k, run, steps, i);
    RunKeepsPools(k, run, steps, i);
    RunKeepsCounter(k, run, steps, i);
    assert StepAt(k, run, steps, i);
    StepKeepsLossInv(k, run[i], steps[i]);
  }

  // ---------- the counter ----------

  /** Destroyed contexts, their unit given back, that the registry still points to. */
  ghost function DeadEntries(s: State): set<nat> {
    set c: nat | c < |s.ctxs| && IsStranded(s.ctxs[c]) && Points(s.ctxs, s.active, c)
  }

  /** Contexts about to be destroyed, their unit still counted, whose entry is already gone. */
  ghost function DeadUnits(s: State): set<nat> {
    set c: nat | c < |s.ctxs| && s.ctxs[c].submit.CommitFailed? && !Points(s.ctxs, s.active, c)
  }

  /**
   In every reachable state the counter differs from the registry entries and the submissions in flight by
   the entries that lead to destroyed contexts and the units of failed contexts without entry. So it is exact
   exactly when there are as many of these as of those.
   */
  lemma CounterExactly(k: Config, run: seq<State>, steps: seq<Step>, i: nat)
    requires IsRun(k, run, steps) && i < |run|
    ensures var s := run[i];
            && s.count + |DeadEntries(s)| == |s.active| + |Flights(s.ctxs)| + |DeadUnits(s)|
            && (s.count == |s.active| + |Flights(s.ctxs)| <==> |DeadEntries(s)| == |DeadUnits(s)|)
  {
    RunKeepsLossInv(k, run, steps, i);
    RunKeepsPools(k, run, steps, i);
    CounterIsExact(k, run, steps, i);
    SplitLosses(k, run[i]);
  }

  lemma SplitLosses(k: Config, s: State)
    requires PoolsInv(k, s)
    ensures |Stranded(s.ctxs)| - |Gone(s.ctxs, s.active)| == |DeadEntries(s)| - |DeadUnits(s)|
  {
    var both := set c: nat | c < |s.ctxs| && IsStranded(s.ctxs[c]) && !Points(s.ctxs, s.active, c);
    assert Stranded(s.ctxs) == DeadEntries(s) + both;
    forall c: nat | c < |s.ctxs|
      ensures IsGone(s.ctxs, s.active, c)
              <==> (IsStranded(s.ctxs[c]) || s.ctxs[c].submit.CommitFailed?) && !Points(s.ctxs, s.active, c)
    {
      LostKinds(k, s, c);
    }
    assert Gone(s.ctxs, s.active) == DeadUnits(s) + both;
  }

  lemma LostKinds(k: Config, s: State, c: nat)
    requires PoolsInv(k, s) && c < |s.ctxs|
    ensures LostCommit(s.ctxs[c]) <==> IsStranded(s.ctxs[c]) || s.ctxs[c].submit.CommitFailed?
  {
    assert JobInv(s, c);
  }
}
