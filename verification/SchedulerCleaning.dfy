/**
 What the history cleaner leaves alone while everything else goes on: masters that have not finished, their
 children, and the registry entries of both.
 */
module SchedulerCleaning {
  import opened TaskPhases
  import opened TaskLifeCycle
  import opened SchedulerState
  import opened SchedulerTasks
  import opened SchedulerResults

  predicate HasFinished(row: Row) {
    row.phase.Succeed? || row.phase.Failed? || row.phase.PartiallyFailed?
  }

  predicate IsRunningMaster(row: Row) {
    row.parentId == "" && (row.phase.Waiting? || row.phase.Processing? || row.phase.Aborting?)
  }

  /** The row of a master that has finished. */
  predicate IsOver(s: State, id: TaskId) {
    id in s.rows && s.rows[id].parentId == "" && HasFinished(s.rows[id])
  }

  ghost predicate NamedInv(s: State) {
    && "" !in s.rows
    && forall c | 0 <= c < |s.ctxs| :: s.ctxs[c].spec.id != ""
  }

  // ---------- what a step does to the rows ----------

  /** A row goes only by the cleaner's hand, keeps its parent, stays as it is when finished, and is not used again. */
  ghost predicate RowsStep(s: State, step: Step, s': State) {
    && (forall id | id in s.rows :: id in s'.rows || step == Cleaning(DeleteRow(id)))
    && (forall id | id in s.rows && id in s'.rows ::
          s'.rows[id].parentId == s.rows[id].parentId && (HasFinished(s.rows[id]) ==> s'.rows[id] == s.rows[id]))
    && (forall id | id in s'.rows && id !in s.rows :: id != "" && FreshId(s, id) && !FreshId(s', id))
  }

  lemma UsedStays(k: Config, s: State, step: Step, id: TaskId)
    requires CoreInv(s) && Enabled(k, s, step) && !FreshId(s, id)
    ensures !FreshId(Apply(k, s, step), id)
  {
    var c :| 0 <= c < |s.ctxs| && Owns(s.ctxs[c]) && s.ctxs[c].spec.id == id;
    StepFollows(k, s, step, c);
    assert Owns(Apply(k, s, step).ctxs[c]);
  }

  lemma HandleRows(s: State, c: nat, outcome: Outcome)
    requires CoreInv(s) && CanLive(s, c, Handle(outcome))
    ensures RowsStep(s, Step.Living(c, Handle(outcome)), LiveHandle(s, c, outcome))
  {
    assert TaskInv(s.ctxs[c], RowOf(s, c));
    HandlePermitted(s.ctxs[c], RowOf(s, c), outcome);
  }

  lemma LiveRows(s: State, c: nat, act: LifeAct)
    requires CoreInv(s) && CanLive(s, c, act)
    ensures RowsStep(s, Step.Living(c, act), Live(s, c, act))
  {
    if act.Handle? {
      HandleRows(s, c, act.outcome);
    } else {
      assert Live(s, c, act).rows == s.rows;
    }
  }

  lemma TransactRows(k: Config, s: State, c: nat, result: TxResult)
    requires CanTransact(k, s, c, result) && NamedInv(s)
    ensures RowsStep(s, Transacting(c, result), Transact(s, c, result))
  {
    var s' := Transact(s, c, result);
    assert result.Commits? ==> Owns(s'.ctxs[c]);
  }

  lemma OtherRows(k: Config, s: State, step: Step)
    requires Enabled(k, s, step) && !step.Living? && !step.Transacting? && !step.Cleaning?
    ensures Apply(k, s, step).rows == s.rows
  {
  }

  lemma CleanRows(k: Config, s: State, act: CleanAct)
    requires CanClean(k, s, act)
    ensures Clean(k, s, act).rows == if act.DeleteRow? then s.rows - {act.id} else s.rows
  {
  }

  lemma StepRows(k: Config, s: State, step: Step)
    requires CoreInv(s) && NamedInv(s) && Enabled(k, s, step)
    ensures RowsStep(s, step, Apply(k, s, step))
  {
    match step
    case Living(c, act) => LiveRows(s, c, act);
    case Transacting(c, result) => TransactRows(k, s, c, result);
    case Cleaning(act) => CleanRows(k, s, act);
    case _ => OtherRows(k, s, step);
  }

  lemma StepKeepsNamed(k: Config, s: State, step: Step)
    requires CoreInv(s) && NamedInv(s) && Enabled(k, s, step)
    ensures NamedInv(Apply(k, s, step))
  {
    var s' := Apply(k, s, step);
    StepRows(k, s, step);
    forall c | 0 <= c < |s'.ctxs|
      ensures s'.ctxs[c].spec.id != ""
    {
      if c < |s.ctxs| {
        StepFollows(k, s, step, c);
      } else {
        NewHasId(k, s, step, c);
      }
    }
  }

  lemma NewHasId(k: Config, s: State, step: Step, c: nat)
    requires Enabled(k, s, step) && |s.ctxs| <= c < |Apply(k, s, step).ctxs|
    ensures Apply(k, s, step).ctxs[c].spec.id != ""
  {
    if !step.Creating? {
      OthersMakeNone(k, s, step);
    }
  }

  lemma OthersMakeNone(k: Config, s: State, step: Step)
    requires Enabled(k, s, step) && !step.Creating?
    ensures |Apply(k, s, step).ctxs| == |s.ctxs|
  {
    match step
    case Living(c, act) => LivingMakesNone(s, c, act);
    case Working(p, w, act) => assert |Work(s, p, w, act).ctxs| == |s.ctxs|;
    case Transacting(c, result) => assert |Transact(s, c, result).ctxs| == |s.ctxs|;
    case Cleaning(act) => CleaningMakesNone(k, s, act);
    case _ =>
  }

  lemma LivingMakesNone(s: State, c: nat, act: LifeAct)
    requires CanLive(s, c, act)
    ensures |Live(s, c, act).ctxs| == |s.ctxs|
  {
  }

  lemma CleaningMakesNone(k: Config, s: State, act: CleanAct)
    requires CanClean(k, s, act)
    ensures Clean(k, s, act).ctxs == s.ctxs
  {
  }

  // ---------- what the cleaner has in hand ----------

  /** The id was stored by this scheduler and its row is gone, so it is not used again. */
  ghost predicate IsGoneForGood(s: State, id: TaskId) {
    id !in s.rows && !FreshId(s, id)
  }

  /** A finished master, or a child of one. */
  predicate IsOverOrChild(s: State, id: TaskId) {
    id in s.rows && (IsOver(s, id) || IsOver(s, s.rows[id].parentId))
  }

  /** All that the cleaner has in hand while sweeping. */
  ghost predicate SweepInv(s: State) {
    s.cleaner.Sweeping? ==>
      && (forall id | id in s.cleaner.all :: IsOver(s, id))
      && (forall id | id in s.cleaner.tasks :: IsOver(s, id))
      && (forall id | id in s.cleaner.todo :: IsOverOrChild(s, id))
  }

  /** The cleaner handles finished masters and their children; first are the rows of an earlier run. */
  ghost predicate CleanerInv(s: State, first: set<TaskId>) {
    && (forall id | id in s.rows && id !in first :: !FreshId(s, id))
    && SweepInv(s)
    && (s.cleaner.Trimming? ==>
          forall id | id in s.cleaner.all && id !in first :: IsOver(s, id) || IsGoneForGood(s, id))
  }

  lemma OthersKeepCleaner(k: Config, s: State, step: Step, first: set<TaskId>)
    requires CoreInv(s) && NamedInv(s) && CleanerInv(s, first) && Enabled(k, s, step) && !step.Cleaning?
    ensures CleanerInv(Apply(k, s, step), first)
  {
    var s' := Apply(k, s, step);
    StepRows(k, s, step);
    SameCleaner(k, s, step);
    forall id | !FreshId(s, id)
      ensures !FreshId(s', id)
    {
      UsedStays(k, s, step, id);
    }
    StaysOver(s, step, s', first);
  }

  lemma SameCleaner(k: Config, s: State, step: Step)
    requires Enabled(k, s, step) && !step.Cleaning?
    ensures Apply(k, s, step).cleaner == s.cleaner
  {
    match step
    case Living(c, act) => LivingKeepsEntries(s, c, act);
    case Working(p, w, act) => assert Work(s, p, w, act).cleaner == s.cleaner;
    case Transacting(c, result) => assert Transact(s, c, result).cleaner == s.cleaner;
    case _ =>
  }

  lemma StaysOver(s: State, step: Step, s': State, first: set<TaskId>)
    requires CleanerInv(s, first) && RowsStep(s, step, s') && !step.Cleaning? && s'.cleaner == s.cleaner
    requires forall id | !FreshId(s, id) :: !FreshId(s', id)
    ensures CleanerInv(s', first)
  {
    assert forall id | IsOver(s, id) :: IsOver(s', id);
    assert forall id | IsOverOrChild(s, id) :: IsOverOrChild(s', id);
    assert forall id | IsGoneForGood(s, id) :: IsGoneForGood(s', id);
  }

  lemma CleaningKeepsCleaner(k: Config, s: State, act: CleanAct, first: set<TaskId>)
    requires CleanerInv(s, first) && CanClean(k, s, act)
    ensures CleanerInv(Clean(k, s, act), first)
  {
    var s' := Clean(k, s, act);
    CleanRows(k, s, act);
    assert s'.ctxs == s.ctxs;
    assert forall id :: FreshId(s', id) == FreshId(s, id);
    if act.Query? {
      QueryStarts(k, s, act);
    } else if act.Unregister? || act.Visit? || act.Pass? || act.VisitFails? {
      SweepGoesOn(k, s, act);
    } else if s.cleaner.Trimming? {
      TrimGoesOn(k, s, act, first);
    }
  }

  lemma QueryStarts(k: Config, s: State, act: CleanAct)
    requires CanClean(k, s, act) && act.Query?
    ensures SweepInv(Clean(k, s, act))
  {
    var s' := Clean(k, s, act);
    assert s'.cleaner == Sweeping(act.tasks, act.tasks, []);
    forall id | id in act.tasks
      ensures IsOver(s', id)
    {
      assert IsFinishedMaster(s, id);
    }
  }

  lemma SweepGoesOn(k: Config, s: State, act: CleanAct)
    requires SweepInv(s) && CanClean(k, s, act) && (act.Unregister? || act.Visit? || act.Pass? || act.VisitFails?)
    ensures SweepInv(Clean(k, s, act))
  {
    var s' := Clean(k, s, act);
    assert s'.rows == s.rows;
    assert s'.cleaner.all == s.cleaner.all;
    assert forall id :: IsOver(s', id) == IsOver(s, id);
    assert forall id :: IsOverOrChild(s', id) == IsOverOrChild(s, id);
    if act.Visit? {
      assert s.cleaner.tasks[0] in s.cleaner.tasks;
    }
  }

  lemma TrimGoesOn(k: Config, s: State, act: CleanAct, first: set<TaskId>)
    requires CleanerInv(s, first) && CanClean(k, s, act) && s.cleaner.Trimming?
    ensures CleanerInv(Clean(k, s, act), first)
  {
    var s' := Clean(k, s, act);
    CleanRows(k, s, act);
    assert s'.ctxs == s.ctxs;
    assert forall id :: FreshId(s', id) == FreshId(s, id);
  }

  lemma {:induction false} RunKeepsCleaner(k: Config, run: seq<State>, steps: seq<Step>, i: nat)
    requires IsRun(k, run, steps) && i < |run| && "" !in run[0].rows
    ensures NamedInv(run[i]) && CleanerInv(run[i], run[0].rows.Keys)
  {
    if i > 0 {
      RunKeepsCleaner(k, run, steps, i - 1);
      RunKeepsCore(k, run, steps, i - 1);
      assert StepAt(k, run, steps, i - 1);
      StepKeepsNamed(k, run[i - 1], steps[i - 1]);
      if steps[i - 1].Cleaning? {
        CleaningKeepsCleaner(k, run[i - 1], steps[i - 1].clean, run[0].rows.Keys);
      } else {
        OthersKeepCleaner(k, run[i - 1], steps[i - 1], run[0].rows.Keys);
      }
    }
  }

  /** Rows are only deleted when the query found more finished masters than may be kept. */
  lemma {:induction false} TrimmingMeansTooMany(k: Config, run: seq<State>, steps: seq<Step>, i: nat)
    requires IsRun(k, run, steps) && i < |run|
    ensures run[i].cleaner.Trimming? ==> |run[i].cleaner.all| > k.maxHistory
  {
    if i > 0 {
      TrimmingMeansTooMany(k, run, steps, i - 1);
      assert StepAt(k, run, steps, i - 1);
      if !steps[i - 1].Cleaning? {
        SameCleaner(k, run[i - 1], steps[i - 1]);
      }
    }
  }

  // ---------- the result ----------

  lemma CleaningSpares(k: Config, s: State, act: CleanAct, first: set<TaskId>, id: TaskId, x: TaskId)
    requires NamedInv(s) && CleanerInv(s, first) && CanClean(k, s, act)
    requires "" !in first && id !in first && x !in first
    requires id in s.rows && IsRunningMaster(s.rows[id]) && x in s.rows && (x == id || s.rows[x].parentId == id)
    ensures var s' := Clean(k, s, act);
            x in s'.rows && (x in s.active ==> x in s'.active && s'.active[x] == s.active[x])
  {
    CleanRows(k, s, act);
    if act.Unregister? {
      assert s.cleaner.todo[0] in s.cleaner.todo;
    }
  }

  lemma OthersSpare(k: Config, s: State, step: Step, x: TaskId)
    requires Enabled(k, s, step) && !step.Cleaning? && x in s.rows && x in s.active
    ensures x in Apply(k, s, step).active && Apply(k, s, step).active[x] == s.active[x]
  {
    if !step.Transacting? {
      OthersKeepEntries(k, s, step);
    }
  }

  lemma OthersKeepEntries(k: Config, s: State, step: Step)
    requires Enabled(k, s, step) && !step.Cleaning? && !step.Transacting?
    ensures Apply(k, s, step).active == s.active
  {
    match step
    case Living(c, act) => LivingKeepsEntries(s, c, act);
    case Working(p, w, act) => assert Work(s, p, w, act).active == s.active;
    case _ =>
  }

  lemma LivingKeepsEntries(s: State, c: nat, act: LifeAct)
    requires CanLive(s, c, act)
    ensures Live(s, c, act).active == s.active && Live(s, c, act).cleaner == s.cleaner
  {
  }

  /**
   Whatever happens, a master that has not finished, and any child of it, keeps its row and its registry
   entry: no step of the cleaner or of anything else takes them. For rows stored since the start.
   */
  lemma RunningMastersStay(k: Config, run: seq<State>, steps: seq<Step>, i: nat, id: TaskId, x: TaskId)
    requires IsRun(k, run, steps) && i < |steps| && "" !in run[0].rows && id !in run[0].rows && x !in run[0].rows
    requires id in run[i].rows && IsRunningMaster(run[i].rows[id])
    requires x in run[i].rows && (x == id || run[i].rows[x].parentId == id)
    ensures x in run[i + 1].rows
    ensures x in run[i].active ==> x in run[i + 1].active && run[i + 1].active[x] == run[i].active[x]
  {
    RunKeepsCleaner(k, run, steps, i);
    RunKeepsCore(k, run, steps, i);
    assert StepAt(k, run, steps, i);
    if steps[i].Cleaning? {
      CleaningSpares(k, run[i], steps[i].clean, run[0].rows.Keys, id, x);
    } else {
      StepRows(k, run[i], steps[i]);
      if x in run[i].active {
        OthersSpare(k, run[i], steps[i], x);
      }
    }
  }

  // ---------- what the cleaner can get done ----------

  ghost predicate CanDo(k: Config, s: State, acts: seq<CleanAct>)
    decreases |acts|
  {
    acts == [] || (CanClean(k, s, acts[0]) && CanDo(k, Clean(k, s, acts[0]), acts[1..]))
  }

  ghost function AfterActs(k: Config, s: State, acts: seq<CleanAct>): State
    requires CanDo(k, s, acts)
    decreases |acts|
  {
    if acts == [] then s else AfterActs(k, Clean(k, s, acts[0]), acts[1..])
  }

  lemma FirstAct(k: Config, s: State, act: CleanAct, rest: seq<CleanAct>)
    requires CanClean(k, s, act) && CanDo(k, Clean(k, s, act), rest)
    ensures CanDo(k, s, [act] + rest) && AfterActs(k, s, [act] + rest) == AfterActs(k, Clean(k, s, act), rest)
  {
    assert ([act] + rest)[1..] == rest;
  }

  lemma {:induction false} ListingExists(ids: set<TaskId>) returns (list: seq<TaskId>)
    ensures (forall id :: id in list <==> id in ids) && forall i, j | 0 <= i < j < |list| :: list[i] != list[j]
  {
    if ids == {} {
      list := [];
    } else {
      var id :| id in ids;
      var rest := ListingExists(ids - {id});
      list := rest + [id];
    }
  }

  /** A sweep over masters, each once, with the children and the master of one before them in hand. */
  ghost predicate IsSweeping(s: State) {
    && s.cleaner.Sweeping?
    && (forall id | id in s.cleaner.tasks :: id in s.rows && s.rows[id].parentId == "" && id != "")
    && (forall i, j | 0 <= i < j < |s.cleaner.tasks| :: s.cleaner.tasks[i] != s.cleaner.tasks[j])
    && (forall id | id in s.cleaner.todo :: id !in s.cleaner.tasks)
  }

  /** In hand, still to visit, or the child of a registered master still to visit. */
  predicate IsDue(s: State, id: TaskId)
    requires s.cleaner.Sweeping?
  {
    || id in s.cleaner.todo || id in s.cleaner.tasks
    || (id in s.rows && s.rows[id].parentId in s.cleaner.tasks && s.rows[id].parentId in s.active)
  }

  /** The next act of the sweep, with this listing of the children of its next task. */
  function NextSweepAct(s: State, children: seq<TaskId>): CleanAct
    requires s.cleaner.Sweeping?
  {
    if s.cleaner.todo != [] then Unregister
    else if s.cleaner.tasks == [] then EndSweep
    else if s.cleaner.tasks[0] !in s.active then Pass
    else Visit(children)
  }

  lemma SweepStep(k: Config, s: State, children: seq<TaskId>)
    requires IsSweeping(s) && (s.cleaner.todo != [] || s.cleaner.tasks != [])
    requires s.cleaner.tasks != [] ==> ListsChildren(s, s.cleaner.tasks[0], children)
    ensures var act := NextSweepAct(s, children);
            CanClean(k, s, act)
            && var s' := Clean(k, s, act);
               && IsSweeping(s') && s'.rows == s.rows && (forall id | id in s'.active :: id in s.active)
               && (|s'.cleaner.tasks| < |s.cleaner.tasks|
                   || (|s'.cleaner.tasks| == |s.cleaner.tasks| && |s'.cleaner.todo| < |s.cleaner.todo|))
  {
    if s.cleaner.todo != [] {
      UnregisterStep(k, s);
    } else {
      VisitStep(k, s, children);
    }
  }

  lemma UnregisterStep(k: Config, s: State)
    requires IsSweeping(s) && s.cleaner.todo != []
    ensures CanClean(k, s, Unregister)
            && var s' := Clean(k, s, Unregister);
               && IsSweeping(s') && s'.rows == s.rows && (forall id | id in s'.active :: id in s.active)
               && s'.cleaner.tasks == s.cleaner.tasks && |s'.cleaner.todo| < |s.cleaner.todo|
  {
  }

  lemma VisitStep(k: Config, s: State, children: seq<TaskId>)
    requires IsSweeping(s) && s.cleaner.todo == [] && s.cleaner.tasks != []
    requires ListsChildren(s, s.cleaner.tasks[0], children)
    ensures var act := if s.cleaner.tasks[0] !in s.active then Pass else Visit(children);
            CanClean(k, s, act)
            && var s' := Clean(k, s, act);
               && IsSweeping(s') && s'.rows == s.rows && s'.active == s.active
               && |s'.cleaner.tasks| < |s.cleaner.tasks|
  {
    var tasks := s.cleaner.tasks;
    assert tasks == [tasks[0]] + tasks[1..];
    assert forall id | id in tasks[1..] :: id in tasks && id != tasks[0];
  }

  lemma SweepStepKeepsDue(k: Config, s: State, children: seq<TaskId>, id: TaskId)
    requires IsSweeping(s) && (s.cleaner.todo != [] || s.cleaner.tasks != []) && IsDue(s, id)
    requires s.cleaner.tasks != [] ==> ListsChildren(s, s.cleaner.tasks[0], children)
    requires CanClean(k, s, NextSweepAct(s, children))
    ensures var s' := Clean(k, s, NextSweepAct(s, children));
            s'.cleaner.Sweeping? && (id !in s'.active || IsDue(s', id))
  {
    var tasks, todo := s.cleaner.tasks, s.cleaner.todo;
    if todo != [] {
      assert todo == [todo[0]] + todo[1..];
      assert todo[0] in todo;
    } else {
      assert tasks == [tasks[0]] + tasks[1..];
    }
  }

  /** A sweep can be brought to its end, and then nothing that was due is registered. */
  lemma {:induction false} SweepCanEnd(k: Config, s: State) returns (acts: seq<CleanAct>)
    requires IsSweeping(s)
    ensures CanDo(k, s, acts)
    ensures var s' := AfterActs(k, s, acts);
            && !s'.cleaner.Sweeping? && (forall id | id in s'.active :: id in s.active)
            && forall id | IsDue(s, id) :: id !in s'.active
    decreases if s.cleaner.Sweeping? then |s.cleaner.tasks| else 0, if s.cleaner.Sweeping? then |s.cleaner.todo| else 0
  {
    var children := [];
    if s.cleaner.tasks != [] {
      children := ListingExists(set x | x in s.rows && s.rows[x].parentId == s.cleaner.tasks[0]);
    }
    var act := NextSweepAct(s, children);
    if act.EndSweep? {
      FirstAct(k, s, act, []);
      acts := [act] + [];
    } else {
      SweepStep(k, s, children);
      var s' := Clean(k, s, act);
      var rest := SweepCanEnd(k, s');
      FirstAct(k, s, act, rest);
      acts := [act] + rest;
      forall id | IsDue(s, id)
        ensures id !in AfterActs(k, s, acts).active
      {
        SweepStepKeepsDue(k, s, children, id);
      }
    }
  }

  /**
   Whenever the done event waits and the cleaner rests, it can, by acts of its own alone, take every registered
   master that has finished, and all its children, out of the registry.
   */
  lemma CleanerCanSweep(k: Config, s: State)
    requires s.cleaner.Resting? && s.token && "" !in s.rows
    ensures exists acts ::
              CanDo(k, s, acts)
              && forall id, x | IsOver(s, id) && id in s.active && x in s.rows && (x == id || s.rows[x].parentId == id) ::
                   x !in AfterActs(k, s, acts).active
  {
    var masters := ListingExists(set id | id in s.rows && IsOver(s, id));
    var s1 := Clean(k, s, Wake);
    OverIsFinished(s1);
    var s2 := Clean(k, s1, Query(masters));
    var rest := SweepCanEnd(k, s2);
    FirstAct(k, s1, Query(masters), rest);
    FirstAct(k, s, Wake, [Query(masters)] + rest);
    var acts := [Wake] + ([Query(masters)] + rest);
    forall id, x | IsOver(s, id) && id in s.active && x in s.rows && (x == id || s.rows[x].parentId == id)
      ensures x !in AfterActs(k, s, acts).active
    {
      assert IsDue(s2, x);
    }
  }

  lemma OverIsFinished(s: State)
    ensures forall id :: IsOver(s, id) <==> IsFinishedMaster(s, id)
  {
  }
}
