/** The active-task counter: exact accounting, its bound, and the bound on the rows. */
module SchedulerCounter {
  import opened Basics
  import opened TaskPhases
  import opened TaskLifeCycle
  import opened SchedulerState
  import opened SchedulerTasks
  import opened SchedulerCalls
  import opened SchedulerPools
  import S = SubTaskSelector

  /** A submission that holds a unit of the counter and no registry entry. */
  predicate InFlight(t: Task) {
    t.submit.Counted? || t.submit.Refused?
  }

  ghost function Flights(ctxs: seq<Task>): set<nat> {
    set c: nat | c < |ctxs| && InFlight(ctxs[c])
  }

  /** The commit of the context's transaction failed after its registry entry was stored. */
  predicate LostCommit(t: Task) {
    !t.place.Unqueued? && !Owns(t)
  }

  ghost predicate NoLostCommit(s: State) {
    forall c | 0 <= c < |s.ctxs| :: !LostCommit(s.ctxs[c])
  }

  ghost predicate EntriesInv(s: State) {
    forall id | id in s.active :: s.active[id] < |s.ctxs| && !s.ctxs[s.active[id]].place.Unqueued?
  }

  ghost predicate CounterInv(k: Config, s: State) {
    && s.count + s.stranded == |s.active| + |Flights(s.ctxs)| + s.overwritten
    && (s.count <= k.maxActive || s.count <= 0)
    && EntriesInv(s)
    && (NoLostCommit(s) ==> s.stranded == 0 && s.overwritten == 0)
  }

  // ---------- sizes ----------

  lemma SameFlights(ctxs: seq<Task>, ctxs': seq<Task>)
    requires |ctxs| <= |ctxs'|
    requires forall c | 0 <= c < |ctxs| :: InFlight(ctxs'[c]) == InFlight(ctxs[c])
    requires forall c | |ctxs| <= c < |ctxs'| :: !InFlight(ctxs'[c])
    ensures Flights(ctxs') == Flights(ctxs)
  {
  }

  lemma FlightBegins(ctxs: seq<Task>, c: nat, t: Task)
    requires c < |ctxs| && !InFlight(ctxs[c]) && InFlight(t)
    ensures |Flights(ctxs[c := t])| == |Flights(ctxs)| + 1
  {
    assert Flights(ctxs[c := t]) == Flights(ctxs) + {c};
  }

  lemma FlightEnds(ctxs: seq<Task>, c: nat, t: Task)
    requires c < |ctxs| && InFlight(ctxs[c]) && !InFlight(t)
    ensures |Flights(ctxs[c := t])| == |Flights(ctxs)| - 1
  {
    assert Flights(ctxs[c := t]) == Flights(ctxs) - {c};
    assert c in Flights(ctxs);
  }

  lemma EntryStored(active: map<TaskId, nat>, id: TaskId, c: nat)
    ensures |active[id := c]| == if id in active then |active| else |active| + 1
  {
  }

  lemma EntryDeleted(active: map<TaskId, nat>, id: TaskId)
    ensures |active - {id}| == if id in active then |active| - 1 else |active|
  {
  }

  // ---------- preservation ----------

  /** Steps that change no submission, no registry entry and no counter. */
  ghost predicate SubmissionsKept(s: State, s': State) {
    && s'.active == s.active && s'.count == s.count
    && s'.stranded == s.stranded && s'.overwritten == s.overwritten
    && |s.ctxs| <= |s'.ctxs|
    && (forall c | 0 <= c < |s.ctxs| ::
          && InFlight(s'.ctxs[c]) == InFlight(s.ctxs[c])
          && s'.ctxs[c].submit == s.ctxs[c].submit
          && (s'.ctxs[c].place.Unqueued? <==> s.ctxs[c].place.Unqueued?))
    && (forall c | |s.ctxs| <= c < |s'.ctxs| :: s'.ctxs[c].submit.Created? && s'.ctxs[c].place.Unqueued?)
  }

  lemma KeptSubmissions(k: Config, s: State, s': State)
    requires CounterInv(k, s) && SubmissionsKept(s, s')
    ensures CounterInv(k, s')
  {
    SameFlights(s.ctxs, s'.ctxs);
    if NoLostCommit(s') {
      forall c | 0 <= c < |s.ctxs|
        ensures !LostCommit(s.ctxs[c])
      {
        assert !LostCommit(s'.ctxs[c]);
      }
    }
  }

  lemma CountKeepsCounter(k: Config, s: State, c: nat)
    requires CounterInv(k, s) && CanCount(k, s, c)
    ensures CounterInv(k, Count(s, c))
  {
    var s' := Count(s, c);
    FlightBegins(s.ctxs, c, s'.ctxs[c]);
    if NoLostCommit(s') {
      forall d | 0 <= d < |s.ctxs|
        ensures !LostCommit(s.ctxs[d])
      {
        assert !LostCommit(s'.ctxs[d]);
      }
    }
  }

  /** A context keeps its lost commit. */
  lemma LossStays(s: State, s': State, c: nat)
    requires c < |s.ctxs| == |s'.ctxs|
    requires forall d | 0 <= d < |s.ctxs| && d != c :: s'.ctxs[d] == s.ctxs[d]
    requires LostCommit(s.ctxs[c]) ==> LostCommit(s'.ctxs[c])
    ensures NoLostCommit(s') ==> NoLostCommit(s)
  {
  }

  lemma FinishKeepsCounter(k: Config, s: State, c: nat)
    requires CounterInv(k, s) && PoolsInv(k, s) && CanFinish(s, c)
    ensures CounterInv(k, Finish(s, c))
  {
    var s' := Finish(s, c);
    LossStays(s, s', c);
    if s.ctxs[c].submit.Refused? {
      FlightEnds(s.ctxs, c, s'.ctxs[c]);
    } else {
      SameFlights(s.ctxs, s'.ctxs);
      assert JobInv(s, c);
      assert s.ctxs[c].submit.CommitFailed? ==> LostCommit(s'.ctxs[c]);
    }
  }

  /** A stored entry that a later store replaces was left by a failed commit: ids are fresh. */
  lemma OverwriteMeansLoss(s: State, id: TaskId)
    requires RegistryInv(s) && EntriesInv(s) && FreshId(s, id) && id in s.active
    ensures LostCommit(s.ctxs[s.active[id]])
  {
  }

  /** What a transaction does to the registry and to the submissions in flight. */
  lemma TransactSizes(k: Config, s: State, c: nat, result: TxResult)
    requires CanTransact(k, s, c, result)
    ensures var s', id := Transact(s, c, result), s.ctxs[c].spec.id;
            if result.Rejects? then
              s'.active == s.active && |Flights(s'.ctxs)| == |Flights(s.ctxs)|
            else if result.DispatchFails? then
              s'.active == s.active - {id} && |Flights(s'.ctxs)| == |Flights(s.ctxs)|
            else
              s'.active == s.active[id := c] && |Flights(s'.ctxs)| == |Flights(s.ctxs)| - 1
  {
    var s' := Transact(s, c, result);
    if result.Rejects? || result.DispatchFails? {
      SameFlights(s.ctxs, s'.ctxs);
    } else {
      FlightEnds(s.ctxs, c, s'.ctxs[c]);
    }
  }

  lemma TransactKeepsAccount(k: Config, s: State, c: nat, result: TxResult)
    requires CounterInv(k, s) && CanTransact(k, s, c, result)
    ensures var s' := Transact(s, c, result);
            s'.count + s'.stranded == |s'.active| + |Flights(s'.ctxs)| + s'.overwritten
  {
    TransactSizes(k, s, c, result);
    EntryStored(s.active, s.ctxs[c].spec.id, c);
    EntryDeleted(s.active, s.ctxs[c].spec.id);
  }

  lemma TransactKeepsEntries(k: Config, s: State, c: nat, result: TxResult)
    requires EntriesInv(s) && PoolsInv(k, s) && CanTransact(k, s, c, result)
    ensures EntriesInv(Transact(s, c, result))
  {
    assert JobInv(s, c);
  }

  lemma TransactKeepsLosses(k: Config, s: State, c: nat, result: TxResult)
    requires CoreInv(s) && CounterInv(k, s) && PoolsInv(k, s) && CanTransact(k, s, c, result)
    requires NoLostCommit(Transact(s, c, result))
    ensures Transact(s, c, result).stranded == 0 && Transact(s, c, result).overwritten == 0
  {
    var id := s.ctxs[c].spec.id;
    assert JobInv(s, c);
    LossStays(s, Transact(s, c, result), c);
    if id in s.active && !result.Rejects? {
      OverwriteMeansLoss(s, id);
    }
  }

  lemma TransactKeepsCounter(k: Config, s: State, c: nat, result: TxResult)
    requires CoreInv(s) && CounterInv(k, s) && PoolsInv(k, s) && CanTransact(k, s, c, result)
    ensures CounterInv(k, Transact(s, c, result))
  {
    TransactKeepsAccount(k, s, c, result);
    TransactKeepsEntries(k, s, c, result);
    if NoLostCommit(Transact(s, c, result)) {
      TransactKeepsLosses(k, s, c, result);
    }
  }

  lemma CleanKeepsCounter(k: Config, s: State, act: CleanAct)
    requires CounterInv(k, s) && CanClean(k, s, act)
    ensures CounterInv(k, Clean(k, s, act))
  {
    var s' := Clean(k, s, act);
    assert s'.ctxs == s.ctxs;
    LossesSame(s, s');
    if act.Unregister? {
      EntryDeleted(s.active, s.cleaner.todo[0]);
    }
  }

  lemma LossesSame(s: State, s': State)
    requires s'.ctxs == s.ctxs
    ensures NoLostCommit(s') <==> NoLostCommit(s)
  {
  }

  lemma LiveKeepsSubmissions(s: State, c: nat, act: LifeAct)
    requires CanLive(s, c, act)
    ensures SubmissionsKept(s, Live(s, c, act))
  {
  }

  lemma OtherStepsKeepSubmissions(k: Config, s: State, step: Step)
    requires Enabled(k, s, step)
    requires step.UserCalling? || step.Calling? || step.Parking? || step.Cancelling? || step.StoppingRoot? || step.Creating?
    ensures SubmissionsKept(s, Apply(k, s, step))
  {
  }

  lemma WorkKeepsSubmissions(k: Config, s: State, p: PoolId, w: nat, act: WorkAct)
    requires PoolsInv(k, s) && CanWork(s, p, w, act)
    ensures SubmissionsKept(s, Work(s, p, w, act))
  {
    assert QueueInv(s, p) && WorkerInv(s, p, w);
  }

  lemma StepKeepsCounter(k: Config, s: State, step: Step)
    requires CoreInv(s) && PoolsInv(k, s) && CounterInv(k, s) && Enabled(k, s, step)
    ensures CounterInv(k, Apply(k, s, step))
  {
    match step
    case Counting(c) => CountKeepsCounter(k, s, c);
    case Finishing(c) => FinishKeepsCounter(k, s, c);
    case Transacting(c, result) => TransactKeepsCounter(k, s, c, result);
    case Cleaning(act) => CleanKeepsCounter(k, s, act);
    case Living(c, act) =>
      LiveKeepsSubmissions(s, c, act);
      KeptSubmissions(k, s, Live(s, c, act));
    case Working(p, w, act) =>
      WorkKeepsSubmissions(k, s, p, w, act);
      KeptSubmissions(k, s, Work(s, p, w, act));
    case _ =>
      OtherStepsKeepSubmissions(k, s, step);
      KeptSubmissions(k, s, Apply(k, s, step));
  }

  lemma InitCounter(k: Config, s: State)
    requires Init(k, s)
    ensures CounterInv(k, s)
  {
  }

  lemma RunStepKeepsCounter(k: Config, run: seq<State>, steps: seq<Step>, i: nat)
    requires IsRun(k, run, steps) && i < |steps| && CounterInv(k, run[i])
    ensures CounterInv(k, run[i + 1])
  {
    RunKeepsCore(k, run, steps, i);
    RunKeepsPools(k, run, steps, i);
    assert StepAt(k, run, steps, i);
    StepKeepsCounter(k, run[i], steps[i]);
  }

  lemma {:induction false} RunKeepsCounter(k: Config, run: seq<State>, steps: seq<Step>, i: nat)
    requires IsRun(k, run, steps) && i < |run|
    ensures CounterInv(k, run[i])
  {
    if i > 0 {
      RunKeepsCounter(k, run, steps, i - 1);
      RunStepKeepsCounter(k, run, steps, i - 1);
    } else {
      InitCounter(k, run[0]);
    }
  }

  /**
   In every reachable state the counter is the number of registry entries plus the submissions in
   flight, but for the entries that failed commits left behind and those that later stores
   replaced; it never exceeds MaxActiveTasks; and as long as no commit has failed it is exact.
   */
  lemma CounterIsExact(k: Config, run: seq<State>, steps: seq<Step>, i: nat)
    requires IsRun(k, run, steps) && i < |run|
    ensures var s := run[i];
            && s.count + s.stranded == |s.active| + |Flights(s.ctxs)| + s.overwritten
            && (NoLostCommit(s) ==> s.count == |s.active| + |Flights(s.ctxs)|)
            && (k.maxActive >= 0 ==> s.count <= k.maxActive)
  {
    RunKeepsCounter(k, run, steps, i);
  }

  // ---------- the rows ----------

  lemma TransactKeepsRowBound(k: Config, s: State, c: nat, result: TxResult)
    requires CanTransact(k, s, c, result)
    ensures |Transact(s, c, result).rows| <= |s.rows| || |Transact(s, c, result).rows| <= k.maxRows
  {
  }

  lemma CleanKeepsRowBound(k: Config, s: State, act: CleanAct)
    requires CanClean(k, s, act)
    ensures |Clean(k, s, act).rows| <= |s.rows|
  {
  }

  lemma StepKeepsRowBound(k: Config, s: State, step: Step)
    requires Enabled(k, s, step)
    ensures |Apply(k, s, step).rows| <= |s.rows| || |Apply(k, s, step).rows| <= k.maxRows
  {
    match step
    case Transacting(c, result) => TransactKeepsRowBound(k, s, c, result);
    case Living(c, act) => LiveKeepsRowCount(s, c, act);
    case Cleaning(act) => CleanKeepsRowBound(k, s, act);
    case _ => OtherStepsKeepRows(k, s, step);
  }

  lemma LiveKeepsRowCount(s: State, c: nat, act: LifeAct)
    requires CanLive(s, c, act)
    ensures |Live(s, c, act).rows| == |s.rows|
  {
    var s' := Live(s, c, act);
    assert s'.rows.Keys == s.rows.Keys;
    assert |s'.rows.Keys| == |s'.rows| && |s.rows.Keys| == |s.rows|;
  }

  lemma OtherStepsKeepRows(k: Config, s: State, step: Step)
    requires Enabled(k, s, step) && !step.Transacting? && !step.Living? && !step.Cleaning?
    ensures Apply(k, s, step).rows == s.rows
  {
  }

  /** The table never grows past AllowedMaxTasksInDb, or past what an earlier run left in it. */
  lemma {:induction false} RowsAreBounded(k: Config, run: seq<State>, steps: seq<Step>, i: nat)
    requires IsRun(k, run, steps) && i < |run|
    ensures |run[i].rows| <= |run[0].rows| || |run[i].rows| <= k.maxRows
  {
    if i > 0 {
      RowsAreBounded(k, run, steps, i - 1);
      assert StepAt(k, run, steps, i - 1);
      StepKeepsRowBound(k, run[i - 1], steps[i - 1]);
    }
  }

  /** A commit that fails leaves its registry entry behind while its unit of the counter is given back. */
  lemma FailedCommitLeavesEntry(k: Config, s: State, c: nat, to: Dispatch)
    requires CanTransact(k, s, c, CommitFails(to))
    ensures var t := Transact(s, c, CommitFails(to));
            CanFinish(t, c)
            && var s', id := Finish(t, c), s.ctxs[c].spec.id;
               && s'.rows == s.rows && s'.active == s.active[id := c] && s'.ctxs[c].submit.Destroyed?
               && s'.count == s.count - 1 && s'.stranded == s.stranded + 1
  {
  }

  // ---------- the rows and the selector ----------

  ghost function ChildRows(s: State, id: TaskId): set<TaskId> {
    set x | x in s.rows && s.rows[x].parentId == id
  }

  /**
   The parent takes one row, so the children that a selector reads are fewer than the rounds of its
   choosing loop, in every reachable state.
   */
  lemma ChildrenFit(k: Config, run: seq<State>, steps: seq<Step>, i: nat, id: TaskId, children: seq<TaskId>)
    requires IsRun(k, run, steps) && i < |run| && |run[0].rows| <= k.maxRows
    requires id in run[i].rows && run[i].rows[id].parentId != id
    requires Distinct(children) && forall x | x in children :: x in ChildRows(run[i], id)
    ensures |children| < k.maxRows && S.Fits(k.maxRows, S.Begin(children))
  {
    RowsAreBounded(k, run, steps, i);
    var s := run[i];
    DistinctSize(children);
    SubsetSize(Elements(children), s.rows.Keys - {id});
    assert |s.rows.Keys| == |s.rows|;
  }
}
