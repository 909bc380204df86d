/**
 A run of the scheduler with a pool of capacity zero, in which a user's status without any column ends
 a task whose row stays in phase processing. No statement fails and no row is deleted.
 */
module SchedulerExample {
  import opened Basics
  import opened TaskPhases
  import opened TaskLifeCycle
  import opened SchedulerState
  import opened SchedulerResults

  const POOL: PoolId := "dumpMultiNodesLog"
  const TASK: TaskId := "t"
  const CONFIG := Config(50, 50, 100, map[POOL := PoolSpec(1, 0)])
  const SPEC := TaskSpec(TASK, NO_PARENT, POOL, POOL, 0, 0, 0, 60)

  // ---------- the states ----------

  /** A state with one worker, an empty queue and nothing for the cleaner to do. */
  function Scene(row: Option<TaskPhase>, tasks: seq<Task>, count: int, worker: Worker, calls: seq<Call>): State {
    State(if row.Some? then map[TASK := Row(row.value, NO_PARENT)] else map[],
          tasks,
          if row.Some? then map[TASK := 0] else map[],
          count, map[POOL := []], map[POOL := [worker]], calls, false, Resting, false, 0, 0, {})
  }

  /** The task on its way to the worker. */
  function Submitted(stage: SubmitStage, place: Place): Task {
    Task(SPEC, None, stage, Unstarted, Waiting, None, false, false, false, false, 0, false, place, 0)
  }

  /** The task of a started life cycle. */
  function Living(life: LifeStage, phase: TaskPhase, pending: Option<Request>): Task {
    var past := life.EnterAborting? || life.OnAborting? || life.Closing? || life.ShuttingDown? || life.Signalling?;
    var entered := !phase.Waiting?;
    Task(SPEC, None, Accepted, life, phase, pending,
         past, past && !life.EnterAborting?, life.ShuttingDown? || life.Signalling?, life.Signalling?,
         if entered then 1 else 0, entered, Held(0), 0)
  }

  const START := Request(Processing, true, false, FromCall(0))
  const BLANK := Request(Unset, false, true, FromCall(1))

  /** The worker's call, and the user's. */
  function Asking(stage: CallStage, done: bool): Call {
    Call(0, Processing, true, false, stage, if done then Some(Effect(Waiting, Processing)) else None)
  }

  const ASKED := Asking(Awaiting(Some(1)), true)

  function User(stage: CallStage): Call {
    Call(0, Unset, false, true, stage, None)
  }

  function StateAt(i: nat): State {
    match i
    case 0 => Scene(None, [], 0, Idle, [])
    case 1 => Scene(None, [], 0, Parked, [])
    case 2 => Scene(None, [Submitted(Created, Unqueued)], 0, Parked, [])
    case 3 => Scene(None, [Submitted(Counted, Unqueued)], 1, Parked, [])
    case 4 => Scene(Some(Waiting), [Submitted(Committed, Held(0))], 1, Handed(0), [])
    case 5 => Scene(Some(Waiting), [Living(OnWaiting, Waiting, None)], 1, Handed(0), [])
    case 6 => Scene(Some(Waiting), [Living(OnWaiting, Waiting, None)], 1, Starting(0, 0), [Asking(Sending, false)])
    case 7 => Scene(Some(Waiting), [Living(OnWaiting, Waiting, Some(START))], 1, Starting(0, 0),
                    [Asking(Awaiting(None), false)])
    case 8 => Scene(Some(Processing), [Living(OnWaiting, Processing, None)], 1, Starting(0, 0), [ASKED])
    case 9 => Scene(Some(Processing), [Living(OnProcessing, Processing, None)], 1, Starting(0, 0), [ASKED])
    case 10 => Scene(Some(Processing), [Living(OnProcessing, Processing, None)], 1, Starting(0, 0),
                     [ASKED, User(Sending)])
    case 11 => Scene(Some(Processing), [Living(OnProcessing, Processing, Some(BLANK))], 1, Starting(0, 0),
                     [ASKED, User(Awaiting(None))])
    case _ => Scene(Some(Processing), [Living(EndStage(i), Unset, None)], 1, Starting(0, 0),
                    [ASKED, User(Awaiting(Some(0)))])
  }

  function EndStage(i: nat): LifeStage {
    match i
    case 12 => OnProcessing
    case 13 => EnterAborting
    case 14 => OnAborting
    case 15 => Closing
    case 16 => ShuttingDown
    case _ => Signalling
  }

  const LENGTH := 17

  function StepTo(i: nat): Step {
    match i
    case 1 => Parking(POOL, 0)
    case 2 => Creating(SPEC)
    case 3 => Counting(0)
    case 4 => Transacting(0, Commits(ToWorker(0)))
    case 5 => Finishing(0)
    case 6 => Working(POOL, 0, Ask)
    case 7 => Step.Living(0, Take(0))
    case 8 => Step.Living(0, Handle(Hit))
    case 10 => UserCalling(0, Unset, false)
    case 11 => Step.Living(0, Take(1))
    case 12 => Step.Living(0, Handle(Miss))
    case _ => Step.Living(0, Advance)
  }

  // ---------- the steps ----------

  ghost predicate Follows(i: nat) {
    Enabled(CONFIG, StateAt(i), StepTo(i + 1)) && Apply(CONFIG, StateAt(i), StepTo(i + 1)) == StateAt(i + 1)
  }

  lemma StartsInOrder()
    ensures Init(CONFIG, StateAt(0))
  {
    assert seq(1, _ => Idle) == [Idle];
  }

  lemma ParkFollows()
    ensures Follows(0)
  {
    assert [Idle][0 := Parked] == [Parked];
  }

  lemma SubmitFollows()
    ensures Follows(1) && Follows(2)
  {
    assert [Submitted(Created, Unqueued)][0 := Submitted(Counted, Unqueued)] == [Submitted(Counted, Unqueued)];
  }

  lemma TransactFollows()
    ensures Follows(3)
  {
    var s := StateAt(3);
    assert CanDispatch(CONFIG, s, POOL, ToWorker(0));
    assert [Parked][0 := Handed(0)] == [Handed(0)];
  }

  lemma FinishFollows()
    ensures Follows(4)
  {
  }

  lemma AskFollows()
    ensures Follows(5)
  {
    assert [Handed(0)][0 := Starting(0, 0)] == [Starting(0, 0)];
  }

  lemma TakeFollows()
    ensures Follows(6) && Follows(10)
  {
    assert [ASKED, User(Sending)][1 := User(Awaiting(None))] == [ASKED, User(Awaiting(None))];
  }

  lemma StartHandled()
    ensures var h := HandleUpdateRequest(Living(OnWaiting, Waiting, Some(START)), Some(Waiting), Hit);
            h == Handled(Living(OnWaiting, Processing, None), Some(Processing), Some(Effect(Waiting, Processing)))
  {
  }

  lemma StartFollows()
    ensures Follows(7)
  {
    assert RowOf(StateAt(7), 0) == Some(Waiting);
    StartHandled();
    assert Answered([Asking(Awaiting(None), false)], START, Some(Effect(Waiting, Processing))) == [ASKED];
  }

  lemma UserFollows()
    ensures Follows(8) && Follows(9)
  {
  }

  lemma BlankHandled()
    ensures var h := HandleUpdateRequest(Living(OnProcessing, Processing, Some(BLANK)), Some(Processing), Miss);
            h == Handled(Living(OnProcessing, Unset, None), Some(Processing), None)
  {
  }

  lemma BlankFollows()
    ensures Follows(11)
  {
    assert RowOf(StateAt(11), 0) == Some(Processing);
    BlankHandled();
    assert Answered([ASKED, User(Awaiting(None))], BLANK, None) == [ASKED, User(Awaiting(Some(0)))];
  }

  lemma EndFollows(i: nat)
    requires 12 <= i < LENGTH
    ensures Follows(i)
  {
  }

  // ---------- the run ----------

  lemma AllFollow(i: nat)
    requires i < LENGTH
    ensures Follows(i)
  {
    if i == 0 {
      ParkFollows();
    } else if i <= 2 {
      SubmitFollows();
    } else if i == 3 {
      TransactFollows();
    } else if i == 4 {
      FinishFollows();
    } else if i == 5 {
      AskFollows();
    } else if i == 6 || i == 10 {
      TakeFollows();
    } else if i == 7 {
      StartFollows();
    } else if i <= 9 {
      UserFollows();
    } else if i == 11 {
      BlankFollows();
    } else {
      EndFollows(i);
    }
  }

  lemma StepsFollow(run: seq<State>, steps: seq<Step>, i: nat)
    requires i < |steps| && |run| == |steps| + 1 && Follows(i)
    requires run[i] == StateAt(i) && run[i + 1] == StateAt(i + 1) && steps[i] == StepTo(i + 1)
    ensures StepAt(CONFIG, run, steps, i)
  {
  }

  lemma RunExists() returns (run: seq<State>, steps: seq<Step>)
    ensures |steps| == LENGTH && IsRun(CONFIG, run, steps) && run[LENGTH] == StateAt(LENGTH)
    ensures forall j | 0 <= j < LENGTH :: steps[j] == StepTo(j + 1)
  {
    run := seq(LENGTH + 1, i requires 0 <= i => StateAt(i));
    steps := seq(LENGTH, i requires 0 <= i => StepTo(i + 1));
    StartsInOrder();
    forall i | 0 <= i < LENGTH
      ensures StepAt(CONFIG, run, steps, i)
    {
      AllFollow(i);
      StepsFollow(run, steps, i);
    }
  }

  /** No statement of the repository fails in this step. */
  predicate FaultFree(step: Step) {
    step.Living? && step.life.Handle? ==> !step.life.outcome.Fault?
  }

  /** A task whose Done is closed with its row still in phase processing, and no fault anywhere. */
  lemma BlankStatusLeavesRowUnfinished()
    ensures exists run, steps :: IsRun(CONFIG, run, steps) && LeavesRowUnfinished(run, steps)
  {
    var run, steps := RunExists();
    assert StateAt(LENGTH).ctxs == [Living(Signalling, Unset, None)];
    assert LeavesRowUnfinished(run, steps);
  }

  ghost predicate LeavesRowUnfinished(run: seq<State>, steps: seq<Step>) {
    && |run| == |steps| + 1
    && (forall j | 0 <= j < |steps| :: FaultFree(steps[j]))
    && var s := run[|steps|];
       |s.ctxs| == 1 && s.ctxs[0].done && RowOf(s, 0) == Some(Processing)
  }
}
