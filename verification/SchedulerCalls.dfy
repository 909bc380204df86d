/** Calls of UpdateStatus: what a nil result means, and what is left of a call once Done is closed. */
module SchedulerCalls {
  import opened Basics
  import opened TaskPhases
  import opened TaskLifeCycle
  import opened SchedulerState
  import opened SchedulerTasks
  import opened SchedulerResults

  /** The effect recorded for a call is the permitted transition the call asked for. */
  ghost predicate EffectInv(s: State, call: Call) {
    && call.ctx < |s.ctxs|
    && (call.effect.Some? ==>
          && Permitted(call.effect.value.from, call.effect.value.to, call.byUser)
          && call.effect.value.to == Updated(call.effect.value.from, call.phase)
          && (call.effect.value.to.Processing? ==> s.ctxs[call.ctx].entered))
  }

  /** Only an answer makes a call succeed, and the answer tells whether there was an effect. */
  ghost predicate StageInv(call: Call) {
    match call.stage
    case Sending => call.effect.None?
    case Awaiting(None) => call.effect.None?
    case Awaiting(Some(rows)) => rows > 0 <==> call.effect.Some?
    case Returned(result) => result.Nil? ==> call.effect.Some?
  }

  ghost predicate Unanswered(call: Call) {
    && call.effect.None?
    && (call.stage == Awaiting(None) || (call.stage.Returned? && !call.stage.result.Nil?))
  }

  /** A request in hand is the one its caller sent, and not yet answered. */
  ghost predicate PendingInv(s: State, c: nat)
    requires c < |s.ctxs|
  {
    var t := s.ctxs[c];
    t.pending.Some? && t.pending.value.origin.FromCall? ==>
      var call := t.pending.value.origin.call;
      && call < |s.calls|
      && s.calls[call].ctx == c
      && s.calls[call].phase == t.pending.value.phase
      && s.calls[call].columns == t.pending.value.columns
      && s.calls[call].byUser == t.pending.value.byUser
      && Unanswered(s.calls[call])
  }

  ghost predicate CallsInv(s: State) {
    && (forall i | 0 <= i < |s.calls| :: EffectInv(s, s.calls[i]) && StageInv(s.calls[i]))
    && (forall c | 0 <= c < |s.ctxs| :: PendingInv(s, c))
  }

  /** Steps that leave the calls alone and put no caller's request in hand. */
  lemma SameCallsKeepInv(s: State, s': State)
    requires CallsInv(s) && s'.calls == s.calls && |s.ctxs| <= |s'.ctxs|
    requires forall c | 0 <= c < |s.ctxs| :: s'.ctxs[c].entered == s.ctxs[c].entered
    requires forall c | 0 <= c < |s'.ctxs| ::
               (c < |s.ctxs| && s'.ctxs[c].pending == s.ctxs[c].pending)
               || s'.ctxs[c].pending.None? || s'.ctxs[c].pending.value.origin.FromLoop?
    ensures CallsInv(s')
  {
    forall c | 0 <= c < |s'.ctxs|
      ensures PendingInv(s', c)
    {
      if c < |s.ctxs| {
        assert PendingInv(s, c);
      }
    }
    forall i | 0 <= i < |s'.calls|
      ensures EffectInv(s', s'.calls[i]) && StageInv(s'.calls[i])
    {
      assert EffectInv(s, s.calls[i]);
    }
  }

  lemma TakeKeepsCalls(s: State, c: nat, call: nat)
    requires CallsInv(s) && CanLive(s, c, Take(call))
    ensures CallsInv(LiveTake(s, c, call))
  {
    var s' := LiveTake(s, c, call);
    forall d | 0 <= d < |s'.ctxs|
      ensures PendingInv(s', d)
    {
      assert PendingInv(s, d);
    }
    forall i | 0 <= i < |s'.calls|
      ensures EffectInv(s', s'.calls[i]) && StageInv(s'.calls[i])
    {
      assert EffectInv(s, s.calls[i]);
    }
  }

  lemma HandleKeepsCalls(s: State, c: nat, outcome: Outcome)
    requires CoreInv(s) && CallsInv(s) && CanLive(s, c, Handle(outcome))
    ensures CallsInv(LiveHandle(s, c, outcome))
  {
    var s' := LiveHandle(s, c, outcome);
    assert TaskInv(s.ctxs[c], RowOf(s, c));
    HandlePermitted(s.ctxs[c], RowOf(s, c), outcome);
    assert PendingInv(s, c);
    forall d | 0 <= d < |s'.ctxs|
      ensures PendingInv(s', d)
    {
      assert PendingInv(s, d);
    }
    forall i | 0 <= i < |s'.calls|
      ensures EffectInv(s', s'.calls[i]) && StageInv(s'.calls[i])
    {
      assert EffectInv(s, s.calls[i]) && StageInv(s.calls[i]);
    }
  }

  /** A new call at the end changes nothing for the others. */
  lemma AppendKeepsCalls(s: State, s': State, c: nat, phase: TaskPhase, columns: bool, byUser: bool)
    requires CallsInv(s) && c < |s.ctxs|
    requires s'.calls == s.calls + [NewCall(c, phase, columns, byUser)] && |s'.ctxs| == |s.ctxs|
    requires forall d | 0 <= d < |s.ctxs| ::
               s'.ctxs[d].entered == s.ctxs[d].entered && s'.ctxs[d].pending == s.ctxs[d].pending
    ensures CallsInv(s')
  {
    forall d | 0 <= d < |s'.ctxs|
      ensures PendingInv(s', d)
    {
      assert PendingInv(s, d);
    }
    forall i | 0 <= i < |s'.calls|
      ensures EffectInv(s', s'.calls[i]) && StageInv(s'.calls[i])
    {
      if i < |s.calls| {
        assert EffectInv(s, s.calls[i]) && StageInv(s.calls[i]);
      }
    }
  }

  lemma CallStepKeepsCalls(s: State, call: nat, act: CallAct)
    requires CallsInv(s) && CanCallStep(s, call, act)
    ensures CallsInv(CallStep(s, call, act))
  {
    var s' := CallStep(s, call, act);
    assert StageInv(s.calls[call]);
    forall d | 0 <= d < |s'.ctxs|
      ensures PendingInv(s', d)
    {
      assert PendingInv(s, d);
    }
    forall i | 0 <= i < |s'.calls|
      ensures EffectInv(s', s'.calls[i]) && StageInv(s'.calls[i])
    {
      assert EffectInv(s, s.calls[i]) && StageInv(s.calls[i]);
    }
  }

  lemma WorkKeepsCalls(s: State, p: PoolId, w: nat, act: WorkAct)
    requires CallsInv(s) && CanWork(s, p, w, act)
    ensures CallsInv(Work(s, p, w, act))
  {
    var s' := Work(s, p, w, act);
    if act.Ask? || act.MissFactory? {
      AppendKeepsCalls(s, s', WorkTask(s, p, w, act), Processing, true, false);
    } else {
      SameCallsKeepInv(s, s');
    }
  }

  lemma LiveKeepsCalls(s: State, c: nat, act: LifeAct)
    requires CoreInv(s) && CallsInv(s) && CanLive(s, c, act)
    ensures CallsInv(Live(s, c, act))
  {
    match act
    case Handle(outcome) => HandleKeepsCalls(s, c, outcome);
    case Take(call) => TakeKeepsCalls(s, c, call);
    case Advance => SameCallsKeepInv(s, LiveAdvance(s, c));
    case _ => SameCallsKeepInv(s, WithTask(s, c, Fire(s.ctxs[c])));
  }

  lemma StepKeepsCalls(k: Config, s: State, step: Step)
    requires CoreInv(s) && CallsInv(s) && Enabled(k, s, step)
    ensures CallsInv(Apply(k, s, step))
  {
    match step
    case Living(c, act) => LiveKeepsCalls(s, c, act);
    case UserCalling(c, phase, columns) =>
      AppendKeepsCalls(s, UserCall(s, c, phase, columns), c, phase, columns, true);
    case Calling(call, act) => CallStepKeepsCalls(s, call, act);
    case Working(p, w, act) => WorkKeepsCalls(s, p, w, act);
    case _ =>
      QuietKeepsLives(k, s, step);
      SameCallsKeepInv(s, Apply(k, s, step));
  }

  lemma {:induction false} RunKeepsCalls(k: Config, run: seq<State>, steps: seq<Step>, i: nat)
    requires IsRun(k, run, steps) && i < |run|
    ensures CallsInv(run[i])
  {
    if i > 0 {
      RunKeepsCalls(k, run, steps, i - 1);
      RunKeepsCore(k, run, steps, i - 1);
      assert StepAt(k, run, steps, i - 1);
      StepKeepsCalls(k, run[i - 1], steps[i - 1]);
    }
  }

  /** The effect recorded for a call is what the row really went through in that step. */
  lemma EffectIsReal(s: State, c: nat, outcome: Outcome)
    requires CoreInv(s) && CallsInv(s) && CanLive(s, c, Handle(outcome))
    requires s.ctxs[c].pending.value.origin.FromCall?
    ensures var call := s.ctxs[c].pending.value.origin.call;
            var s' := LiveHandle(s, c, outcome);
            && call < |s.calls|
            && (s'.calls[call].effect.Some? ==>
                  && RowOf(s, c) == Some(s'.calls[call].effect.value.from)
                  && RowOf(s', c) == Some(s'.calls[call].effect.value.to))
            && (s'.calls[call].effect.None? ==> s'.rows == s.rows)
  {
    assert PendingInv(s, c);
    assert TaskInv(s.ctxs[c], RowOf(s, c));
    HandlePermitted(s.ctxs[c], RowOf(s, c), outcome);
  }

  /** When UpdateStatus returns nil, a permitted transition with the requested phase updated the row. */
  lemma NilMeansUpdated(k: Config, run: seq<State>, steps: seq<Step>, i: nat, call: nat)
    requires IsRun(k, run, steps) && i < |run| && call < |run[i].calls|
    requires run[i].calls[call].stage == Returned(Nil)
    ensures var u := run[i].calls[call];
            && u.effect.Some?
            && Permitted(u.effect.value.from, u.effect.value.to, u.byUser)
            && u.effect.value.to == Updated(u.effect.value.from, u.phase)
  {
    RunKeepsCalls(k, run, steps, i);
    assert EffectInv(run[i], run[i].calls[call]) && StageInv(run[i].calls[call]);
  }

  // ---------- requests that take effect ----------

  /** What a row in this phase is asked to become; a status without a phase asks it to stay. */
  function Wanted(row: TaskPhase, phase: TaskPhase): TaskPhase {
    if phase.Unset? then row else phase
  }

  /** The request in hand is permitted and has something to set, and the cached phase is that of the row. */
  predicate IsGranted(s: State, c: nat) {
    && c < |s.ctxs| && s.ctxs[c].pending.Some?
    && RowOf(s, c) == Some(s.ctxs[c].phase)
    && var req := s.ctxs[c].pending.value;
       && Permitted(s.ctxs[c].phase, Wanted(s.ctxs[c].phase, req.phase), req.byUser)
       && (req.phase.Unset? ==> req.columns)
  }

  /** A granted request takes effect unless its statement fails: its own row is as asked, and no other row changes. */
  lemma GrantedTakesEffect(s: State, c: nat, outcome: Outcome)
    requires CoreInv(s) && CanLive(s, c, Handle(outcome)) && IsGranted(s, c) && !outcome.Fault?
    ensures outcome.Hit?
    ensures var s', row := LiveHandle(s, c, Hit), s.ctxs[c].phase;
            var to := Wanted(row, s.ctxs[c].pending.value.phase);
            && RowOf(s', c) == Some(to) && s'.ctxs[c].phase == to
            && s'.rows.Keys == s.rows.Keys
            && (forall id | id in s.rows && id != s.ctxs[c].spec.id :: s'.rows[id] == s.rows[id])
            && s'.calls == Answered(s.calls, s.ctxs[c].pending.value, Some(Effect(row, to)))
  {
    assert TaskInv(s.ctxs[c], RowOf(s, c));
    HandleTakesEffect(s.ctxs[c], s.ctxs[c].phase, outcome);
  }

  /** A request that is not permitted changes no row, and leaves the cached phase. */
  lemma DeniedChangesNothing(s: State, c: nat, outcome: Outcome)
    requires CoreInv(s) && CanLive(s, c, Handle(outcome)) && RowOf(s, c) == Some(s.ctxs[c].phase)
    requires var req := s.ctxs[c].pending.value;
             !Permitted(s.ctxs[c].phase, Wanted(s.ctxs[c].phase, req.phase), req.byUser)
    ensures var s' := LiveHandle(s, c, outcome);
            s'.rows == s.rows && s'.ctxs == s.ctxs[c := s.ctxs[c].(pending := None)]
  {
    assert TaskInv(s.ctxs[c], RowOf(s, c));
    HandleTakesEffect(s.ctxs[c], s.ctxs[c].phase, outcome);
  }

  /** The call has been answered with one row, and nothing but its own timer comes between that and nil. */
  ghost predicate Succeeds(s: State, call: nat, effect: Effect) {
    && call < |s.calls| && s.calls[call].effect == Some(effect)
    && (s.calls[call].stage == Awaiting(Some(1))
        || s.calls[call].stage == Returned(Nil) || s.calls[call].stage == Returned(TimedOut))
  }

  /** The call still succeeds, and has run into its timer only if that was this step. */
  ghost predicate KeepsSuccess(s: State, step: Step, s': State, call: nat, effect: Effect)
    requires Succeeds(s, call, effect)
  {
    && Succeeds(s', call, effect)
    && (step != Calling(call, GiveUp) && s.calls[call].stage != Returned(TimedOut) ==>
          s'.calls[call].stage != Returned(TimedOut))
  }

  lemma LivingKeepsSuccess(s: State, c: nat, act: LifeAct, call: nat, effect: Effect)
    requires CallsInv(s) && CanLive(s, c, act) && Succeeds(s, call, effect)
    ensures KeepsSuccess(s, Step.Living(c, act), Live(s, c, act), call, effect)
  {
    assert PendingInv(s, c);
  }

  lemma CallingKeepsSuccess(s: State, i: nat, act: CallAct, call: nat, effect: Effect)
    requires CanCallStep(s, i, act) && Succeeds(s, call, effect)
    ensures KeepsSuccess(s, Calling(i, act), CallStep(s, i, act), call, effect)
  {
  }

  lemma WorkingKeepsSuccess(s: State, p: PoolId, w: nat, act: WorkAct, call: nat, effect: Effect)
    requires CanWork(s, p, w, act) && Succeeds(s, call, effect)
    ensures KeepsSuccess(s, Step.Working(p, w, act), Work(s, p, w, act), call, effect)
  {
  }

  lemma StepKeepsSuccess(k: Config, s: State, step: Step, call: nat, effect: Effect)
    requires CoreInv(s) && CallsInv(s) && Enabled(k, s, step) && Succeeds(s, call, effect)
    ensures KeepsSuccess(s, step, Apply(k, s, step), call, effect)
  {
    match step
    case Living(c, act) => LivingKeepsSuccess(s, c, act, call, effect);
    case UserCalling(_, _, _) =>
    case Calling(i, act) => CallingKeepsSuccess(s, i, act, call, effect);
    case Working(p, w, act) => WorkingKeepsSuccess(s, p, w, act, call, effect);
    case _ => QuietKeepsLives(k, s, step);
  }

  lemma GrantedCallSucceeds(k: Config, run: seq<State>, steps: seq<Step>, i: nat, c: nat, outcome: Outcome)
    requires IsRun(k, run, steps) && i < |steps|
    requires steps[i] == Step.Living(c, Handle(outcome)) && IsGranted(run[i], c) && !outcome.Fault?
    requires run[i].ctxs[c].pending.value.origin.FromCall?
    ensures var call := run[i].ctxs[c].pending.value.origin.call;
            && call < |run[i].calls|
            && (run[i].calls[call].stage == Awaiting(None) ==>
                  && Succeeds(run[i + 1], call,
                       Effect(run[i].ctxs[c].phase, Wanted(run[i].ctxs[c].phase, run[i].calls[call].phase)))
                  && run[i + 1].calls[call].stage == Awaiting(Some(1)))
  {
    RunKeepsCore(k, run, steps, i);
    RunKeepsCalls(k, run, steps, i);
    assert StepAt(k, run, steps, i);
    assert PendingInv(run[i], c);
    GrantedTakesEffect(run[i], c, outcome);
  }

  /**
   A caller that still waits when its granted request is handled, by a statement that does not fail, gets nil,
   unless its own timer runs out before it has looked: along every run from then on.
   */
  lemma {:induction false} GrantedMeansNil(
    k: Config, run: seq<State>, steps: seq<Step>, i: nat, j: nat, c: nat, outcome: Outcome, call: nat)
    requires IsRun(k, run, steps) && i < j < |run|
    requires steps[i] == Step.Living(c, Handle(outcome)) && IsGranted(run[i], c) && !outcome.Fault?
    requires run[i].ctxs[c].pending.value.origin == FromCall(call)
    requires call < |run[i].calls| && run[i].calls[call].stage == Awaiting(None)
    ensures Succeeds(run[j], call,
              Effect(run[i].ctxs[c].phase, Wanted(run[i].ctxs[c].phase, run[i].calls[call].phase)))
    ensures (forall x | i < x < j :: steps[x] != Calling(call, GiveUp)) ==>
              run[j].calls[call].stage != Returned(TimedOut)
    decreases j
  {
    if j == i + 1 {
      GrantedCallSucceeds(k, run, steps, i, c, outcome);
    } else {
      GrantedMeansNil(k, run, steps, i, j - 1, c, outcome, call);
      RunKeepsCore(k, run, steps, j - 1);
      RunKeepsCalls(k, run, steps, j - 1);
      assert StepAt(k, run, steps, j - 1);
      StepKeepsSuccess(k, run[j - 1], steps[j - 1], call,
        Effect(run[i].ctxs[c].phase, Wanted(run[i].ctxs[c].phase, run[i].calls[call].phase)));
    }
  }

  /** A user calls, and the task's loop picks the request. */
  function Picked(s: State, c: nat, phase: TaskPhase, columns: bool): State
    requires c < |s.ctxs| && Started(s.ctxs[c]) && Listening(s.ctxs[c])
  {
    LiveTake(UserCall(s, c, phase, columns), c, |s.calls|)
  }

  lemma PickedIsGranted(s: State, c: nat, phase: TaskPhase, columns: bool)
    requires CoreInv(s) && c < |s.ctxs| && Started(s.ctxs[c]) && Listening(s.ctxs[c])
    requires RowOf(s, c) == Some(s.ctxs[c].phase)
    requires Permitted(s.ctxs[c].phase, Wanted(s.ctxs[c].phase, phase), true) && (phase.Unset? ==> columns)
    ensures var s' := Picked(s, c, phase, columns);
            && CoreInv(s') && IsGranted(s', c) && CanLive(s', c, Handle(Hit))
            && s'.ctxs[c].pending == Some(Request(phase, columns, true, FromCall(|s.calls|)))
            && s'.ctxs[c].phase == s.ctxs[c].phase
            && |s'.calls| == |s.calls| + 1
            && s'.calls[|s.calls|].stage == Awaiting(None) && s'.calls[|s.calls|].ctx == c
  {
    var s1 := UserCall(s, c, phase, columns);
    assert CoreInv(s1) by {
      SameTasksKeepCore(s, s1);
    }
    LiveKeepsCore(s1, c, Take(|s.calls|));
  }

  /** The request can be handled, and then its caller can look at the answer: nil, with the row as asked. */
  ghost predicate EndsInNil(s: State, c: nat, call: nat, to: TaskPhase) {
    CanLive(s, c, Handle(Hit))
    && var handled := LiveHandle(s, c, Hit);
       CanCallStep(handled, call, Receive)
       && var s' := CallStep(handled, call, Receive);
          s'.calls[call].stage == Returned(Nil) && RowOf(s', c) == Some(to)
  }

  lemma GrantedEndsInNil(s: State, c: nat, call: nat)
    requires CoreInv(s) && CanLive(s, c, Handle(Hit)) && IsGranted(s, c)
    requires s.ctxs[c].pending.value.origin == FromCall(call)
    requires call < |s.calls| && s.calls[call].stage == Awaiting(None) && s.calls[call].ctx == c
    ensures EndsInNil(s, c, call, Wanted(s.ctxs[c].phase, s.ctxs[c].pending.value.phase))
  {
    GrantedTakesEffect(s, c, Hit);
    var handled := LiveHandle(s, c, Hit);
    assert handled.calls[call].stage == Awaiting(Some(1));
    assert RowOf(CallStep(handled, call, Receive), c) == RowOf(handled, c);
  }

  /** A task in one of its loops can take a user's permitted status, and then store it, and the caller gets nil. */
  lemma StatusCanBeStored(s: State, c: nat, phase: TaskPhase, columns: bool)
    requires CoreInv(s) && c < |s.ctxs| && Started(s.ctxs[c]) && Listening(s.ctxs[c])
    requires RowOf(s, c) == Some(s.ctxs[c].phase)
    requires Permitted(s.ctxs[c].phase, Wanted(s.ctxs[c].phase, phase), true) && (phase.Unset? ==> columns)
    ensures EndsInNil(Picked(s, c, phase, columns), c, |s.calls|, Wanted(s.ctxs[c].phase, phase))
  {
    PickedIsGranted(s, c, phase, columns);
    GrantedEndsInNil(Picked(s, c, phase, columns), c, |s.calls|);
  }

  // ---------- who asks ----------

  /** Only pool workers call with the scheduler's rights, and they ask for nothing but processing. */
  ghost predicate TrustInv(s: State) {
    forall i | 0 <= i < |s.calls| :: !s.calls[i].byUser ==> s.calls[i].phase == Processing
  }

  ghost predicate RightsKept(s: State, s': State) {
    && |s.calls| <= |s'.calls|
    && (forall i | 0 <= i < |s.calls| ::
          s'.calls[i].byUser == s.calls[i].byUser && s'.calls[i].phase == s.calls[i].phase)
    && (forall i | |s.calls| <= i < |s'.calls| :: !s'.calls[i].byUser ==> s'.calls[i].phase == Processing)
  }

  lemma StepKeepsRights(k: Config, s: State, step: Step)
    requires CoreInv(s) && Enabled(k, s, step)
    ensures RightsKept(s, Apply(k, s, step))
  {
    if Quiet(step) {
      QuietKeepsLives(k, s, step);
    } else if step.Living? {
      LiveKeepsRights(s, step.c, step.life);
    }
  }

  lemma LiveKeepsRights(s: State, c: nat, act: LifeAct)
    requires CanLive(s, c, act)
    ensures RightsKept(s, Live(s, c, act))
  {
  }

  /** In every reachable state a request handled for a caller is a user's, or asks for processing. */
  lemma {:induction false} OnlyWorkersAreTrusted(k: Config, run: seq<State>, steps: seq<Step>, i: nat)
    requires IsRun(k, run, steps) && i < |run|
    ensures TrustInv(run[i])
    ensures forall c | 0 <= c < |run[i].ctxs| && run[i].ctxs[c].pending.Some? ::
              var req := run[i].ctxs[c].pending.value;
              req.origin.FromCall? ==> req.byUser || req.phase == Processing
  {
    RunKeepsCalls(k, run, steps, i);
    if i > 0 {
      OnlyWorkersAreTrusted(k, run, steps, i - 1);
      RunKeepsCore(k, run, steps, i - 1);
      assert StepAt(k, run, steps, i - 1);
      StepKeepsRights(k, run[i - 1], steps[i - 1]);
    }
    forall c | 0 <= c < |run[i].ctxs| && run[i].ctxs[c].pending.Some? && run[i].ctxs[c].pending.value.origin.FromCall?
      ensures run[i].ctxs[c].pending.value.byUser || run[i].ctxs[c].pending.value.phase == Processing
    {
      assert PendingInv(run[i], c);
    }
  }

  // ---------- after Done ----------

  /** The life cycle of context c is over for callers: it will take no further request. */
  ghost predicate Deaf(s: State, c: nat) {
    c < |s.ctxs| && Unheard(s.ctxs[c])
  }

  /** The call is to context c and cannot succeed without being taken first. */
  ghost predicate Untaken(s: State, call: nat, c: nat) {
    && call < |s.calls|
    && s.calls[call].ctx == c
    && (s.calls[call].stage.Sending? || (s.calls[call].stage.Returned? && !s.calls[call].stage.result.Nil?))
  }

  /** The call is no call to c, or it is one that was never taken. */
  ghost predicate Hopeless(s: State, call: nat, c: nat) {
    call < |s.calls| && s.calls[call].ctx == c ==> Untaken(s, call, c)
  }

  lemma LivingStaysDeaf(s: State, d: nat, act: LifeAct, c: nat, call: nat)
    requires CoreInv(s) && CallsInv(s) && CanLive(s, d, act) && Deaf(s, c) && Hopeless(s, call, c)
    ensures Deaf(Live(s, d, act), c) && Hopeless(Live(s, d, act), call, c)
    ensures |Live(s, d, act).calls| == |s.calls|
  {
    assert TaskInv(s.ctxs[c], RowOf(s, c)) && PendingInv(s, d);
  }

  lemma CallingStaysDeaf(s: State, i: nat, act: CallAct, c: nat, call: nat)
    requires CanCallStep(s, i, act) && Deaf(s, c) && Hopeless(s, call, c)
    ensures Deaf(CallStep(s, i, act), c) && Hopeless(CallStep(s, i, act), call, c)
  {
  }

  lemma WorkingStaysDeaf(s: State, p: PoolId, w: nat, act: WorkAct, c: nat, call: nat)
    requires CanWork(s, p, w, act) && Deaf(s, c) && Hopeless(s, call, c)
    ensures Deaf(Work(s, p, w, act), c) && Hopeless(Work(s, p, w, act), call, c)
  {
  }

  lemma StepStaysDeaf(k: Config, s: State, step: Step, c: nat, call: nat)
    requires CoreInv(s) && CallsInv(s) && Enabled(k, s, step) && Deaf(s, c) && Hopeless(s, call, c)
    ensures Deaf(Apply(k, s, step), c) && Hopeless(Apply(k, s, step), call, c)
  {
    match step
    case Living(d, act) => LivingStaysDeaf(s, d, act, c, call);
    case UserCalling(_, _, _) =>
    case Calling(i, act) => CallingStaysDeaf(s, i, act, c, call);
    case Working(p, w, act) => WorkingStaysDeaf(s, p, w, act, c, call);
    case _ => QuietKeepsLives(k, s, step);
  }

  /** A context that is deaf leaves its row alone: only deletion can follow. */
  lemma DeafKeepsRow(k: Config, s: State, step: Step, c: nat)
    requires CoreInv(s) && Enabled(k, s, step) && Deaf(s, c)
    ensures KeepsIdentity(s, Apply(k, s, step), c) && KeepsRow(s, Apply(k, s, step), c)
  {
    RowMoves(k, s, step, c);
    assert TaskInv(s.ctxs[c], RowOf(s, c));
  }

  ghost predicate StaysOver(s: State, s': State, c: nat, call: nat) {
    && Deaf(s', c) && Hopeless(s', call, c)
    && KeepsIdentity(s, s', c) && KeepsRow(s, s', c)
  }

  lemma RunStepStaysOver(k: Config, run: seq<State>, steps: seq<Step>, i: nat, c: nat, call: nat)
    requires IsRun(k, run, steps) && i < |steps|
    requires Deaf(run[i], c) && Hopeless(run[i], call, c)
    ensures StaysOver(run[i], run[i + 1], c, call)
  {
    RunKeepsCore(k, run, steps, i);
    RunKeepsCalls(k, run, steps, i);
    assert StepAt(k, run, steps, i);
    StepStaysDeaf(k, run[i], steps[i], c, call);
    DeafKeepsRow(k, run[i], steps[i], c);
  }

  lemma StaysOverTransitive(s: State, m: State, e: State, c: nat, call: nat)
    requires StaysOver(s, m, c, call) && StaysOver(m, e, c, call)
    ensures StaysOver(s, e, c, call)
  {
  }

  /**
   Once the life cycle has closed the update channel, which it does before it closes Done, no call
   of UpdateStatus that was not taken before, and none made later, ever returns nil, and the row
   of the task never changes again.
   */
  lemma {:induction false} NoUpdateAfterClose(
    k: Config, run: seq<State>, steps: seq<Step>, i: nat, j: nat, c: nat, call: nat)
    requires IsRun(k, run, steps) && i <= j < |run|
    requires Deaf(run[i], c) && Hopeless(run[i], call, c)
    ensures StaysOver(run[i], run[j], c, call)
  {
    if i < j {
      NoUpdateAfterClose(k, run, steps, i, j - 1, c, call);
      RunStepStaysOver(k, run, steps, j - 1, c, call);
      StaysOverTransitive(run[i], run[j - 1], run[j], c, call);
    }
  }
}
