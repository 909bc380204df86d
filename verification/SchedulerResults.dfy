/** The main results about tasks, over whole runs of the scheduler. */
module SchedulerResults {
  import opened Basics
  import opened TaskPhases
  import opened TaskLifeCycle
  import opened SchedulerState
  import opened SchedulerTasks

  // ---------- the history of a row ----------

  /** Context c keeps its identity, and a row it lost is lost for good. */
  ghost predicate KeepsIdentity(s: State, s': State, c: nat) {
    && c < |s.ctxs| <= |s'.ctxs|
    && s'.ctxs[c].spec == s.ctxs[c].spec
    && (Owns(s.ctxs[c]) ==> Owns(s'.ctxs[c]) && (RowOf(s, c).None? ==> RowOf(s', c).None?))
  }

  /** The row of context c stays as it is, as long as it stays. */
  ghost predicate KeepsRow(s: State, s': State, c: nat)
    requires c < |s.ctxs| && c < |s'.ctxs|
  {
    RowOf(s, c).Some? && RowOf(s', c).Some? ==> RowOf(s', c) == RowOf(s, c)
  }

  lemma HandleMovesRow(s: State, d: nat, outcome: Outcome, c: nat)
    requires CoreInv(s) && CanLive(s, d, Handle(outcome)) && c < |s.ctxs|
    ensures var s' := LiveHandle(s, d, outcome);
            && KeepsIdentity(s, s', c)
            && (KeepsRow(s, s', c)
                || (&& d == c && outcome.Hit?
                    && Permitted(RowOf(s, c).value, RowOf(s', c).value, s.ctxs[c].pending.value.byUser)))
  {
    assert TaskInv(s.ctxs[d], RowOf(s, d));
    HandlePermitted(s.ctxs[d], RowOf(s, d), outcome);
    if c != d {
      OtherRow(s, LiveHandle(s, d, outcome), d, c);
    }
  }

  lemma LiveMovesRow(s: State, d: nat, act: LifeAct, c: nat)
    requires CoreInv(s) && CanLive(s, d, act) && c < |s.ctxs| && !act.Handle?
    ensures KeepsIdentity(s, Live(s, d, act), c) && KeepsRow(s, Live(s, d, act), c)
  {
    assert Live(s, d, act).rows == s.rows;
    assert Live(s, d, act).ctxs[c].spec == s.ctxs[c].spec;
    assert Owns(Live(s, d, act).ctxs[c]) == Owns(s.ctxs[c]);
  }

  lemma TransactMovesRow(k: Config, s: State, d: nat, result: TxResult, c: nat)
    requires CoreInv(s) && CanTransact(k, s, d, result) && c < |s.ctxs|
    ensures KeepsIdentity(s, Transact(s, d, result), c) && KeepsRow(s, Transact(s, d, result), c)
  {
    if Owns(s.ctxs[c]) {
      TransactLeavesRow(k, s, d, result, c);
    }
  }

  lemma TransactLeavesRow(k: Config, s: State, d: nat, result: TxResult, c: nat)
    requires CanTransact(k, s, d, result) && c < |s.ctxs| && Owns(s.ctxs[c])
    ensures var s' := Transact(s, d, result);
            |s'.ctxs| == |s.ctxs| && s'.ctxs[c] == s.ctxs[c] && RowOf(s', c) == RowOf(s, c)
  {
    assert c != d;
    assert result.Commits? ==> s.ctxs[c].spec.id != s.ctxs[d].spec.id;
  }

  lemma SubmitMovesRow(k: Config, s: State, step: Step, c: nat)
    requires Enabled(k, s, step) && c < |s.ctxs|
    requires step.Creating? || step.Counting? || step.Finishing?
    ensures KeepsIdentity(s, Apply(k, s, step), c) && KeepsRow(s, Apply(k, s, step), c)
  {
  }

  lemma OtherMovesRow(k: Config, s: State, step: Step, c: nat)
    requires Enabled(k, s, step) && c < |s.ctxs|
    requires step.UserCalling? || step.Calling? || step.Working? || step.Parking? || step.Cancelling? || step.StoppingRoot?
    ensures KeepsIdentity(s, Apply(k, s, step), c) && KeepsRow(s, Apply(k, s, step), c)
  {
  }

  lemma CleanMovesRow(k: Config, s: State, act: CleanAct, c: nat)
    requires CanClean(k, s, act) && c < |s.ctxs|
    ensures KeepsIdentity(s, Clean(k, s, act), c) && KeepsRow(s, Clean(k, s, act), c)
  {
  }

  /**
   In every interleaving a row moves only while a request of its own task is handled, and only
   as the design permits for whoever asked: a user can let it stay or finish it.
   */
  lemma RowMoves(k: Config, s: State, step: Step, c: nat)
    requires CoreInv(s) && Enabled(k, s, step) && c < |s.ctxs|
    ensures var s' := Apply(k, s, step);
            && KeepsIdentity(s, s', c)
            && (KeepsRow(s, s', c)
                || (&& step == Living(c, Handle(Hit))
                    && s.ctxs[c].pending.Some?
                    && Permitted(RowOf(s, c).value, RowOf(s', c).value, s.ctxs[c].pending.value.byUser)))
  {
    match step
    case Living(d, act) =>
      match act {
        case Handle(outcome) => HandleMovesRow(s, d, outcome, c);
        case _ => LiveMovesRow(s, d, act, c);
      }
    case Transacting(d, result) => TransactMovesRow(k, s, d, result, c);
    case Cleaning(act) => CleanMovesRow(k, s, act, c);
    case Creating(_) => SubmitMovesRow(k, s, step, c);
    case Counting(_) => SubmitMovesRow(k, s, step, c);
    case Finishing(_) => SubmitMovesRow(k, s, step, c);
    case _ => OtherMovesRow(k, s, step, c);
  }

  /** A row in phase p can be in phase q later: no lighter, the same if as heavy, and the same if finished. */
  ghost predicate Follows(p: TaskPhase, q: TaskPhase) {
    && IsStored(p) && IsStored(q)
    && Weight(p) <= Weight(q)
    && (Weight(p) == Weight(q) <==> p == q)
    && (IsFinished(p) ==> q == p)
  }

  ghost predicate RowFollows(s: State, s': State, c: nat)
    requires c < |s.ctxs| && c < |s'.ctxs|
  {
    RowOf(s, c).Some? && RowOf(s', c).Some? ==> Follows(RowOf(s, c).value, RowOf(s', c).value)
  }

  lemma StepFollows(k: Config, s: State, step: Step, c: nat)
    requires CoreInv(s) && Enabled(k, s, step) && c < |s.ctxs|
    ensures KeepsIdentity(s, Apply(k, s, step), c) && RowFollows(s, Apply(k, s, step), c)
  {
    var s' := Apply(k, s, step);
    RowMoves(k, s, step, c);
    assert TaskInv(s.ctxs[c], RowOf(s, c));
    if RowOf(s, c).Some? && !KeepsRow(s, s', c) {
      PermittedGains(RowOf(s, c).value, RowOf(s', c).value, s.ctxs[c].pending.value.byUser);
    }
  }

  lemma FollowsTransitive(s: State, m: State, e: State, c: nat)
    requires KeepsIdentity(s, m, c) && KeepsIdentity(m, e, c)
    requires RowFollows(s, m, c) && RowFollows(m, e, c)
    ensures RowFollows(s, e, c)
  {
  }

  lemma RunStepFollows(k: Config, run: seq<State>, steps: seq<Step>, i: nat, c: nat)
    requires IsRun(k, run, steps) && i < |steps| && c < |run[i].ctxs|
    ensures KeepsIdentity(run[i], run[i + 1], c) && RowFollows(run[i], run[i + 1], c)
  {
    RunKeepsCore(k, run, steps, i);
    assert StepAt(k, run, steps, i);
    StepFollows(k, run[i], steps[i], c);
  }

  /** Along every run the weight of a row never decreases, and a finished row never changes. */
  lemma {:induction false} RowHistory(k: Config, run: seq<State>, steps: seq<Step>, i: nat, j: nat, c: nat)
    requires IsRun(k, run, steps) && i <= j < |run| && c < |run[i].ctxs|
    ensures KeepsIdentity(run[i], run[j], c) && RowFollows(run[i], run[j], c)
  {
    RunKeepsCore(k, run, steps, j);
    if i == j {
      assert TaskInv(run[i].ctxs[c], RowOf(run[i], c));
    } else {
      RowHistory(k, run, steps, i, j - 1, c);
      RunStepFollows(k, run, steps, j - 1, c);
      FollowsTransitive(run[i], run[j - 1], run[j], c);
    }
  }

  // ---------- the cached phase ----------

  /** In this step a request of the task is handled, and its answer loses the cached phase. */
  ghost predicate Loses(s: State, step: Step, c: nat) {
    && c < |s.ctxs|
    && step.Living? && step.c == c && step.life.Handle?
    && LosesPhase(s.ctxs[c], step.life.outcome)
  }

  /** In this step an allowed request of the task is handled, and the row is updated. */
  ghost predicate Stores(s: State, step: Step, c: nat) {
    c < |s.ctxs| && step == Living(c, Handle(Hit)) && IsAllowed(s.ctxs[c])
  }

  /**
   The cached phase is lost in a step exactly when an allowed request meets a missing row, or names no
   column at all, or is the scheduler's own and the statement fails.
   */
  lemma LosesExactly(k: Config, s: State, step: Step, c: nat)
    requires CoreInv(s) && Enabled(k, s, step) && c < |s.ctxs| && !s.ctxs[c].phase.Unset?
    ensures c < |Apply(k, s, step).ctxs|
    ensures Apply(k, s, step).ctxs[c].phase.Unset?
            <==> && step.Living? && step.c == c && step.life.Handle? && IsAllowed(s.ctxs[c])
                 && var req := s.ctxs[c].pending.value;
                    if step.life.outcome.Fault? then !req.byUser else RowOf(s, c).None? || IsBlank(req)
  {
    StepKeepsCached(k, s, step, c);
  }

  lemma LiveKeepsCached(s: State, d: nat, act: LifeAct, c: nat)
    requires CoreInv(s) && CanLive(s, d, act) && c < |s.ctxs|
    ensures var s' := Live(s, d, act);
            && c < |s'.ctxs|
            && (Loses(s, Living(d, act), c) ==> s'.ctxs[c].phase.Unset?)
            && (Stores(s, Living(d, act), c) ==> !s'.ctxs[c].phase.Unset?)
            && (!Loses(s, Living(d, act), c) && !Stores(s, Living(d, act), c) ==> s'.ctxs[c].phase == s.ctxs[c].phase)
  {
    assert TaskInv(s.ctxs[d], RowOf(s, d));
  }

  /** Only these two answers touch the cached phase. */
  lemma StepKeepsCached(k: Config, s: State, step: Step, c: nat)
    requires CoreInv(s) && Enabled(k, s, step) && c < |s.ctxs|
    ensures var s' := Apply(k, s, step);
            && c < |s'.ctxs|
            && (Loses(s, step, c) ==> s'.ctxs[c].phase.Unset?)
            && (Stores(s, step, c) ==> !s'.ctxs[c].phase.Unset?)
            && (!Loses(s, step, c) && !Stores(s, step, c) ==> s'.ctxs[c].phase == s.ctxs[c].phase)
  {
    if step.Living? {
      LiveKeepsCached(s, step.c, step.life, c);
    } else {
      OtherKeepsCached(k, s, step, c);
    }
  }

  lemma OtherKeepsCached(k: Config, s: State, step: Step, c: nat)
    requires Enabled(k, s, step) && c < |s.ctxs| && !step.Living?
    ensures c < |Apply(k, s, step).ctxs| && Apply(k, s, step).ctxs[c].phase == s.ctxs[c].phase
  {
    if step.Cleaning? {
      CleanKeepsCached(k, s, step.clean, c);
    }
  }

  lemma CleanKeepsCached(k: Config, s: State, act: CleanAct, c: nat)
    requires CanClean(k, s, act) && c < |s.ctxs|
    ensures Clean(k, s, act).ctxs == s.ctxs
  {
  }

  /** Of the answers that touched the cached phase, the last one lost it. */
  ghost predicate LostAt(run: seq<State>, steps: seq<Step>, i: nat, c: nat)
    requires i < |run| == |steps| + 1
    decreases i
  {
    && i > 0
    && (Loses(run[i - 1], steps[i - 1], c)
        || (!Stores(run[i - 1], steps[i - 1], c) && LostAt(run, steps, i - 1, c)))
  }

  lemma {:induction false} LostExactly(k: Config, run: seq<State>, steps: seq<Step>, i: nat, c: nat)
    requires IsRun(k, run, steps) && i < |run|
    ensures c < |run[i].ctxs| ==> (run[i].ctxs[c].phase.Unset? <==> LostAt(run, steps, i, c))
    ensures c >= |run[i].ctxs| ==> !LostAt(run, steps, i, c)
  {
    if i > 0 {
      LostExactly(k, run, steps, i - 1, c);
      RunKeepsCore(k, run, steps, i - 1);
      assert StepAt(k, run, steps, i - 1);
      if c < |run[i - 1].ctxs| {
        StepKeepsCached(k, run[i - 1], steps[i - 1], c);
      } else {
        NewContext(k, run[i - 1], steps[i - 1], c);
      }
    }
  }

  /** A context starts out waiting. */
  lemma NewContext(k: Config, s: State, step: Step, c: nat)
    requires Enabled(k, s, step) && |s.ctxs| <= c
    ensures |s.ctxs| <= |Apply(k, s, step).ctxs|
    ensures c < |Apply(k, s, step).ctxs| ==> Apply(k, s, step).ctxs[c].phase.Waiting?
  {
    if !step.Creating? {
      StepKeepsSpecs(k, s, step);
    }
  }

  /** Without a losing answer nothing is lost. */
  lemma {:induction false} NeverLost(run: seq<State>, steps: seq<Step>, i: nat, c: nat)
    requires i < |run| == |steps| + 1
    requires forall j | 0 <= j < i :: !Loses(run[j], steps[j], c)
    ensures !LostAt(run, steps, i, c)
    decreases i
  {
    if i > 0 {
      NeverLost(run, steps, i - 1, c);
    }
  }

  /**
   In every reachable state the cached phase of a stored task is the stored phase exactly when the last
   answer that touched it did not lose it, so whenever no answer did. Otherwise it is unset, and the row
   is not finished.
   */
  lemma CachedPhaseIsStored(k: Config, run: seq<State>, steps: seq<Step>, i: nat, c: nat)
    requires IsRun(k, run, steps) && i < |run| && c < |run[i].ctxs| && RowOf(run[i], c).Some?
    ensures var t, row := run[i].ctxs[c], RowOf(run[i], c).value;
            && (t.phase == row <==> !LostAt(run, steps, i, c))
            && (t.phase == row || (t.phase.Unset? && !IsFinished(row)))
            && ((forall j | 0 <= j < i :: !Loses(run[j], steps[j], c)) ==> t.phase == row)
  {
    RunKeepsCore(k, run, steps, i);
    assert TaskInv(run[i].ctxs[c], RowOf(run[i], c));
    LostExactly(k, run, steps, i, c);
    if forall j | 0 <= j < i :: !Loses(run[j], steps[j], c) {
      NeverLost(run, steps, i, c);
    }
  }

  // ---------- the end of a task ----------

  /**
   When the life cycle has closed Done, graceful shutdown was signalled, the main context is cancelled
   and the update channel is closed; and the row, if it is still there, is finished exactly when the
   cached phase was not lost at the end, so whenever no answer lost it.
   */
  lemma DoneMeansFinished(k: Config, run: seq<State>, steps: seq<Step>, i: nat, c: nat)
    requires IsRun(k, run, steps) && i < |run| && c < |run[i].ctxs|
    requires Started(run[i].ctxs[c]) && run[i].ctxs[c].done
    ensures var t := run[i].ctxs[c]; t.graceful && t.cancelled && t.closed
    ensures RowOf(run[i], c).Some? ==>
              && (IsFinished(RowOf(run[i], c).value) <==> !LostAt(run, steps, i, c))
              && ((forall j | 0 <= j < i :: !Loses(run[j], steps[j], c)) ==> IsFinished(RowOf(run[i], c).value))
  {
    RunKeepsCore(k, run, steps, i);
    assert TaskInv(run[i].ctxs[c], RowOf(run[i], c));
    if RowOf(run[i], c).Some? {
      CachedPhaseIsStored(k, run, steps, i, c);
    }
  }
}
