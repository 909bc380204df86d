/**
 The goroutine of one task, run as the three loops it is, changing the context and its row in place.
 What the select statements pick, one after the other, is given as a list of events; a list that
 runs out leaves the goroutine blocked in its loop.
 */
module TaskContexts {
  import opened Basics
  import opened TaskPhases
  import opened TaskLifeCycle

  /** A request that is picked, or a timer or the main context when there is none, and whether its statement fails. */
  datatype Event = Event(request: Option<Request>, fault: bool)

  function OutcomeOf(row: Option<TaskPhase>, req: Request, e: Event): Outcome {
    if e.fault then Fault else Answer(row, req)
  }

  function PickedRequest(t: Task, e: Event): Request {
    match e.request
    case Some(req) => req
    case None => LoopRequest(t)
  }

  datatype Cell = Cell(task: Task, row: Option<TaskPhase>)

  /** One round of a loop. */
  function Absorb(s: Cell, e: Event): Cell {
    var req := PickedRequest(s.task, e);
    var h := HandleUpdateRequest(s.task.(pending := Some(req)), s.row, OutcomeOf(s.row, req, e));
    Cell(h.task, h.row)
  }

  /** A loop, until its condition fails or nothing more is picked. */
  function Loop(s: Cell, events: seq<Event>): (Cell, seq<Event>)
    decreases |events|
  {
    if !InLoop(s.task) || events == [] then (s, events) else Loop(Absorb(s, events[0]), events[1..])
  }

  function Advanced(s: Cell): Cell {
    if CanAdvance(s.task) then s.(task := TaskLifeCycle.Next(s.task)) else s
  }

  /** What the deferred function of onAborting does: close the channels, then Done, then offer the event. */
  function Shut(s: Cell): Cell {
    Advanced(Advanced(Advanced(Advanced(s))))
  }

  /** onAborting: one forced request without a grace period, a loop with one. */
  function Aborted(s: Cell, forced: Event, events: seq<Event>): (Cell, seq<Event>) {
    var entered := Advanced(s);
    if entered.task.life.ForcedAborting? then
      (Shut(Absorb(entered, Event(Some(FORCED_SHUTDOWN), forced.fault))), events)
    else
      var (left, rest) := Loop(entered, events);
      (if InLoop(left.task) then left else Shut(left), rest)
  }

  /** The whole goroutine. */
  function LifeCycle(s: Cell, forced: Event, events: seq<Event>): (Cell, seq<Event>) {
    var (waited, rest) := Loop(s, events);
    if InLoop(waited.task) then (waited, rest)
    else
      var (processed, rest') := Loop(Advanced(waited), rest);
      if InLoop(processed.task) then (processed, rest') else Aborted(Advanced(processed), forced, rest')
  }

  // ---------- what every round keeps ----------

  /** In a loop of the goroutine, with no request in hand. */
  ghost predicate Runs(s: Cell) {
    TaskInv(s.task, s.row) && s.task.pending.None? && Started(s.task)
  }

  /** Requests that reach the goroutine through the update channel. */
  ghost predicate FromCallers(events: seq<Event>) {
    forall e | e in events && e.request.Some? :: e.request.value.origin.FromCall?
  }

  lemma AbsorbKeeps(s: Cell, e: Event)
    requires Runs(s) && InLoop(s.task) && (e.request.Some? ==> e.request.value.origin.FromCall?)
    ensures Runs(Absorb(s, e)) && Absorb(s, e).task.life == s.task.life
    ensures Absorb(s, e).task.spec == s.task.spec
  {
    var req := PickedRequest(s.task, e);
    var asked := s.task.(pending := Some(req));
    HandleKeepsInv(asked, s.row, OutcomeOf(s.row, req, e));
  }

  lemma {:induction false} LoopKeeps(s: Cell, events: seq<Event>)
    requires Runs(s) && FromCallers(events)
    ensures var (left, rest) := Loop(s, events);
            Runs(left) && left.task.life == s.task.life && left.task.spec == s.task.spec && FromCallers(rest)
            && (InLoop(left.task) ==> rest == [])
    decreases |events|
  {
    if InLoop(s.task) && events != [] {
      AbsorbKeeps(s, events[0]);
      LoopKeeps(Absorb(s, events[0]), events[1..]);
    }
  }

  lemma AdvanceKeeps(s: Cell)
    requires TaskInv(s.task, s.row) && CanAdvance(s.task) && !TaskLifeCycle.Next(s.task).pending.Some?
    ensures Runs(Advanced(s)) && Advanced(s).row == s.row && Advanced(s).task.phase == s.task.phase
  {
  }

  lemma ShutEnds(s: Cell)
    requires Runs(s) && !InLoop(s.task) && (s.task.life.ForcedAborting? || s.task.life.OnAborting?)
    ensures Runs(Shut(s)) && Shut(s).task.life.Ended? && Shut(s).row == s.row && Shut(s).task.phase == s.task.phase
  {
    AdvanceKeeps(s);
    AdvanceKeeps(Advanced(s));
    AdvanceKeeps(Advanced(Advanced(s)));
    AdvanceKeeps(Advanced(Advanced(Advanced(s))));
  }

  lemma AbortEnds(s: Cell, forced: Event, events: seq<Event>)
    requires Runs(s) && s.task.life.EnterAborting? && FromCallers(events)
    ensures var (t, rest) := Aborted(s, forced, events);
            Runs(t) && (t.task.life.Ended? || (t.task.life.OnAborting? && InLoop(t.task) && rest == []))
  {
    AdvanceKeepsInv(s.task, s.row);
    var entered := Advanced(s);
    if entered.task.life.ForcedAborting? {
      var req := FORCED_SHUTDOWN;
      var e := Event(Some(req), forced.fault);
      HandleKeepsInv(entered.task, entered.row, OutcomeOf(entered.row, req, e));
      assert entered.task.(pending := Some(req)) == entered.task;
      ShutEnds(Absorb(entered, e));
    } else {
      LoopKeeps(entered, events);
      var (left, rest) := Loop(entered, events);
      if !InLoop(left.task) {
        ShutEnds(left);
      }
    }
  }

  /**
   However callers, timers and the database behave, the goroutine either waits in one of its loops for
   the next event, or it has come to its end: then Done is closed, graceful shutdown was signalled
   before, the main context is cancelled, no update is taken any more, and the row, if it is still
   there, is finished exactly when the cached phase was not lost.
   */
  lemma GoroutineEndsInOrder(s: Cell, forced: Event, events: seq<Event>)
    requires Runs(s) && s.task.life.OnWaiting? && FromCallers(events)
    ensures var (t, rest) := LifeCycle(s, forced, events);
            if InLoop(t.task) then rest == [] && !t.task.done
            else
              && t.task.life.Ended? && t.task.done && t.task.graceful && t.task.cancelled && t.task.closed
              && (t.row.Some? ==> (IsFinished(t.row.value) <==> !t.task.phase.Unset?))
  {
    LoopKeeps(s, events);
    var (waited, rest) := Loop(s, events);
    if !InLoop(waited.task) {
      AdvanceKeeps(waited);
      LoopKeeps(Advanced(waited), rest);
      var (processed, rest') := Loop(Advanced(waited), rest);
      if !InLoop(processed.task) {
        AdvanceKeeps(processed);
        AbortEnds(Advanced(processed), forced, rest');
      }
    }
  }

  // ---------- when the row is finished ----------

  /** No statement of the scheduler fails, and no caller sends a status without any column. */
  predicate Answerable(e: Event) {
    if e.request.None? || !e.request.value.byUser then !e.fault && (e.request.Some? ==> !IsBlank(e.request.value))
    else e.fault || !IsBlank(e.request.value)
  }

  ghost predicate Knows(s: Cell) {
    s.row.Some? && !s.task.phase.Unset?
  }

  lemma AbsorbKnows(s: Cell, e: Event)
    requires Runs(s) && InLoop(s.task) && (e.request.Some? ==> e.request.value.origin.FromCall?)
    requires Knows(s) && Answerable(e)
    ensures Knows(Absorb(s, e))
  {
  }

  lemma {:induction false} LoopKnows(s: Cell, events: seq<Event>)
    requires Runs(s) && FromCallers(events) && Knows(s) && forall e | e in events :: Answerable(e)
    ensures var (left, rest) := Loop(s, events); Knows(left) && forall e | e in rest :: Answerable(e)
    decreases |events|
  {
    if InLoop(s.task) && events != [] {
      AbsorbKnows(s, events[0]);
      AbsorbKeeps(s, events[0]);
      LoopKnows(Absorb(s, events[0]), events[1..]);
    }
  }

  lemma AbortKnows(s: Cell, forced: Event, events: seq<Event>)
    requires Runs(s) && s.task.life.EnterAborting? && FromCallers(events)
    requires Knows(s) && !forced.fault && forall e | e in events :: Answerable(e)
    ensures Knows(Aborted(s, forced, events).0)
  {
    AdvanceKeepsInv(s.task, s.row);
    var entered := Advanced(s);
    if entered.task.life.ForcedAborting? {
      var req := FORCED_SHUTDOWN;
      var e := Event(Some(req), forced.fault);
      HandleKeepsInv(entered.task, entered.row, OutcomeOf(entered.row, req, e));
      assert entered.task.(pending := Some(req)) == entered.task;
      ShutEnds(Absorb(entered, e));
    } else {
      LoopKeeps(entered, events);
      LoopKnows(entered, events);
      var (left, rest) := Loop(entered, events);
      if !InLoop(left.task) {
        ShutEnds(left);
      }
    }
  }

  /** With a row that stays and such requests and answers, a goroutine that ends leaves a finished row. */
  lemma GoroutineFinishesRow(s: Cell, forced: Event, events: seq<Event>)
    requires Runs(s) && s.task.life.OnWaiting? && FromCallers(events)
    requires Knows(s) && !forced.fault && forall e | e in events :: Answerable(e)
    ensures var t := LifeCycle(s, forced, events).0;
            Knows(t) && (!InLoop(t.task) ==> IsFinished(t.row.value))
  {
    GoroutineEndsInOrder(s, forced, events);
    LoopKeeps(s, events);
    LoopKnows(s, events);
    var (waited, rest) := Loop(s, events);
    if !InLoop(waited.task) {
      AdvanceKeeps(waited);
      LoopKeeps(Advanced(waited), rest);
      LoopKnows(Advanced(waited), rest);
      var (processed, rest') := Loop(Advanced(waited), rest);
      if !InLoop(processed.task) {
        AdvanceKeeps(processed);
        AbortKnows(Advanced(processed), forced, rest');
      }
    }
  }

  /**
   A single status without columns from a user ends the goroutine: once a worker has set the row to
   processing, Done is closed, after a grace period or not at once, and the row stays as it is.
   */
  lemma BlankStatusEndsGoroutine(s: Cell, start: Request, blank: Request, forced: Event, more: seq<Event>)
    requires Runs(s) && s.task.life.OnWaiting? && s.task.phase.Waiting? && s.row == Some(Waiting)
    requires s.task.spec.gracefulTimeout > 0
    requires start == Request(Processing, true, false, start.origin) && start.origin.FromCall?
    requires IsBlank(blank) && blank.byUser && blank.origin.FromCall?
    requires FromCallers(more)
    ensures var t := LifeCycle(s, forced, [Event(Some(start), false), Event(Some(blank), false)] + more).0;
            t.task.done && t.row == Some(Processing)
  {
    var events := [Event(Some(start), false), Event(Some(blank), false)] + more;
    var rest := [Event(Some(blank), false)] + more;
    assert events[1..] == rest && rest[1..] == more;
    var started := Absorb(s, events[0]);
    AbsorbKeeps(s, events[0]);
    assert Loop(s, events) == (started, rest);
    AdvanceKeeps(started);
    var processing := Advanced(started);
    var lost := Absorb(processing, rest[0]);
    AbsorbKeeps(processing, rest[0]);
    assert Loop(processing, rest) == (lost, more);
    AdvanceKeeps(lost);
    var aborting := Advanced(lost);
    AdvanceKeeps(aborting);
    ShutEnds(Advanced(aborting));
  }

  // ---------- the goroutine ----------

  class TaskContext {
    const spec: TaskSpec
    var phase: TaskPhase
    var row: Option<TaskPhase>      // its row in the repository
    var mainDone: bool              // mainCtxCancel was called
    var gracefulSignalled: bool
    var updatesClosed: bool
    var doneClosed: bool
    var eventOffered: bool
    ghost var task: Task            // the same context in the step machine

    ghost predicate Valid()
      reads this
    {
      && task.spec == spec && task.phase == phase
      && task.cancelled == mainDone && task.graceful == gracefulSignalled
      && task.closed == updatesClosed && task.done == doneClosed
      && (eventOffered <==> task.life.Ended? && spec.IsMaster())
    }

    ghost function Value(): Cell
      reads this
    {
      Cell(task, row)
    }

    /** The context of a task whose row was just stored. */
    constructor (spec: TaskSpec, parent: Option<nat>, place: Place)
      ensures Valid() && Runs(Value()) && task.life.OnWaiting? && this.spec == spec && task.parent == parent
    {
      this.spec, phase, row := spec, Waiting, Some(Waiting);
      mainDone, gracefulSignalled, updatesClosed, doneClosed, eventOffered := false, false, false, false, false;
      task := Task(spec, parent, Accepted, LifeStage.OnWaiting, Waiting, None,
                   false, false, false, false, 0, false, place, 0);
    }

    /** The repository's update: the stored phase and the number of rows, or an error. */
    method UpdateTaskStatus(newPhase: TaskPhase, columns: bool, e: Event)
      returns (stored: TaskPhase, rows: nat, err: bool)
      modifies this`row
      ensures var outcome := OutcomeOf(old(row), Request(newPhase, columns, false, FromLoop), e);
              && (err <==> outcome.Fault?)
              && (rows > 0 <==> outcome.Hit?)
              && row == (if outcome.Hit? then Some(Updated(old(row).value, newPhase)) else old(row))
              && stored == if outcome.Hit? then row.value else Unset
    {
      if e.fault {
        return Unset, 0, true;
      }
      if row.None? || (newPhase.Unset? && !columns) {
        return Unset, 0, false;
      }
      row := Some(Updated(row.value, newPhase));
      return row.value, 1, false;
    }

    method HandleUpdateRequest(req: Request, e: Event) returns (rowsAffected: nat)
      requires Valid() && task.pending == Some(req)
      modifies this`phase, this`row, this`task
      ensures Valid()
      ensures var h := TaskLifeCycle.HandleUpdateRequest(old(task), old(row), OutcomeOf(old(row), req, e));
              Value() == Cell(h.task, h.row) && (rowsAffected > 0 <==> h.effect.Some?)
    {
      ghost var outcome := OutcomeOf(row, req, e);
      assert outcome == OutcomeOf(row, Request(req.phase, req.columns, false, FromLoop), e);
      ghost var h := TaskLifeCycle.HandleUpdateRequest(task, row, outcome);
      rowsAffected := 0;
      if AllowPhaseTrans(phase, req.phase, req.byUser) {
        var stored, rows, err := UpdateTaskStatus(req.phase, req.columns, e);
        if !err || !req.byUser {
          phase := stored;
        }
        rowsAffected := rows;
      }
      task := h.task;
    }

    /** One pick of a select statement. */
    method Pick(e: Event, otherwise: Request)
      requires Valid() && otherwise == LoopRequest(task)
      modifies this`phase, this`row, this`task
      ensures Valid() && Value() == Absorb(old(Value()), e)
    {
      var req := if e.request.Some? then e.request.value else otherwise;
      task := task.(pending := Some(req));
      var rows := HandleUpdateRequest(req, e);
    }

    method OnWaiting(events: seq<Event>) returns (rest: seq<Event>)
      requires Valid() && task.life.OnWaiting?
      modifies this`phase, this`row, this`task
      ensures Valid() && (Value(), rest) == Loop(old(Value()), events)
    {
      rest := events;
      while phase == Waiting && rest != []
        invariant Valid() && task.life.OnWaiting? && Loop(Value(), rest) == Loop(old(Value()), events)
        decreases |rest|
      {
        Pick(rest[0], FORCED_SHUTDOWN);
        rest := rest[1..];
      }
    }

    /** Leaving the loop cancels the main context. */
    method OnProcessing(events: seq<Event>) returns (rest: seq<Event>)
      requires Valid() && task.life.OnProcessing? && task.pending.None?
      modifies this`phase, this`row, this`task, this`mainDone
      ensures Valid()
      ensures var (left, unpicked) := Loop(old(Value()), events);
              rest == unpicked && Value() == if InLoop(left.task) then left else Advanced(left)
    {
      ghost var start := Value();
      rest := events;
      while phase == Processing && rest != []
        invariant Valid() && task.life.OnProcessing? && task.pending.None?
        invariant Loop(Value(), rest) == Loop(start, events)
        decreases |rest|
      {
        Pick(rest[0], GRACEFUL_SHUTDOWN);
        rest := rest[1..];
      }
      if phase != Processing {
        mainDone := true;
        task := TaskLifeCycle.Next(task);
      }
    }

    method OnAborting(forced: Event, events: seq<Event>) returns (rest: seq<Event>)
      requires Valid() && task.life.EnterAborting? && task.pending.None?
      modifies this
      ensures Valid() && (Value(), rest) == Aborted(old(Value()), forced, events)
    {
      task := TaskLifeCycle.Next(task);
      if spec.gracefulTimeout <= 0 {
        AbortAtOnce(forced);
        return events;
      }
      gracefulSignalled := true;
      rest := AbortGracefully(events);
    }

    method AbortAtOnce(forced: Event)
      requires Valid() && task.life.ForcedAborting? && task.pending == Some(FORCED_SHUTDOWN)
      modifies this
      ensures Valid()
      ensures Value() == Shut(Absorb(old(Value()), Event(Some(FORCED_SHUTDOWN), forced.fault)))
    {
      ghost var e := Event(Some(FORCED_SHUTDOWN), forced.fault);
      assert task.(pending := Some(FORCED_SHUTDOWN)) == task;
      var rows := HandleUpdateRequest(FORCED_SHUTDOWN, forced);
      assert Value() == Absorb(old(Value()), e);
      Closing();
    }

    method AbortGracefully(events: seq<Event>) returns (rest: seq<Event>)
      requires Valid() && task.life.OnAborting? && task.pending.None?
      modifies this
      ensures Valid()
      ensures var (left, unpicked) := Loop(old(Value()), events);
              rest == unpicked && Value() == if InLoop(left.task) then left else Shut(left)
    {
      ghost var entered := Value();
      rest := events;
      while phase == Aborting && rest != []
        invariant Valid() && task.life.OnAborting? && task.pending.None?
        invariant Loop(Value(), rest) == Loop(entered, events)
        decreases |rest|
      {
        Pick(rest[0], FORCED_SHUTDOWN);
        rest := rest[1..];
      }
      if phase != Aborting {
        Closing();
      }
    }

    /** Graceful shutdown is signalled, the channels are closed, then Done; a master offers its event. */
    method Closing()
      requires Valid() && CanAdvance(task) && (task.life.ForcedAborting? || task.life.OnAborting?)
      modifies this
      ensures Valid() && Value() == Shut(old(Value()))
    {
      gracefulSignalled := true;
      task := TaskLifeCycle.Next(task);
      updatesClosed := true;
      task := TaskLifeCycle.Next(task);
      doneClosed := true;
      task := TaskLifeCycle.Next(task);
      eventOffered := spec.IsMaster();
      task := TaskLifeCycle.Next(task);
    }

    /** The goroutine: waiting, processing, aborting. */
    method Run(forced: Event, events: seq<Event>) returns (rest: seq<Event>)
      requires Valid() && Runs(Value()) && task.life.OnWaiting? && FromCallers(events)
      modifies this
      ensures Valid() && (Value(), rest) == LifeCycle(old(Value()), forced, events)
    {
      LoopKeeps(Value(), events);
      rest := OnWaiting(events);
      if phase == Waiting {
        return;
      }
      AdvanceKeeps(Value());
      task := TaskLifeCycle.Next(task);
      rest := ProcessThenAbort(forced, rest);
    }

    method ProcessThenAbort(forced: Event, events: seq<Event>) returns (rest: seq<Event>)
      requires Valid() && Runs(Value()) && task.life.OnProcessing? && FromCallers(events)
      modifies this
      ensures Valid()
      ensures var (processed, unpicked) := Loop(old(Value()), events);
              (Value(), rest) ==
              if InLoop(processed.task) then (processed, unpicked) else Aborted(Advanced(processed), forced, unpicked)
    {
      LoopKeeps(Value(), events);
      rest := OnProcessing(events);
      if phase == Processing {
        return;
      }
      rest := OnAborting(forced, rest);
    }

    /** A goroutine that has closed Done has left everything in order. */
    method RunToEnd(forced: Event, events: seq<Event>) returns (ended: bool)
      requires Valid() && Runs(Value()) && task.life.OnWaiting? && FromCallers(events)
      modifies this
      ensures Valid() && (ended <==> doneClosed)
      ensures ended ==> gracefulSignalled && mainDone && updatesClosed && (eventOffered <==> spec.IsMaster())
      ensures ended && row.Some? ==> (IsFinished(row.value) <==> !phase.Unset?)
    {
      GoroutineEndsInOrder(Value(), forced, events);
      var rest := Run(forced, events);
      ended := doneClosed;
    }
  }
}
