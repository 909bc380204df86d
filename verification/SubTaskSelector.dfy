/**
 Concurrent Select calls on one sub-task selector, as a step machine. The calls share the set of
 children already handed out; each call works through its own list of the children it read.
 */
module SubTaskSelector {
  import opened Basics
  import opened TaskPhases

  datatype Call =
    | Collecting(seen: set<TaskId>, todo: seq<TaskId>, left: seq<TaskId>)
    | Choosing(seen: set<TaskId>, left: seq<TaskId>, rounds: nat)
    | Chosen(child: TaskId)
    | NoRunningSubTask(seen: set<TaskId>)
    | Cancelled
    | Failed

  datatype Selector = Selector(
    limit: nat,                // allowedMaxTasksCount, the bound of the choosing loop
    given: set<TaskId>,        // finishedTaskIds
    done: set<TaskId>,         // children whose Done is closed
    calls: seq<Call>)

  datatype Step =
    | Begin(children: seq<TaskId>)
    | Collect(call: nat)
    | CollectFails(call: nat)
    | Choose(call: nat, i: nat)
    | Cancel(call: nat)
    | ChildDone(child: TaskId)

  ghost predicate Enabled(s: Selector, step: Step) {
    match step
    case Begin(children) => Distinct(children)
    case Collect(c) => c < |s.calls| && s.calls[c].Collecting?
    case CollectFails(c) => c < |s.calls| && s.calls[c].Collecting? && s.calls[c].todo != []
    case Choose(c, i) =>
      && c < |s.calls| && s.calls[c].Choosing? && s.calls[c].rounds < s.limit
      && i < |s.calls[c].left| && s.calls[c].left[i] in s.done
    case Cancel(c) => c < |s.calls| && s.calls[c].Choosing? && s.calls[c].left != []
    case ChildDone(_) => true
  }

  /** The head of the choosing loop: no child left means there is none to wait for. */
  function Head(seen: set<TaskId>, left: seq<TaskId>, rounds: nat): Call {
    if left == [] then NoRunningSubTask(seen) else Choosing(seen, left, rounds)
  }

  ghost function CallAfter(s: Selector, step: Step): Call
    requires Enabled(s, step) && (step.Collect? || step.CollectFails? || step.Choose? || step.Cancel?)
  {
    match step
    case Collect(c) =>
      var k := s.calls[c];
      if k.todo == [] then
        Head(k.seen, k.left, 0)
      else
        Collecting(k.seen, k.todo[1..], if k.todo[0] in s.given then k.left else k.left + [k.todo[0]])
    case CollectFails(_) => Call.Failed
    case Choose(c, i) =>
      var k := s.calls[c];
      if k.left[i] !in s.given || k.rounds + 1 == s.limit
      then Chosen(k.left[i])   // stored now, or the loop is used up
      else Head(k.seen, Without(k.left, i), k.rounds + 1)
    case Cancel(_) => Cancelled
  }

  ghost function Apply(s: Selector, step: Step): Selector
    requires Enabled(s, step)
  {
    match step
    case Begin(children) => s.(calls := s.calls + [Collecting(Elements(children), children, [])])
    case ChildDone(child) => s.(done := s.done + {child})
    case Choose(c, i) =>
      s.(calls := s.calls[c := CallAfter(s, step)], given := s.given + {s.calls[c].left[i]})
    case _ => s.(calls := s.calls[step.call := CallAfter(s, step)])
  }

  // ---------- the invariant ----------

  /** A call keeps every child it read in sight until the child has been handed out. */
  ghost predicate CallInv(s: Selector, k: Call) {
    match k
    case Collecting(seen, todo, left) =>
      && Distinct(todo) && Distinct(left) && Elements(todo) !! Elements(left)
      && seen <= s.given + Elements(todo) + Elements(left)
      && |todo| + |left| < s.limit
    case Choosing(seen, left, rounds) =>
      && Distinct(left) && left != []
      && seen <= s.given + Elements(left)
      && rounds + |left| < s.limit
    case NoRunningSubTask(seen) => seen <= s.given
    case Chosen(child) => child in s.given
    case _ => true
  }

  /** Every child handed out was handed out by one call. */
  ghost predicate Inv(s: Selector) {
    && (forall c | 0 <= c < |s.calls| :: CallInv(s, s.calls[c]))
    && (forall x :: x in s.given ==> exists c :: 0 <= c < |s.calls| && s.calls[c] == Chosen(x))
    && (forall c, d | 0 <= c < d < |s.calls| && s.calls[c].Chosen? && s.calls[d].Chosen? :: s.calls[c] != s.calls[d])
  }

  ghost predicate Init(s: Selector) {
    s.limit > 0 && s.given == {} && s.calls == []
  }

  /** A call reads at most so many children. */
  predicate Fits(most: nat, step: Step) {
    step.Begin? ==> |step.children| <= most
  }

  ghost predicate IsRun(run: seq<Selector>, steps: seq<Step>, most: nat) {
    && |run| == |steps| + 1
    && Init(run[0])
    && forall i | 0 <= i < |steps| :: StepAt(run, steps, most, i)
  }

  ghost predicate StepAt(run: seq<Selector>, steps: seq<Step>, most: nat, i: nat)
    requires i < |steps| && |run| == |steps| + 1
  {
    && Enabled(run[i], steps[i])
    && Fits(most, steps[i])
    && run[i + 1] == Apply(run[i], steps[i])
  }

  lemma WithoutElements(q: seq<TaskId>, i: nat)
    requires i < |q| && Distinct(q)
    ensures Distinct(Without(q, i)) && Elements(Without(q, i)) == Elements(q) - {q[i]}
  {
  }

  /** Taking the first child off one list, and putting it on another. */
  lemma HeadMoves(todo: seq<TaskId>, left: seq<TaskId>)
    requires todo != [] && Distinct(todo) && Distinct(left) && Elements(todo) !! Elements(left)
    ensures Distinct(todo[1..]) && Elements(todo) == Elements(todo[1..]) + {todo[0]}
    ensures Distinct(left + [todo[0]]) && Elements(left + [todo[0]]) == Elements(left) + {todo[0]}
    ensures Elements(todo[1..]) !! Elements(left + [todo[0]])
  {
    assert todo == [todo[0]] + todo[1..];
    assert todo[0] in Elements(todo) && todo[0] !in left;
  }

  lemma CollectKeepsCall(s: Selector, c: nat)
    requires Inv(s) && Enabled(s, Collect(c))
    ensures CallInv(s, CallAfter(s, Collect(c))) && !CallAfter(s, Collect(c)).Chosen?
  {
    var k := s.calls[c];
    assert CallInv(s, k);
    if k.todo != [] {
      HeadMoves(k.todo, k.left);
    }
  }

  /** The loop is never used up: a choice that was already handed out leaves fewer children than rounds. */
  lemma ChooseKeepsCall(s: Selector, c: nat, i: nat)
    requires Inv(s) && Enabled(s, Choose(c, i))
    ensures var s' := Apply(s, Choose(c, i));
            && CallInv(s', s'.calls[c])
            && (s'.calls[c].Chosen? <==> s.calls[c].left[i] !in s.given)
            && (s'.calls[c].Chosen? ==> s'.calls[c].child == s.calls[c].left[i])
  {
    var k := s.calls[c];
    assert CallInv(s, k);
    WithoutElements(k.left, i);
  }

  /** The call a step changes, if any. */
  lemma StepKeepsCalls(s: Selector, step: Step, most: nat)
    requires Inv(s) && Enabled(s, step) && Fits(most, step) && most < s.limit
    ensures var s' := Apply(s, step);
            s'.limit == s.limit && forall c | 0 <= c < |s'.calls| :: CallInv(s', s'.calls[c])
  {
    var s' := Apply(s, step);
    match step {
      case Collect(c) => CollectKeepsCall(s, c);
      case Choose(c, i) => ChooseKeepsCall(s, c, i);
      case _ =>
    }
    forall c | 0 <= c < |s'.calls|
      ensures CallInv(s', s'.calls[c])
    {
      if c < |s.calls| && s'.calls[c] == s.calls[c] {
        assert CallInv(s, s.calls[c]);
      }
    }
  }

  /** A call that has chosen stays as it is. */
  lemma ChosenStays(s: Selector, step: Step, c: nat)
    requires Enabled(s, step) && c < |s.calls| && s.calls[c].Chosen?
    ensures c < |Apply(s, step).calls| && Apply(s, step).calls[c] == s.calls[c]
  {
  }

  lemma StepKeepsGiven(s: Selector, step: Step)
    requires Inv(s) && Enabled(s, step)
    ensures var s' := Apply(s, step);
            forall x :: x in s'.given ==> exists c :: 0 <= c < |s'.calls| && s'.calls[c] == Chosen(x)
  {
    var s' := Apply(s, step);
    forall x | x in s'.given
      ensures exists c :: 0 <= c < |s'.calls| && s'.calls[c] == Chosen(x)
    {
      if x in s.given {
        var c :| 0 <= c < |s.calls| && s.calls[c] == Chosen(x);
        ChosenStays(s, step, c);
        assert s'.calls[c] == Chosen(x);
      } else {
        ChooseKeepsCall(s, step.call, step.i);
        assert s'.calls[step.call] == Chosen(x);
      }
    }
  }

  lemma StepKeepsApart(s: Selector, step: Step, c: nat, d: nat)
    requires Inv(s) && Enabled(s, step) && c < d < |Apply(s, step).calls|
    requires Apply(s, step).calls[c].Chosen? && Apply(s, step).calls[d].Chosen?
    ensures Apply(s, step).calls[c] != Apply(s, step).calls[d]
  {
  }

  lemma StepKeepsInv(s: Selector, step: Step, most: nat)
    requires Inv(s) && Enabled(s, step) && Fits(most, step) && most < s.limit
    ensures Inv(Apply(s, step)) && Apply(s, step).limit == s.limit
  {
    var s' := Apply(s, step);
    StepKeepsCalls(s, step, most);
    StepKeepsGiven(s, step);
    forall c, d | 0 <= c < d < |s'.calls| && s'.calls[c].Chosen? && s'.calls[d].Chosen?
      ensures s'.calls[c] != s'.calls[d]
    {
      StepKeepsApart(s, step, c, d);
    }
  }

  lemma {:induction false} RunKeepsInv(run: seq<Selector>, steps: seq<Step>, most: nat, i: nat)
    requires IsRun(run, steps, most) && most < run[0].limit && i < |run|
    ensures Inv(run[i]) && run[i].limit == run[0].limit
  {
    if i > 0 {
      RunKeepsInv(run, steps, most, i - 1);
      assert StepAt(run, steps, most, i - 1);
      StepKeepsInv(run[i - 1], steps[i - 1], most);
    }
  }

  /**
   Whatever the interleaving, when fewer children are read than the loop has rounds, concurrent Select
   calls never hand out the same child twice, and a call reports that no sub-task is running only when
   every child it read has been handed out.
   */
  lemma SelectionsAreDistinct(run: seq<Selector>, steps: seq<Step>, most: nat, i: nat, c: nat, d: nat)
    requires IsRun(run, steps, most) && most < run[0].limit
    requires i < |run| && c < |run[i].calls| && d < |run[i].calls|
    ensures c != d && run[i].calls[c].Chosen? && run[i].calls[d].Chosen? ==>
              run[i].calls[c].child != run[i].calls[d].child
    ensures run[i].calls[c].NoRunningSubTask? ==>
              forall x | x in run[i].calls[c].seen ::
                exists e :: 0 <= e < |run[i].calls| && run[i].calls[e] == Chosen(x)
  {
    RunKeepsInv(run, steps, most, i);
    assert CallInv(run[i], run[i].calls[c]);
  }

  // ---------- what is selected has finished ----------

  /** The call works on these children only. */
  predicate WorksOn(k: Call, children: seq<TaskId>) {
    match k
    case Collecting(seen, todo, left) =>
      seen == (set x | x in children) && (forall x | x in todo :: x in children) && forall x | x in left :: x in children
    case Choosing(seen, left, _) => seen == (set x | x in children) && forall x | x in left :: x in children
    case Chosen(child) => child in children
    case NoRunningSubTask(seen) => seen == set x | x in children
    case _ => true
  }

  lemma StepKeepsWork(s: Selector, step: Step, c: nat, children: seq<TaskId>)
    requires Enabled(s, step) && c < |s.calls| && WorksOn(s.calls[c], children)
    ensures c < |Apply(s, step).calls| && WorksOn(Apply(s, step).calls[c], children)
  {
  }

  /** A call stays with the children it read when it began. */
  lemma {:induction false} CallsKeepChildren(run: seq<Selector>, steps: seq<Step>, most: nat, i: nat, c: nat)
    returns (y: nat)
    requires IsRun(run, steps, most) && i < |run| && c < |run[i].calls|
    ensures y < i && steps[y].Begin? && |run[y].calls| == c && WorksOn(run[i].calls[c], steps[y].children)
  {
    assert StepAt(run, steps, most, i - 1);
    if c < |run[i - 1].calls| {
      y := CallsKeepChildren(run, steps, most, i - 1, c);
      StepKeepsWork(run[i - 1], steps[i - 1], c, steps[y].children);
    } else {
      y := i - 1;
    }
  }

  /** A child's Done is closed only by a step of its own, if it was not from the start. */
  lemma {:induction false} DoneHasStep(run: seq<Selector>, steps: seq<Step>, most: nat, i: nat, child: TaskId)
    requires IsRun(run, steps, most) && i < |run| && child in run[i].done
    ensures child in run[0].done || exists y :: 0 <= y < i && steps[y] == ChildDone(child)
  {
    if i > 0 {
      assert StepAt(run, steps, most, i - 1);
      if child in run[i - 1].done {
        DoneHasStep(run, steps, most, i - 1, child);
      } else {
        assert steps[i - 1] == ChildDone(child);
      }
    }
  }

  lemma {:induction false} ChosenIsDone(run: seq<Selector>, steps: seq<Step>, most: nat, i: nat, c: nat)
    requires IsRun(run, steps, most) && i < |run| && c < |run[i].calls| && run[i].calls[c].Chosen?
    ensures run[i].calls[c].child in run[i].done
  {
    if i > 0 {
      assert StepAt(run, steps, most, i - 1);
      if c < |run[i - 1].calls| && run[i - 1].calls[c].Chosen? {
        ChosenIsDone(run, steps, most, i - 1, c);
      }
    }
  }

  /**
   A call only ever hands out a child that has finished, by its own step or before the start, and that is
   among the children it read when it began.
   */
  lemma SelectedHasFinished(run: seq<Selector>, steps: seq<Step>, most: nat, i: nat, c: nat)
    requires IsRun(run, steps, most) && i < |run| && c < |run[i].calls| && run[i].calls[c].Chosen?
    ensures var child := run[i].calls[c].child;
            && child in run[i].done
            && (child in run[0].done || exists y :: 0 <= y < i && steps[y] == ChildDone(child))
            && exists y :: 0 <= y < i && steps[y].Begin? && |run[y].calls| == c && child in steps[y].children
  {
    ChosenIsDone(run, steps, most, i, c);
    DoneHasStep(run, steps, most, i, run[i].calls[c].child);
    var y := CallsKeepChildren(run, steps, most, i, c);
  }

  // ---------- what can be reached ----------

  ghost predicate Reachable(limit: nat, most: nat, s: Selector) {
    exists run: seq<Selector>, steps: seq<Step> ::
      IsRun(run, steps, most) && run[0].limit == limit && run[|steps|] == s
  }

  lemma OneMoreStep(limit: nat, most: nat, s: Selector, step: Step)
    requires Reachable(limit, most, s) && Enabled(s, step) && Fits(most, step)
    ensures Reachable(limit, most, Apply(s, step))
  {
    var run: seq<Selector>, steps: seq<Step> :|
      IsRun(run, steps, most) && run[0].limit == limit && run[|steps|] == s;
    var more, longer := run + [Apply(s, step)], steps + [step];
    forall i | 0 <= i < |longer|
      ensures StepAt(more, longer, most, i)
    {
      assert i < |steps| ==> StepAt(run, steps, most, i);
    }
    assert IsRun(more, longer, most) && more[|longer|] == Apply(s, step);
  }

  /** The children not handed out yet. */
  function NotGiven(children: seq<TaskId>, given: set<TaskId>): seq<TaskId> {
    if children == [] then []
    else (if children[0] in given then [] else [children[0]]) + NotGiven(children[1..], given)
  }

  function Collected(k: Call, given: set<TaskId>): Call
    requires k.Collecting?
  {
    Head(k.seen, k.left + NotGiven(k.todo, given), 0)
  }

  lemma CollectedStays(s: Selector, c: nat)
    requires Enabled(s, Collect(c)) && s.calls[c].todo != []
    ensures CallAfter(s, Collect(c)).Collecting?
    ensures Collected(CallAfter(s, Collect(c)), s.given) == Collected(s.calls[c], s.given)
  {
    var k, k' := s.calls[c], CallAfter(s, Collect(c));
    assert k'.left + NotGiven(k'.todo, s.given) == k.left + NotGiven(k.todo, s.given);
  }

  lemma {:induction false} CollectAll(limit: nat, most: nat, s: Selector, c: nat)
    requires Reachable(limit, most, s) && c < |s.calls| && s.calls[c].Collecting?
    ensures Reachable(limit, most, s.(calls := s.calls[c := Collected(s.calls[c], s.given)]))
    decreases |s.calls[c].todo|
  {
    var s' := Apply(s, Collect(c));
    OneMoreStep(limit, most, s, Collect(c));
    var r := Collected(s.calls[c], s.given);
    if s.calls[c].todo == [] {
      assert s.calls[c].left + [] == s.calls[c].left;
      assert s' == s.(calls := s.calls[c := r]);
    } else {
      CollectedStays(s, c);
      CollectAll(limit, most, s', c);
      assert s'.calls[c := r] == s.calls[c := r];
    }
  }

  /** A further call that has read the children. */
  lemma OneMoreCall(limit: nat, most: nat, s: Selector, children: seq<TaskId>)
    requires Reachable(limit, most, s) && Distinct(children) && |children| <= most
    ensures Reachable(limit, most,
              s.(calls := s.calls + [Head(Elements(children), NotGiven(children, s.given), 0)]))
  {
    var s' := Apply(s, Begin(children));
    OneMoreStep(limit, most, s, Begin(children));
    CollectAll(limit, most, s', |s.calls|);
    var r := Head(Elements(children), NotGiven(children, s.given), 0);
    assert [] + NotGiven(children, s.given) == NotGiven(children, s.given);
    assert s'.calls[|s.calls| := r] == s.calls + [r];
  }

  lemma NotGivenIsRest(children: seq<TaskId>, j: nat, given: set<TaskId>)
    requires Distinct(children) && j <= |children| && given == Elements(children[..j])
    ensures NotGiven(children, given) == children[j..]
  {
    SkipsGiven(children, j, given);
    AllNotGiven(children[j..], given);
  }

  lemma {:induction false} SkipsGiven(children: seq<TaskId>, j: nat, given: set<TaskId>)
    requires j <= |children| && forall i | 0 <= i < j :: children[i] in given
    ensures NotGiven(children, given) == NotGiven(children[j..], given)
    decreases j
  {
    if j == 0 {
      assert children[0..] == children;
    } else {
      SkipsGiven(children[1..], j - 1, given);
      assert children[1..][j - 1..] == children[j..];
    }
  }

  lemma {:induction false} AllNotGiven(children: seq<TaskId>, given: set<TaskId>)
    requires forall x | x in children :: x !in given
    ensures NotGiven(children, given) == children
  {
    if children != [] {
      AllNotGiven(children[1..], given);
    }
  }

  /** A child that has finished and was not handed out can be selected by a new call that reads it. */
  lemma FinishedCanBeSelected(limit: nat, most: nat, s: Selector, children: seq<TaskId>, child: TaskId)
    requires Reachable(limit, most, s) && s.limit > 0 && Distinct(children) && |children| <= most
    requires child in children && child in s.done && child !in s.given
    ensures exists s' :: Reachable(limit, most, s') && s'.done == s.done && s'.given == s.given + {child}
                         && |s'.calls| == |s.calls| + 1 && s'.calls[|s.calls|] == Chosen(child)
                         && s'.calls[..|s.calls|] == s.calls
  {
    OneMoreCall(limit, most, s, children);
    var left := NotGiven(children, s.given);
    StaysListed(children, s.given, child);
    var s1 := s.(calls := s.calls + [Choosing(Elements(children), left, 0)]);
    var i :| 0 <= i < |left| && left[i] == child;
    OneMoreStep(limit, most, s1, Choose(|s.calls|, i));
    assert Apply(s1, Choose(|s.calls|, i)).calls == s.calls + [Chosen(child)];
  }

  /** A call that waits for its children can be cancelled, and hands out nothing then. */
  lemma WaitingCanBeCancelled(limit: nat, most: nat, s: Selector, c: nat)
    requires Reachable(limit, most, s) && c < |s.calls| && s.calls[c].Choosing? && s.calls[c].left != []
    ensures Reachable(limit, most, s.(calls := s.calls[c := Cancelled]))
  {
    OneMoreStep(limit, most, s, Cancel(c));
  }

  lemma {:induction false} StaysListed(children: seq<TaskId>, given: set<TaskId>, child: TaskId)
    requires child in children && child !in given
    ensures child in NotGiven(children, given)
  {
    if children[0] != child {
      assert child in children[1..];
      StaysListed(children[1..], given, child);
    }
  }

  // ---------- with as many children as rounds ----------

  /** The first call has yet to choose, having chosen rounds children already handed out; j calls have chosen. */
  ghost function Midway(children: seq<TaskId>, rounds: nat, j: nat): Selector
    requires rounds <= |children| && j <= |children|
  {
    Selector(|children|, Elements(children[..j]), Elements(children),
             [Choosing(Elements(children), children[rounds..], rounds)]
             + seq(j, i requires 0 <= i < j => Chosen(children[i])))
  }

  lemma {:induction false} HandOut(most: nat, children: seq<TaskId>, j: nat)
    requires Distinct(children) && 0 < |children| <= most && j <= |children|
    ensures Reachable(|children|, most, Midway(children, 0, j))
  {
    var limit := |children|;
    if j == 0 {
      var s := Selector(limit, {}, Elements(children), []);
      var run: seq<Selector>, steps: seq<Step> := [s], [];
      assert IsRun(run, steps, most) && run[|steps|] == s;
      OneMoreCall(limit, most, s, children);
      NotGivenIsRest(children, 0, {});
      assert Elements(children[..0]) == {};
      assert Midway(children, 0, 0).calls == s.calls + [Choosing(Elements(children), children[0..], 0)];
    } else {
      HandOut(most, children, j - 1);
      HandOutOne(most, children, j - 1);
    }
  }

  lemma HandOutOne(most: nat, children: seq<TaskId>, j: nat)
    requires Distinct(children) && j < |children| <= most && Reachable(|children|, most, Midway(children, 0, j))
    ensures Reachable(|children|, most, Midway(children, 0, j + 1))
  {
    var limit, s := |children|, Midway(children, 0, j);
    OneMoreCall(limit, most, s, children);
    NotGivenIsRest(children, j, s.given);
    var s1 := s.(calls := s.calls + [Choosing(Elements(children), children[j..], 0)]);
    HandsOut(children, j, s1);
    OneMoreStep(limit, most, s1, Choose(j + 1, 0));
  }

  lemma HandsOut(children: seq<TaskId>, j: nat, s: Selector)
    requires Distinct(children) && j < |children|
    requires var m := Midway(children, 0, j);
             s == m.(calls := m.calls + [Choosing(Elements(children), children[j..], 0)])
    ensures Enabled(s, Choose(j + 1, 0)) && Apply(s, Choose(j + 1, 0)) == Midway(children, 0, j + 1)
  {
    assert s.calls[j + 1].left[0] == children[j] && children[j] !in s.given;
    assert CallAfter(s, Choose(j + 1, 0)) == Chosen(children[j]);
    assert children[..j + 1] == children[..j] + [children[j]];
    assert Elements(children[..j + 1]) == Elements(children[..j]) + {children[j]};
    assert s.calls[j + 1 := Chosen(children[j])] == Midway(children, 0, j + 1).calls;
  }

  /** The first call chooses only what was handed out in the meantime. */
  lemma {:induction false} UseUp(most: nat, children: seq<TaskId>, rounds: nat)
    requires Distinct(children) && rounds < |children| <= most
    ensures Reachable(|children|, most, Midway(children, rounds, |children|))
  {
    if rounds == 0 {
      HandOut(most, children, |children|);
    } else {
      UseUp(most, children, rounds - 1);
      UseUpOne(most, children, rounds - 1);
    }
  }

  lemma UseUpOne(most: nat, children: seq<TaskId>, rounds: nat)
    requires Distinct(children) && rounds + 1 < |children| <= most
    requires Reachable(|children|, most, Midway(children, rounds, |children|))
    ensures Reachable(|children|, most, Midway(children, rounds + 1, |children|))
  {
    UsesUp(children, rounds);
    OneMoreStep(|children|, most, Midway(children, rounds, |children|), Choose(0, 0));
  }

  lemma UsesUp(children: seq<TaskId>, rounds: nat)
    requires rounds + 1 < |children|
    ensures var s := Midway(children, rounds, |children|);
            Enabled(s, Choose(0, 0)) && Apply(s, Choose(0, 0)) == Midway(children, rounds + 1, |children|)
  {
    var s := Midway(children, rounds, |children|);
    MidwayEnabled(children, rounds);
    var k := Choosing(Elements(children), children[rounds + 1..], rounds + 1);
    assert Without(children[rounds..], 0) == children[rounds + 1..];
    assert CallAfter(s, Choose(0, 0)) == k;
    assert s.calls[0 := k] == Midway(children, rounds + 1, |children|).calls;
  }

  lemma MidwayEnabled(children: seq<TaskId>, rounds: nat)
    requires rounds < |children|
    ensures var s := Midway(children, rounds, |children|);
            Enabled(s, Choose(0, 0)) && s.calls[0].left[0] == children[rounds] && children[rounds] in s.given
            && s.given + {children[rounds]} == s.given
  {
    assert children[..|children|] == children;
  }

  /** With as many children as rounds the loop can be used up, and hands out a child a second time. */
  lemma LastRoundRepeats(most: nat, children: seq<TaskId>)
    requires Distinct(children) && 0 < |children| <= most
    ensures exists s :: Reachable(|children|, most, s) && RepeatsChild(s)
  {
    var limit := |children|;
    UseUp(most, children, limit - 1);
    var s := Midway(children, limit - 1, limit);
    MidwayEnabled(children, limit - 1);
    OneMoreStep(limit, most, s, Choose(0, 0));
    var s' := Apply(s, Choose(0, 0));
    assert s'.calls[0] == Chosen(children[limit - 1]) == s'.calls[limit];
    assert RepeatsChild(s');
  }

  ghost predicate RepeatsChild(s: Selector) {
    exists c, d :: 0 <= c < d < |s.calls| && s.calls[c].Chosen? && s.calls[d] == s.calls[c]
  }

  ghost function SomeChildren(n: nat): (children: seq<TaskId>)
    ensures |children| == n && Distinct(children)
  {
    seq(n, i requires 0 <= i < n => seq(i, _ => 'x'))
  }

  /** Never handing out a child twice takes fewer children than rounds, and that is enough. */
  lemma DistinctExactly(limit: nat, most: nat)
    requires limit > 0
    ensures (exists s :: Reachable(limit, most, s) && RepeatsChild(s)) <==> limit <= most
  {
    if limit <= most {
      LastRoundRepeats(most, SomeChildren(limit));
    } else if s :| Reachable(limit, most, s) && RepeatsChild(s) {
      var run: seq<Selector>, steps: seq<Step> :|
        IsRun(run, steps, most) && run[0].limit == limit && run[|steps|] == s;
      var c, d :| 0 <= c < d < |s.calls| && s.calls[c].Chosen? && s.calls[d] == s.calls[c];
      SelectionsAreDistinct(run, steps, most, |steps|, c, d);
    }
  }
}
