/**
 The module message bus: Send, Receive, SendSync and SendResp over unbuffered channels, as
 interleaved steps. A sender and a receiver meet in one step; closing a channel makes blocked
 senders fail and blocked receivers return at once.
 */
module ChannelBus {
  import opened Basics

  type MsgId = string
  type Name = string

  datatype Op =
    | Send(dest: Name)
    | Receive(name: Name)
    | SendSync(id: MsgId, dest: Name)
    | SendResp(parentId: MsgId)

  datatype Result =
    | Done                   // nil
    | Received(from: nat)    // the message that call offered
    | Empty                  // the zero message of a closed channel, taken for a response
    | Error

  datatype Stage =
    | Storing(req: nat)               // SendSync has found its destination
    | Offering(ch: nat)               // blocked in a send
    | Listening(ch: nat)              // blocked in a receive
    | Leaving(result: Result)         // SendSync is about to take its channel out of the map
    | Closing(ch: nat, result: Result)
    | Returned(result: Result)

  /** reply is the channel a SendSync made for its response; partner is the call that took a message. */
  datatype Call = Call(op: Op, stage: Stage, reply: Option<nat>, partner: Option<nat>)

  datatype Bus = Bus(
    named: map<Name, nat>,        // channels
    anon: map<MsgId, nat>,        // anonChannels
    owners: seq<Option<nat>>,     // every channel ever made, with the SendSync that made it
    closed: set<nat>,
    calls: seq<Call>)

  datatype Step =
    | Register(name: Name)
    | Unregister(name: Name)
    | Begin(op: Op)
    | Store(call: nat)
    | Meet(sender: nat, receiver: nat)
    | OfferFails(call: nat)       // the send timed out or its channel was closed
    | ListenEnds(call: nat)       // the channel was closed
    | ListenTimesOut(call: nat)
    | Leave(call: nat)
    | Close(call: nat)

  // ---------- the steps ----------

  predicate Enabled(b: Bus, step: Step) {
    match step
    case Register(_) => true
    case Unregister(_) => true
    case Begin(_) => true
    case Store(i) => i < |b.calls| && b.calls[i].op.SendSync? && b.calls[i].stage.Storing?
    case Meet(i, j) =>
      && i < |b.calls| && j < |b.calls| && i != j
      && b.calls[i].stage.Offering? && b.calls[j].stage.Listening?
      && b.calls[i].stage.ch == b.calls[j].stage.ch
      && b.calls[i].stage.ch !in b.closed
      && (b.calls[i].op.SendSync? ==> b.calls[i].reply.Some?)
    case OfferFails(i) =>
      && i < |b.calls| && b.calls[i].stage.Offering?
      && (b.calls[i].op.SendResp? ==> b.calls[i].stage.ch in b.closed)   // it has no timeout
    case ListenEnds(i) => i < |b.calls| && b.calls[i].stage.Listening? && b.calls[i].stage.ch in b.closed
    case ListenTimesOut(i) => i < |b.calls| && b.calls[i].stage.Listening? && b.calls[i].op.SendSync?
    case Leave(i) => i < |b.calls| && b.calls[i].op.SendSync? && b.calls[i].stage.Leaving?
    case Close(i) => i < |b.calls| && b.calls[i].stage.Closing?
  }

  /** Where a call stands after its first look into the maps. */
  function FirstStage(b: Bus, op: Op): Stage {
    match op
    case Send(dest) => if dest in b.named then Offering(b.named[dest]) else Returned(Error)
    case Receive(name) => if name in b.named then Listening(b.named[name]) else Returned(Error)
    case SendSync(_, dest) => if dest in b.named then Storing(b.named[dest]) else Returned(Error)
    case SendResp(id) => if id != "" && id in b.anon then Offering(b.anon[id]) else Returned(Error)
  }

  /** A SendSync with a result still has to clean up. */
  function Finish(op: Op, result: Result): Stage {
    if op.SendSync? then Leaving(result) else Returned(result)
  }

  function WithCall(b: Bus, i: nat, k: Call): Bus
    requires i < |b.calls|
  {
    b.(calls := b.calls[i := k])
  }

  function ApplyMeet(b: Bus, i: nat, j: nat): Bus
    requires Enabled(b, Meet(i, j))
  {
    var sender, receiver := b.calls[i], b.calls[j];
    var stage := if sender.op.SendSync? then Listening(sender.reply.value) else Returned(Done);
    b.(calls := b.calls[i := sender.(stage := stage, partner := Some(j))]
                       [j := receiver.(stage := Finish(receiver.op, Received(i)))])
  }

  function ApplyStore(b: Bus, i: nat): Bus
    requires Enabled(b, Store(i))
  {
    var k := b.calls[i];
    var ch := |b.owners|;
    b.(owners := b.owners + [Some(i)],
       anon := if k.op.id == "" then b.anon else b.anon[k.op.id := ch],
       calls := b.calls[i := k.(stage := Offering(k.stage.req), reply := Some(ch))])
  }

  function ApplyLeave(b: Bus, i: nat): Bus
    requires Enabled(b, Leave(i))
  {
    var k := b.calls[i];
    var stage := if k.op.id in b.anon then Closing(b.anon[k.op.id], k.stage.result) else Returned(k.stage.result);
    b.(anon := b.anon - {k.op.id}, calls := b.calls[i := k.(stage := stage)])
  }

  function Apply(b: Bus, step: Step): Bus
    requires Enabled(b, step)
  {
    match step
    case Register(name) =>
      if name in b.named then b else b.(named := b.named[name := |b.owners|], owners := b.owners + [None])
    case Unregister(name) =>
      if name in b.named then b.(named := b.named - {name}, closed := b.closed + {b.named[name]}) else b
    case Begin(op) => b.(calls := b.calls + [Call(op, FirstStage(b, op), None, None)])
    case Store(i) => ApplyStore(b, i)
    case Meet(i, j) => ApplyMeet(b, i, j)
    case OfferFails(i) => WithCall(b, i, b.calls[i].(stage := Finish(b.calls[i].op, Error)))
    case ListenEnds(i) =>
      WithCall(b, i, b.calls[i].(stage := Finish(b.calls[i].op, if b.calls[i].op.SendSync? then Empty else Error)))
    case ListenTimesOut(i) => WithCall(b, i, b.calls[i].(stage := Finish(b.calls[i].op, Error)))
    case Leave(i) => ApplyLeave(b, i)
    case Close(i) =>
      b.(closed := b.closed + {b.calls[i].stage.ch},
         calls := b.calls[i := b.calls[i].(stage := Returned(b.calls[i].stage.result))])
  }

  // ---------- runs ----------

  const EMPTY_BUS := Bus(map[], map[], [], {}, [])

  ghost predicate Init(b: Bus) {
    b == EMPTY_BUS
  }

  /** A SendSync does not store its channel while another in flight uses its id. */
  predicate KeepsIdsApart(b: Bus, step: Step) {
    step.Store? && step.call < |b.calls| && b.calls[step.call].op.SendSync? ==>
      b.calls[step.call].op.id !in b.anon
  }

  ghost predicate StepAt(run: seq<Bus>, steps: seq<Step>, i: nat)
    requires i < |steps| && |run| == |steps| + 1
  {
    Enabled(run[i], steps[i]) && KeepsIdsApart(run[i], steps[i]) && run[i + 1] == Apply(run[i], steps[i])
  }

  ghost predicate IsRun(run: seq<Bus>, steps: seq<Step>) {
    && |run| == |steps| + 1
    && Init(run[0])
    && forall i | 0 <= i < |steps| :: StepAt(run, steps, i)
  }

  // ---------- the invariant ----------

  function ResultOf(k: Call): Option<Result> {
    match k.stage
    case Leaving(r) => Some(r)
    case Closing(_, r) => Some(r)
    case Returned(r) => Some(r)
    case _ => None
  }

  /** A SendSync that has made its channel and not yet taken it out of the map. */
  predicate InFlight(k: Call) {
    k.op.SendSync? && k.reply.Some? && (k.stage.Offering? || k.stage.Listening? || k.stage.Leaving?)
  }

  predicate OwnedBy(b: Bus, ch: nat, q: nat) {
    ch < |b.owners| && b.owners[ch] == Some(q)
  }

  predicate IsNamed(b: Bus, ch: nat) {
    ch < |b.owners| && b.owners[ch] == None
  }

  ghost predicate Registered(b: Bus, ch: nat) {
    exists name :: name in b.named && b.named[name] == ch
  }

  /** The maps point to channels of the right kind, and the anonymous one only to those in flight. */
  ghost predicate MapsInv(b: Bus) {
    && (forall name | name in b.named :: IsNamed(b, b.named[name]))
    && (forall id | id in b.anon ::
          && id != ""
          && b.anon[id] < |b.owners| && b.owners[b.anon[id]].Some?
          && var q := b.owners[b.anon[id]].value;
             && q < |b.calls| && InFlight(b.calls[q])
             && b.calls[q].op.id == id && b.calls[q].reply == Some(b.anon[id]))
    && (forall ch | ch in b.closed :: ch < |b.owners|)
    && (forall ch | IsNamed(b, ch) && ch !in b.closed :: Registered(b, ch))
    && (forall name | name in b.named :: b.named[name] !in b.closed)
    && (forall name, other | name in b.named && other in b.named && name != other :: b.named[name] != b.named[other])
  }

  /** The channel of a SendSync is its own; it is in the map while in flight and closed only at the end. */
  ghost predicate SyncInv(b: Bus, q: nat)
    requires q < |b.calls|
  {
    var k := b.calls[q];
    k.op.SendSync? ==>
      && (k.stage.Storing? ==> k.reply.None? && IsNamed(b, k.stage.req))
      && (k.reply.None? ==> k.stage.Storing? || k.stage == Returned(Error))
      && (k.reply.Some? ==>
            && OwnedBy(b, k.reply.value, q)
            && !k.stage.Storing?
            && (k.reply.value in b.closed ==> k.stage.Returned?)
            && (k.stage.Returned? && k.op.id != "" ==> k.reply.value in b.closed)
            && (k.stage.Closing? ==> k.stage.ch == k.reply.value)
            && (InFlight(k) && k.op.id != "" ==> k.op.id in b.anon && b.anon[k.op.id] == k.reply.value))
  }

  /** On a SendSync's channel only responders to its id send, and only it receives. */
  ghost predicate PortInv(b: Bus, i: nat)
    requires i < |b.calls|
  {
    var k := b.calls[i];
    && (k.stage.Offering? ==>
          if k.op.SendResp? then
            && k.stage.ch < |b.owners| && b.owners[k.stage.ch].Some?
            && var q := b.owners[k.stage.ch].value;
               && q < |b.calls| && b.calls[q].op.SendSync? && b.calls[q].op.id == k.op.parentId != ""
               && b.calls[q].reply == Some(k.stage.ch)
          else IsNamed(b, k.stage.ch))
    && (k.stage.Listening? ==>
          if k.op.SendSync? then k.reply == Some(k.stage.ch) else IsNamed(b, k.stage.ch))
    && ((k.op.SendResp? || k.op.Send?) ==> !k.stage.Listening?)
    && (k.op.Receive? ==> !k.stage.Offering?)
    && (!k.op.SendSync? ==> !k.stage.Storing? && !k.stage.Leaving? && !k.stage.Closing?)
  }

  /** What call i offered is what SendSync q took: the two results tell the same. */
  ghost predicate Matched(b: Bus, i: nat, q: nat) {
    && i < |b.calls| && q < |b.calls|
    && b.calls[i].op.SendResp? && b.calls[q].op.SendSync?
    && b.calls[i].op.parentId == b.calls[q].op.id
    && b.calls[i].stage == Returned(Done) && b.calls[i].partner == Some(q)
    && ResultOf(b.calls[q]) == Some(Received(i))
  }

  ghost predicate ResultInv(b: Bus, i: nat)
    requires i < |b.calls|
  {
    var k := b.calls[i];
    && (k.op.SendResp? && ResultOf(k).Some? ==>
          k.stage == Returned(Error)
          || (k.stage == Returned(Done) && k.partner.Some? && Matched(b, i, k.partner.value)))
    && (k.op.SendSync? && ResultOf(k).Some? ==>
          ResultOf(k).value == Error
          || (ResultOf(k).value.Received? && Matched(b, ResultOf(k).value.from, i)))
  }

  ghost predicate Inv(b: Bus) {
    && MapsInv(b)
    && forall i | 0 <= i < |b.calls| :: SyncInv(b, i) && PortInv(b, i) && ResultInv(b, i)
  }

  // ---------- preservation ----------

  /** What no step undoes. */
  ghost predicate Later(b: Bus, b': Bus) {
    && |b.calls| <= |b'.calls| && |b.owners| <= |b'.owners|
    && (forall ch | 0 <= ch < |b.owners| :: b'.owners[ch] == b.owners[ch])
    && (forall i | 0 <= i < |b.calls| ::
          && b'.calls[i].op == b.calls[i].op
          && (b.calls[i].reply.Some? ==> b'.calls[i].reply == b.calls[i].reply)
          && (b.calls[i].stage.Returned? ==> b'.calls[i] == b.calls[i])
          && (ResultOf(b.calls[i]).Some? ==> ResultOf(b'.calls[i]) == ResultOf(b.calls[i])))
  }

  lemma StepIsLater(b: Bus, step: Step)
    requires Inv(b) && Enabled(b, step)
    ensures Later(b, Apply(b, step))
  {
    if step.Store? {
      assert SyncInv(b, step.call);
    }
  }

  lemma ResultStays(b: Bus, b': Bus, i: nat)
    requires Later(b, b') && i < |b.calls| && ResultInv(b, i)
    requires ResultOf(b'.calls[i]) == ResultOf(b.calls[i]) && b'.calls[i].partner == b.calls[i].partner
    requires b.calls[i].op.SendResp? ==> b'.calls[i].stage == b.calls[i].stage
    ensures ResultInv(b', i)
  {
  }

  lemma PortStays(b: Bus, b': Bus, i: nat)
    requires Later(b, b') && i < |b.calls| && PortInv(b, i) && b'.calls[i] == b.calls[i]
    ensures PortInv(b', i)
  {
  }

  lemma SyncStays(b: Bus, b': Bus, q: nat)
    requires Later(b, b') && q < |b.calls| && SyncInv(b, q) && b'.calls[q] == b.calls[q]
    requires b'.anon == b.anon && b'.closed == b.closed
    ensures SyncInv(b', q)
  {
  }

  /** Steps that touch one call and neither the maps nor the channels. */
  lemma OneCallKeepsInv(b: Bus, b': Bus, i: nat)
    requires Inv(b) && Later(b, b') && i < |b.calls| == |b'.calls|
    requires b'.named == b.named && b'.anon == b.anon && b'.owners == b.owners && b'.closed == b.closed
    requires forall j | 0 <= j < |b.calls| && j != i :: b'.calls[j] == b.calls[j]
    requires SyncInv(b', i) && PortInv(b', i) && ResultInv(b', i)
    requires InFlight(b'.calls[i]) == InFlight(b.calls[i]) && b'.calls[i].reply == b.calls[i].reply
    ensures Inv(b')
  {
    forall j | 0 <= j < |b'.calls|
      ensures SyncInv(b', j) && PortInv(b', j) && ResultInv(b', j)
    {
      if j != i {
        SyncStays(b, b', j);
        PortStays(b, b', j);
        ResultStays(b, b', j);
      }
    }
  }

  lemma FailureKeepsInv(b: Bus, i: nat, step: Step)
    requires Inv(b) && Enabled(b, step)
    requires step == OfferFails(i) || step == ListenTimesOut(i) || step == ListenEnds(i)
    ensures Inv(Apply(b, step))
  {
    StepIsLater(b, step);
    assert SyncInv(b, i) && PortInv(b, i) && ResultInv(b, i);
    OneCallKeepsInv(b, Apply(b, step), i);
  }

  lemma BeginKeepsInv(b: Bus, op: Op)
    requires Inv(b)
    ensures Inv(Apply(b, Begin(op)))
  {
    var b' := Apply(b, Begin(op));
    StepIsLater(b, Begin(op));
    forall j | 0 <= j < |b'.calls|
      ensures SyncInv(b', j) && PortInv(b', j) && ResultInv(b', j)
    {
      if j < |b.calls| {
        SyncStays(b, b', j);
        PortStays(b, b', j);
        ResultStays(b, b', j);
      }
    }
  }

  lemma RegisterKeepsInv(b: Bus, name: Name)
    requires Inv(b)
    ensures Inv(Apply(b, Register(name)))
  {
    var b' := Apply(b, Register(name));
    StepIsLater(b, Register(name));
    forall ch: nat | IsNamed(b', ch) && ch !in b'.closed
      ensures Registered(b', ch)
    {
      if ch < |b.owners| {
        assert IsNamed(b, ch);
        var other :| other in b.named && b.named[other] == ch;
        assert other in b'.named && b'.named[other] == ch;
      } else {
        assert name in b'.named && b'.named[name] == ch;
      }
    }
    forall j | 0 <= j < |b'.calls|
      ensures SyncInv(b', j) && PortInv(b', j) && ResultInv(b', j)
    {
      SyncStays(b, b', j);
      PortStays(b, b', j);
      ResultStays(b, b', j);
    }
  }

  lemma UnregisterKeepsInv(b: Bus, name: Name)
    requires Inv(b)
    ensures Inv(Apply(b, Unregister(name)))
  {
    var b' := Apply(b, Unregister(name));
    StepIsLater(b, Unregister(name));
    forall ch: nat | IsNamed(b', ch) && ch !in b'.closed
      ensures Registered(b', ch)
    {
      assert IsNamed(b, ch);
      var other :| other in b.named && b.named[other] == ch;
      assert other in b'.named && b'.named[other] == ch;
    }
    forall j | 0 <= j < |b'.calls|
      ensures SyncInv(b', j) && PortInv(b', j) && ResultInv(b', j)
    {
      assert SyncInv(b, j);
      PortStays(b, b', j);
      ResultStays(b, b', j);
    }
  }

  lemma StoreKeepsInv(b: Bus, i: nat)
    requires Inv(b) && Enabled(b, Store(i)) && KeepsIdsApart(b, Store(i))
    ensures Inv(Apply(b, Store(i)))
  {
    var b' := Apply(b, Store(i));
    StepIsLater(b, Store(i));
    forall j | 0 <= j < |b'.calls|
      ensures SyncInv(b', j) && PortInv(b', j) && ResultInv(b', j)
    {
      assert SyncInv(b, j) && PortInv(b, j);
      ResultStays(b, b', j);
    }
  }

  /** Who may meet on a channel: a responder and the SendSync with its id, or users of a named channel. */
  lemma MeetOnChannel(b: Bus, i: nat, j: nat)
    requires Inv(b) && Enabled(b, Meet(i, j))
    ensures b.calls[i].op.SendResp? <==> b.calls[j].op.SendSync?
    ensures b.calls[i].op.SendResp? ==> b.calls[i].op.parentId == b.calls[j].op.id
  {
    assert PortInv(b, i) && PortInv(b, j) && SyncInv(b, j);
  }

  lemma MeetKeepsInv(b: Bus, i: nat, j: nat)
    requires Inv(b) && Enabled(b, Meet(i, j))
    ensures Inv(Apply(b, Meet(i, j)))
  {
    var b' := Apply(b, Meet(i, j));
    StepIsLater(b, Meet(i, j));
    MeetOnChannel(b, i, j);
    assert SyncInv(b, i) && SyncInv(b, j) && PortInv(b, i) && PortInv(b, j);
    assert ResultInv(b, i) && ResultInv(b, j);
    forall k | 0 <= k < |b'.calls|
      ensures SyncInv(b', k) && PortInv(b', k) && ResultInv(b', k)
    {
      if k != i && k != j {
        SyncStays(b, b', k);
        PortStays(b, b', k);
        ResultStays(b, b', k);
      }
    }
  }

  lemma LeaveKeepsSync(b: Bus, i: nat, k: nat)
    requires Inv(b) && Enabled(b, Leave(i)) && k < |b.calls|
    ensures SyncInv(Apply(b, Leave(i)), k)
  {
    assert SyncInv(b, i) && SyncInv(b, k);
    assert InFlight(b.calls[i]);
    if k != i && InFlight(b.calls[k]) && b.calls[k].op.id != "" {
      assert b.owners[b.anon[b.calls[k].op.id]] == Some(k);
    }
  }

  lemma LeaveKeepsInv(b: Bus, i: nat)
    requires Inv(b) && Enabled(b, Leave(i))
    ensures Inv(Apply(b, Leave(i)))
  {
    var b' := Apply(b, Leave(i));
    StepIsLater(b, Leave(i));
    assert SyncInv(b, i) && ResultInv(b, i);
    forall k | 0 <= k < |b'.calls|
      ensures SyncInv(b', k) && PortInv(b', k) && ResultInv(b', k)
    {
      LeaveKeepsSync(b, i, k);
      ResultStays(b, b', k);
      if k != i {
        PortStays(b, b', k);
      }
    }
  }

  lemma CloseKeepsSync(b: Bus, i: nat, k: nat)
    requires Inv(b) && Enabled(b, Close(i)) && k < |b.calls|
    ensures SyncInv(Apply(b, Close(i)), k)
  {
    assert PortInv(b, i) && SyncInv(b, i) && SyncInv(b, k);
    assert b.calls[i].op.SendSync? && OwnedBy(b, b.calls[i].stage.ch, i);
  }

  lemma CloseKeepsInv(b: Bus, i: nat)
    requires Inv(b) && Enabled(b, Close(i))
    ensures Inv(Apply(b, Close(i)))
  {
    var b' := Apply(b, Close(i));
    StepIsLater(b, Close(i));
    assert PortInv(b, i) && SyncInv(b, i);
    forall k | 0 <= k < |b'.calls|
      ensures SyncInv(b', k) && PortInv(b', k) && ResultInv(b', k)
    {
      CloseKeepsSync(b, i, k);
      ResultStays(b, b', k);
      if k != i {
        PortStays(b, b', k);
      }
    }
  }

  lemma StepKeepsInv(b: Bus, step: Step)
    requires Inv(b) && Enabled(b, step) && KeepsIdsApart(b, step)
    ensures Inv(Apply(b, step))
  {
    match step
    case Register(name) => RegisterKeepsInv(b, name);
    case Unregister(name) => UnregisterKeepsInv(b, name);
    case Begin(op) => BeginKeepsInv(b, op);
    case Store(i) => StoreKeepsInv(b, i);
    case Meet(i, j) => MeetKeepsInv(b, i, j);
    case OfferFails(i) => FailureKeepsInv(b, i, step);
    case ListenEnds(i) => FailureKeepsInv(b, i, step);
    case ListenTimesOut(i) => FailureKeepsInv(b, i, step);
    case Leave(i) => LeaveKeepsInv(b, i);
    case Close(i) => CloseKeepsInv(b, i);
  }

  lemma {:induction false} RunKeepsInv(run: seq<Bus>, steps: seq<Step>, i: nat)
    requires IsRun(run, steps) && i < |run|
    ensures Inv(run[i])
  {
    if i > 0 {
      RunKeepsInv(run, steps, i - 1);
      assert StepAt(run, steps, i - 1);
      StepKeepsInv(run[i - 1], steps[i - 1]);
    }
  }

  // ---------- the results ----------

  /**
   In every interleaving in which ids in flight stay apart: a SendResp returns nil exactly when its
   message is the response of the SendSync with the matching id, every other SendResp that returns
   returns an error, a SendSync ends with a response or an error, and the pairing is one to one.
   */
  lemma ResponsesMatch(run: seq<Bus>, steps: seq<Step>, x: nat, i: nat)
    requires IsRun(run, steps) && x < |run| && i < |run[x].calls|
    ensures var b, k := run[x], run[x].calls[i];
            && (k.op.SendResp? && k.stage.Returned? ==>
                  && (k.stage.result == Done || k.stage.result == Error)
                  && (k.stage.result == Done <==> exists q :: Matched(b, i, q)))
            && (k.op.SendSync? && ResultOf(k).Some? ==>
                  || ResultOf(k).value == Error
                  || (ResultOf(k).value.Received? && Matched(b, ResultOf(k).value.from, i)))
            && (forall q, r | Matched(b, i, q) && Matched(b, i, r) :: q == r)
            && (forall q, r | Matched(b, q, i) && Matched(b, r, i) :: q == r)
  {
    RunKeepsInv(run, steps, x);
    assert ResultInv(run[x], i);
  }

  /** The anonymous channels in the map are those of the SendSyncs in flight, each under its own id. */
  lemma MapHoldsInFlight(run: seq<Bus>, steps: seq<Step>, x: nat, id: MsgId)
    requires IsRun(run, steps) && x < |run| && id != ""
    ensures var b := run[x];
            id in b.anon <==>
            exists q :: 0 <= q < |b.calls| && InFlight(b.calls[q]) && b.calls[q].op.id == id
    ensures var b := run[x];
            forall p, q | 0 <= p < q < |b.calls| && InFlight(b.calls[p]) && InFlight(b.calls[q])
                          && b.calls[p].op.id == id ::
              b.calls[q].op.id != id
  {
    RunKeepsInv(run, steps, x);
    var b := run[x];
    if id in b.anon {
      var q := b.owners[b.anon[id]].value;
      assert InFlight(b.calls[q]) && b.calls[q].op.id == id;
    }
    forall p | 0 <= p < |b.calls| && InFlight(b.calls[p]) && b.calls[p].op.id == id
      ensures id in b.anon && b.owners[b.anon[id]] == Some(p)
    {
      assert SyncInv(b, p);
    }
  }

  /** A blocked responder is never left alone: its SendSync has yet to finish, or the channel is closed. */
  lemma BlockedResponderEnds(run: seq<Bus>, steps: seq<Step>, x: nat, i: nat)
    requires IsRun(run, steps) && x < |run| && i < |run[x].calls|
    requires run[x].calls[i].op.SendResp? && run[x].calls[i].stage.Offering?
    ensures var b := run[x];
            Enabled(b, OfferFails(i))
            || exists q :: 0 <= q < |b.calls| && !b.calls[q].stage.Returned?
                           && b.calls[q].op.SendSync? && b.calls[q].op.id == b.calls[i].op.parentId
                           && OwnedBy(b, b.calls[i].stage.ch, q)
  {
    RunKeepsInv(run, steps, x);
    var b := run[x];
    assert PortInv(b, i);
    var q := b.owners[b.calls[i].stage.ch].value;
    assert SyncInv(b, q);
  }

  lemma {:induction false} RunIsLater(run: seq<Bus>, steps: seq<Step>, x: nat, y: nat)
    requires IsRun(run, steps) && x <= y < |run|
    ensures Later(run[x], run[y])
  {
    if x < y {
      RunIsLater(run, steps, x, y - 1);
      RunKeepsInv(run, steps, y - 1);
      assert StepAt(run, steps, y - 1);
      StepIsLater(run[y - 1], steps[y - 1]);
      LaterTransitive(run[x], run[y - 1], run[y]);
    }
  }

  lemma LaterTransitive(a: Bus, b: Bus, c: Bus)
    requires Later(a, b) && Later(b, c)
    ensures Later(a, c)
  {
  }

  /** Late and duplicate responders fail: once a SendSync has its result, no further response is taken for it. */
  lemma LateResponderFails(run: seq<Bus>, steps: seq<Step>, x: nat, y: nat, q: nat, i: nat)
    requires IsRun(run, steps) && x <= y < |run|
    requires q < |run[x].calls| && run[x].calls[q].op.SendSync? && ResultOf(run[x].calls[q]).Some?
    requires i < |run[x].calls| ==> run[x].calls[i].stage != Returned(Done)
    ensures !Matched(run[y], i, q)
  {
    RunKeepsInv(run, steps, x);
    RunIsLater(run, steps, x, y);
    assert ResultInv(run[x], q);
  }

  // ---------- continuations ----------

  predicate Possible(b: Bus, steps: seq<Step>)
    decreases |steps|
  {
    steps == [] || (Enabled(b, steps[0]) && Possible(Apply(b, steps[0]), steps[1..]))
  }

  function After(b: Bus, steps: seq<Step>): Bus
    requires Possible(b, steps)
    decreases |steps|
  {
    if steps == [] then b else After(Apply(b, steps[0]), steps[1..])
  }

  lemma FirstStep(b: Bus, step: Step, rest: seq<Step>)
    requires Enabled(b, step) && Possible(Apply(b, step), rest)
    ensures Possible(b, [step] + rest) && After(b, [step] + rest) == After(Apply(b, step), rest)
  {
    assert ([step] + rest)[1..] == rest;
  }

  lemma {:induction false} MoreSteps(b: Bus, steps: seq<Step>, rest: seq<Step>)
    requires Possible(b, steps) && Possible(After(b, steps), rest)
    ensures Possible(b, steps + rest) && After(b, steps + rest) == After(After(b, steps), rest)
    decreases |steps|
  {
    if steps == [] {
      assert steps + rest == rest;
    } else {
      MoreSteps(Apply(b, steps[0]), steps[1..], rest);
      assert (steps + rest)[1..] == steps[1..] + rest;
    }
  }

  /** These steps are possible and lead there. */
  predicate Leads(b: Bus, steps: seq<Step>, b': Bus) {
    Possible(b, steps) && After(b, steps) == b'
  }

  lemma OneStep(b: Bus, step: Step)
    requires Enabled(b, step)
    ensures Leads(b, [step], Apply(b, step))
  {
    FirstStep(b, step, []);
    assert [step] + [] == [step];
  }

  lemma TwoSteps(b: Bus, one: Step, two: Step)
    requires Enabled(b, one) && Enabled(Apply(b, one), two)
    ensures Leads(b, [one, two], Apply(Apply(b, one), two))
  {
    OneStep(Apply(b, one), two);
    FirstStep(b, one, [two]);
    assert [one] + [two] == [one, two];
  }

  lemma JoinSteps(b: Bus, steps: seq<Step>, b': Bus, rest: seq<Step>, b'': Bus)
    requires Leads(b, steps, b') && Leads(b', rest, b'')
    ensures Leads(b, steps + rest, b'')
  {
    MoreSteps(b, steps, rest);
  }

  // ---------- messages arrive ----------

  /** A SendSync that waits for its response gets it from any call that answers its id, and returns it. */
  lemma ResponseArrives(b: Bus, q: nat)
    requires Inv(b) && q < |b.calls| && b.calls[q].op.SendSync? && b.calls[q].op.id != ""
    requires b.calls[q].stage.Listening?
    ensures var n := |b.calls|;
            exists b' :: Leads(b, [Begin(SendResp(b.calls[q].op.id)), Meet(n, q), Leave(q), Close(q)], b')
                         && Matched(b', n, q) && b'.calls[q].stage == Returned(Received(n))
                         && b.calls[q].op.id !in b'.anon && b'.named == b.named
  {
    var n, id := |b.calls|, b.calls[q].op.id;
    assert SyncInv(b, q) && PortInv(b, q);
    var b0 := Apply(b, Begin(SendResp(id)));
    var b1 := Apply(b0, Meet(n, q));
    TwoSteps(b, Begin(SendResp(id)), Meet(n, q));
    var b2 := Apply(b1, Leave(q));
    var b3 := Apply(b2, Close(q));
    TwoSteps(b1, Leave(q), Close(q));
    JoinSteps(b, [Begin(SendResp(id)), Meet(n, q)], b1, [Leave(q), Close(q)], b3);
    assert [Begin(SendResp(id)), Meet(n, q)] + [Leave(q), Close(q)]
           == [Begin(SendResp(id)), Meet(n, q), Leave(q), Close(q)];
    assert Matched(b3, n, q);
  }

  /** An answer to an id that is empty, or that no SendSync in flight has, fails at once. */
  lemma LostResponseFails(b: Bus, id: MsgId)
    requires Inv(b)
    requires id == "" || forall q | 0 <= q < |b.calls| && InFlight(b.calls[q]) :: b.calls[q].op.id != id
    ensures exists b' :: Leads(b, [Begin(SendResp(id))], b')
                         && |b'.calls| == |b.calls| + 1 && b'.calls[|b.calls|].stage == Returned(Error)
  {
    assert forall x | x in b.anon ::
        InFlight(b.calls[b.owners[b.anon[x]].value]) && b.calls[b.owners[b.anon[x]].value].op.id == x;
    OneStep(b, Begin(SendResp(id)));
    assert Apply(b, Begin(SendResp(id))).calls[|b.calls|].stage == Returned(Error);
  }

  /** A message sent to a registered name reaches a call that receives there, and both return at once. */
  lemma MessageArrives(b: Bus, name: Name, j: nat)
    requires Inv(b) && name in b.named
    requires j < |b.calls| && b.calls[j].op.Receive? && b.calls[j].stage == Listening(b.named[name])
    ensures var n := |b.calls|;
            exists b' :: Leads(b, [Begin(Send(name)), Meet(n, j)], b') && |b'.calls| == n + 1
                         && b'.calls[n].stage == Returned(Done) && b'.calls[n].partner == Some(j)
                         && b'.calls[j].stage == Returned(Received(n))
  {
    var n := |b.calls|;
    TwoSteps(b, Begin(Send(name)), Meet(n, j));
  }

  /** A call that receives at a registered name takes the message of any call blocked there. */
  lemma ReceiverTakes(b: Bus, name: Name, i: nat)
    requires Inv(b) && name in b.named
    requires i < |b.calls| && b.calls[i].stage == Offering(b.named[name])
    ensures var n := |b.calls|;
            exists b' :: Leads(b, [Begin(Receive(name)), Meet(i, n)], b') && |b'.calls| == n + 1
                         && b'.calls[n].stage == Returned(Received(i)) && b'.calls[i].partner == Some(n)
                         && (b.calls[i].op.Send? ==> b'.calls[i].stage == Returned(Done))
                         && (b.calls[i].op.SendSync? ==>
                               b.calls[i].reply.Some? && b'.calls[i].stage == Listening(b.calls[i].reply.value))
  {
    var n := |b.calls|;
    assert SyncInv(b, i) && PortInv(b, i);
    TwoSteps(b, Begin(Receive(name)), Meet(i, n));
  }

  /** Whoever waits for a timeout gets an error, and a SendSync then cleans up and returns it. */
  lemma TimeoutsEnd(b: Bus, i: nat)
    requires Inv(b) && i < |b.calls|
    ensures b.calls[i].stage.Offering? && !b.calls[i].op.SendResp? ==>
              Enabled(b, OfferFails(i)) && ResultOf(Apply(b, OfferFails(i)).calls[i]) == Some(Error)
    ensures b.calls[i].stage.Listening? && b.calls[i].op.SendSync? ==>
              Enabled(b, ListenTimesOut(i)) && ResultOf(Apply(b, ListenTimesOut(i)).calls[i]) == Some(Error)
    ensures b.calls[i].op.SendSync? && b.calls[i].stage.Leaving? ==>
              Enabled(b, Leave(i))
              && var b' := Apply(b, Leave(i));
                 b.calls[i].op.id !in b'.anon
                 && if b'.calls[i].stage.Closing? then
                      Enabled(b', Close(i))
                      && Apply(b', Close(i)).calls[i].stage == Returned(b.calls[i].stage.result)
                      && b.calls[i].reply.Some? && b.calls[i].reply.value in Apply(b', Close(i)).closed
                    else b'.calls[i].stage == Returned(b.calls[i].stage.result) && b.calls[i].op.id == ""
  {
    assert SyncInv(b, i) && PortInv(b, i);
  }

  /** A call to a name that is not registered fails at once. */
  lemma UnknownNameFails(b: Bus, op: Op)
    requires (op.Send? && op.dest !in b.named) || (op.Receive? && op.name !in b.named)
             || (op.SendSync? && op.dest !in b.named)
    ensures exists b' :: Leads(b, [Begin(op)], b')
                         && |b'.calls| == |b.calls| + 1 && b'.calls[|b.calls|].stage == Returned(Error)
  {
    OneStep(b, Begin(op));
    assert Apply(b, Begin(op)).calls[|b.calls|].stage == Returned(Error);
  }

  /** Registering a name opens a channel of its own; unregistering closes it, and whoever is blocked there can end. */
  lemma NamesComeAndGo(b: Bus, name: Name)
    requires Inv(b)
    ensures var b' := Apply(b, Register(name));
            && name in b'.named
            && (forall other | other in b.named :: other in b'.named && b'.named[other] == b.named[other])
            && (name !in b.named ==> forall other | other in b.named :: b'.named[name] != b.named[other])
    ensures var b' := Apply(b, Unregister(name));
            && b'.named == b.named - {name}
            && (name in b.named ==>
                  forall i | 0 <= i < |b.calls| ::
                    && (b.calls[i].stage == Offering(b.named[name]) ==>
                          Enabled(b', OfferFails(i)) && ResultOf(Apply(b', OfferFails(i)).calls[i]) == Some(Error))
                    && (b.calls[i].stage == Listening(b.named[name]) && !b.calls[i].op.SendSync? ==>
                          Enabled(b', ListenEnds(i)) && Apply(b', ListenEnds(i)).calls[i].stage == Returned(Error)))
  {
  }

  /** A request under a free id is stored and on its way. */
  ghost predicate OnItsWay(b: Bus, b': Bus, id: MsgId, name: Name) {
    var n := |b.calls|;
    && Leads(b, [Begin(SendSync(id, name)), Store(n)], b')
    && Inv(b') && |b'.calls| == n + 1 && b'.named == b.named
    && name in b'.named && b'.calls[n].op == SendSync(id, name) && b'.calls[n].stage == Offering(b'.named[name])
  }

  lemma RequestLeaves(b: Bus, id: MsgId, name: Name)
    requires Inv(b) && id != "" && id !in b.anon && name in b.named
    ensures exists b' :: OnItsWay(b, b', id, name)
  {
    var n := |b.calls|;
    var b1 := Apply(b, Begin(SendSync(id, name)));
    TwoSteps(b, Begin(SendSync(id, name)), Store(n));
    BeginKeepsInv(b, SendSync(id, name));
    StoreKeepsInv(b1, n);
    assert OnItsWay(b, Apply(b1, Store(n)), id, name);
  }

  /** It has been received, and its call waits for the response. */
  ghost predicate Waits(b: Bus, b': Bus, id: MsgId, name: Name) {
    var n := |b.calls|;
    && Leads(b, [Begin(SendSync(id, name)), Store(n)] + [Begin(Receive(name)), Meet(n, n + 1)], b')
    && Inv(b') && |b'.calls| == n + 2 && b'.named == b.named
    && b'.calls[n].op == SendSync(id, name) && b'.calls[n].stage.Listening?
    && b'.calls[n + 1].stage == Returned(Received(n))
  }

  lemma RequestArrives(b: Bus, id: MsgId, name: Name)
    requires Inv(b) && id != "" && id !in b.anon && name in b.named
    ensures exists b' :: Waits(b, b', id, name)
  {
    var n := |b.calls|;
    RequestLeaves(b, id, name);
    var b2 :| OnItsWay(b, b2, id, name);
    assert SyncInv(b2, n) && PortInv(b2, n);
    var b3 := Apply(b2, Begin(Receive(name)));
    TwoSteps(b2, Begin(Receive(name)), Meet(n, n + 1));
    BeginKeepsInv(b2, Receive(name));
    MeetKeepsInv(b3, n, n + 1);
    var b4 := Apply(b3, Meet(n, n + 1));
    JoinSteps(b, [Begin(SendSync(id, name)), Store(n)], b2, [Begin(Receive(name)), Meet(n, n + 1)], b4);
    assert Waits(b, b4, id, name);
  }

  /** A whole exchange: a request under a free id is received, answered, and its response returned. */
  lemma ExchangeWorks(b: Bus, id: MsgId, name: Name)
    requires Inv(b) && id != "" && id !in b.anon && name in b.named
    ensures var n := |b.calls|;
            exists steps, b' :: Leads(b, steps, b') && steps != [] && steps[0] == Begin(SendSync(id, name))
                         && Matched(b', n + 2, n) && b'.calls[n].stage == Returned(Received(n + 2))
                         && b'.named == b.named && id !in b'.anon
  {
    var n := |b.calls|;
    RequestArrives(b, id, name);
    var m :| Waits(b, m, id, name);
    var first := [Begin(SendSync(id, name)), Store(n)] + [Begin(Receive(name)), Meet(n, n + 1)];
    ResponseArrives(m, n);
    var last := [Begin(SendResp(id)), Meet(n + 2, n), Leave(n), Close(n)];
    var b' :| Leads(m, last, b') && Matched(b', n + 2, n) && b'.calls[n].stage == Returned(Received(n + 2))
              && id !in b'.anon && b'.named == m.named;
    JoinSteps(b, first, m, last, b');
  }

  // ---------- where ids in flight are shared ----------

  predicate IsEmptied(b: Bus, q: nat) {
    q < |b.calls| && b.calls[q].op.SendSync? && ResultOf(b.calls[q]) == Some(Empty)
  }

  /** SendSync p gives up, by a timeout if it has no result yet. */
  function GiveUp(k: Call, p: nat): seq<Step> {
    match k.stage
    case Offering(_) => [OfferFails(p)]
    case Listening(_) => [ListenTimesOut(p)]
    case _ => []
  }

  lemma GivesUp(b: Bus, p: nat)
    requires p < |b.calls| && InFlight(b.calls[p])
    ensures Possible(b, GiveUp(b.calls[p], p))
    ensures var b' := After(b, GiveUp(b.calls[p], p));
            && b'.named == b.named && b'.anon == b.anon && b'.closed == b.closed && |b'.calls| == |b.calls|
            && b'.calls[p].op == b.calls[p].op && b'.calls[p].stage.Leaving?
            && forall i | 0 <= i < |b.calls| && i != p :: b'.calls[i] == b.calls[i]
  {
    var steps := GiveUp(b.calls[p], p);
    if steps != [] {
      FirstStep(b, steps[0], []);
      assert steps == [steps[0]] + [];
    }
  }

  /** A message of q is taken, p closes the channel it finds in the map, and q wakes up. */
  lemma LeavingClosesTheOther(b: Bus, name: Name, p: nat, q: nat) returns (steps: seq<Step>)
    requires p < |b.calls| && q < |b.calls| && p != q
    requires b.calls[p].op.SendSync? && b.calls[p].stage.Leaving?
    requires b.calls[q].op.SendSync? && b.calls[q].op.id == b.calls[p].op.id && b.calls[q].reply.Some?
    requires name in b.named && b.calls[q].stage == Offering(b.named[name]) && b.named[name] !in b.closed
    requires b.calls[q].op.id in b.anon && b.anon[b.calls[q].op.id] == b.calls[q].reply.value
    ensures Possible(b, steps) && forall i | 0 <= i < |steps| :: !steps[i].Store?
    ensures IsEmptied(After(b, steps), q)
  {
    var n := |b.calls|;
    var b1 := Apply(b, Begin(Receive(name)));
    var b2 := Apply(b1, Meet(q, n));
    var b3 := Apply(b2, Leave(p));
    var b4 := Apply(b3, Close(p));
    var b5 := Apply(b4, ListenEnds(q));
    assert IsEmptied(b5, q);
    FirstStep(b4, ListenEnds(q), []);
    FirstStep(b3, Close(p), [ListenEnds(q)]);
    FirstStep(b2, Leave(p), [Close(p), ListenEnds(q)]);
    FirstStep(b1, Meet(q, n), [Leave(p), Close(p), ListenEnds(q)]);
    FirstStep(b, Begin(Receive(name)), [Meet(q, n), Leave(p), Close(p), ListenEnds(q)]);
    steps := [Begin(Receive(name)), Meet(q, n), Leave(p), Close(p), ListenEnds(q)];
    assert steps == [Begin(Receive(name))] + [Meet(q, n), Leave(p), Close(p), ListenEnds(q)];
  }

  /** These steps store the channel of q and no other, and q returns an empty message. */
  ghost predicate StoringEndsEmpty(b: Bus, q: nat, steps: seq<Step>) {
    && steps != [] && steps[0] == Store(q) && (forall i | 0 < i < |steps| :: !steps[i].Store?)
    && Possible(b, steps) && IsEmptied(After(b, steps), q)
  }

  /**
   The ids must stay apart: whenever a SendSync stores its channel over that of another in flight, and
   its destination has not been closed, it may return an empty message as its response, without any
   further channel being stored.
   */
  lemma SharedIdGivesEmptyResponse(b: Bus, q: nat)
    requires Inv(b) && Enabled(b, Store(q)) && !KeepsIdsApart(b, Store(q))
    requires b.calls[q].stage.req !in b.closed
    ensures exists steps :: StoringEndsEmpty(b, q, steps)
  {
    assert SyncInv(b, q) && IsNamed(b, b.calls[q].stage.req);
    var name :| name in b.named && b.named[name] == b.calls[q].stage.req;
    var p := b.owners[b.anon[b.calls[q].op.id]].value;
    var b1 := Apply(b, Store(q));
    var away := GiveUp(b1.calls[p], p);
    GivesUp(b1, p);
    var b2 := After(b1, away);
    var rest := LeavingClosesTheOther(b2, name, p, q);
    MoreSteps(b1, away, rest);
    FirstStep(b, Store(q), away + rest);
    assert StoringEndsEmpty(b, q, [Store(q)] + (away + rest));
  }

  /** One registered module, and two calls of one id, of which the first has stored its channel. */
  function TwoCalls(): seq<Step> {
    [Register("d"), Begin(SendSync("i", "d"))] + [Begin(SendSync("i", "d")), Store(0)]
  }

  const FIRST_CALL := Call(SendSync("i", "d"), Storing(0), None, None)

  /** The bus after the first two of these steps. */
  const ONE_CALL := Bus(map["d" := 0], map[], [None], {}, [FIRST_CALL])

  lemma OneCallHappens()
    ensures Leads(EMPTY_BUS, [Register("d"), Begin(SendSync("i", "d"))], ONE_CALL) && Inv(ONE_CALL)
  {
    var b1 := Apply(EMPTY_BUS, Register("d"));
    TwoSteps(EMPTY_BUS, Register("d"), Begin(SendSync("i", "d")));
    RegisterKeepsInv(EMPTY_BUS, "d");
    BeginKeepsInv(b1, SendSync("i", "d"));
    assert Apply(b1, Begin(SendSync("i", "d"))) == ONE_CALL;
  }

  const SECOND_CALL := Bus(map["d" := 0], map[], [None], {}, [FIRST_CALL, FIRST_CALL])
  const TWO_CALLS :=
    Bus(map["d" := 0], map["i" := 1], [None, Some(0)], {},
        [FIRST_CALL.(stage := Offering(0), reply := Some(1)), FIRST_CALL])

  lemma SecondCallStores()
    requires Inv(ONE_CALL)
    ensures Leads(ONE_CALL, [Begin(SendSync("i", "d")), Store(0)], TWO_CALLS) && Inv(TWO_CALLS)
  {
    assert Apply(ONE_CALL, Begin(SendSync("i", "d"))) == SECOND_CALL;
    assert Apply(SECOND_CALL, Store(0)) == TWO_CALLS;
    BeginKeepsInv(ONE_CALL, SendSync("i", "d"));
    StoreKeepsInv(SECOND_CALL, 0);
    TwoSteps(ONE_CALL, Begin(SendSync("i", "d")), Store(0));
  }

  lemma TwoCallsHappen()
    ensures Leads(EMPTY_BUS, TwoCalls(), TWO_CALLS) && Inv(TWO_CALLS)
  {
    OneCallHappens();
    SecondCallStores();
    var op := SendSync("i", "d");
    JoinSteps(EMPTY_BUS, [Register("d"), Begin(op)], ONE_CALL, [Begin(op), Store(0)], TWO_CALLS);
  }

  /** From the start such a run may end in an empty response. */
  lemma EmptyResponseHappens()
    ensures exists steps :: Possible(EMPTY_BUS, steps) && IsEmptied(After(EMPTY_BUS, steps), 1)
  {
    TwoCallsHappen();
    SharedIdGivesEmptyResponse(TWO_CALLS, 1);
    var rest :| StoringEndsEmpty(TWO_CALLS, 1, rest);
    JoinSteps(EMPTY_BUS, TwoCalls(), TWO_CALLS, rest, After(TWO_CALLS, rest));
    assert Possible(EMPTY_BUS, TwoCalls() + rest) && IsEmptied(After(EMPTY_BUS, TwoCalls() + rest), 1);
  }
}
