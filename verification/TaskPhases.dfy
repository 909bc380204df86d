/**
 Task phases and the transition rule of the task scheduler.

 A phase is a text column in the source. The six named phases are constructors here,
 the empty text is Unset, and any other text a caller may send is Unknown.
 */
module TaskPhases {
  import opened Basics

  type TaskId = string

  datatype TaskPhase =
    | Waiting
    | Processing
    | Aborting
    | Succeed
    | Failed
    | PartiallyFailed
    | Unset
    | Unknown(text: string)

  predicate IsFinished(p: TaskPhase) {
    p.PartiallyFailed? || p.Failed? || p.Succeed?
  }

  /** The weight table; a phase outside the table has no weight. */
  function PhaseWeight(p: TaskPhase): Option<nat> {
    match p
    case Waiting => Some(0)
    case Processing => Some(1)
    case Aborting => Some(2)
    case Succeed => Some(3)
    case Failed => Some(3)
    case PartiallyFailed => Some(3)
    case _ => None
  }

  predicate AllowPhaseTrans(from: TaskPhase, wanted: TaskPhase, byUser: bool) {
    var to := if wanted == Unset then from else wanted;
    if IsFinished(from) then
      false
    else if IsFinished(to) || to == from then
      true
    else
      match (PhaseWeight(from), PhaseWeight(to))
      case (Some(fromWeight), Some(toWeight)) => !byUser && fromWeight < toWeight
      case _ => false
  }

  /** The phases a stored row can hold. */
  predicate IsStored(p: TaskPhase) {
    PhaseWeight(p).Some?
  }

  function Weight(p: TaskPhase): nat
    requires IsStored(p)
  {
    PhaseWeight(p).value
  }

  /**
   What the design allows a row to do: stay where it is, finish, or, when the request does not
   come from a user, move to a heavier phase; a finished row does nothing at all.
   */
  predicate Permitted(from: TaskPhase, to: TaskPhase, byUser: bool) {
    && !IsFinished(from)
    && (to == from
        || IsFinished(to)
        || (!byUser && from.Waiting? && (to.Processing? || to.Aborting?))
        || (!byUser && from.Processing? && to.Aborting?))
  }

  /** Between stored phases the rule is exactly the design's, for users and for the scheduler. */
  lemma AllowIsPermitted(from: TaskPhase, wanted: TaskPhase, byUser: bool)
    requires IsStored(from)
    ensures AllowPhaseTrans(from, wanted, byUser)
            <==> Permitted(from, if wanted == Unset then from else wanted, byUser)
  {
  }

  /** A permitted move never loses weight, and it keeps the weight only by staying put. */
  lemma PermittedGains(from: TaskPhase, to: TaskPhase, byUser: bool)
    requires IsStored(from) && Permitted(from, to, byUser)
    ensures IsStored(to) && Weight(from) <= Weight(to)
    ensures Weight(from) == Weight(to) <==> from == to
  {
  }
}
