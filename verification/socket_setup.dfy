/**
  Synchronous socket setup on a bounded pool, step by step: permits, the
  job tracker, callers that give up, and the shutdown that waits for started work.
 */
module SocketSetup {
  const MAX_SOCKET_INITIALIZATIONS: nat := 64

  /** How far shutdown has come. From `Marked` until `Closed` it holds the lock that registration needs. */
  datatype Stage = Open | Marked | Cancelled | SemaphoreClosed | Closed | Returned
  {
    predicate Cancelling()
    {
      !Open? && !Marked?
    }
  }

  /** Each call of `run` is in at most one of the sets; `gone` are the callers that gave up. */
  datatype State = State(
    waiting: set<nat>, holding: set<nat>, queued: set<nat>, running: set<nat>,
    ended: set<nat>, returning: set<nat>, loose: set<nat>, gone: set<nat>,
    permits: nat, tokens: nat, stage: Stage)
  {
    ghost predicate Free(id: nat)
    {
      id !in waiting && id !in holding && id !in queued && id !in running &&
      id !in ended && id !in returning && id !in loose && id !in gone
    }
  }

  datatype Action =
    | Call(id: nat) | GiveUp(id: nat)
    | Acquire(id: nat) | Refuse(id: nat) | Register(id: nat) | Reject(id: nat)
    | Start(id: nat) | Skip(id: nat) | Finish(id: nat) | DropToken(id: nat) | DropPermit(id: nat)
    | Abort(id: nat) | DropLoose(id: nat)
    | Mark | Cancel | CloseSemaphore | CloseTracker | Return

  const Initial: State :=
    State({}, {}, {}, {}, {}, {}, {}, {}, MAX_SOCKET_INITIALIZATIONS, 0, Open)

  // ------------------------------------------------------------------- steps

  ghost predicate Enabled(s: State, a: Action)
  {
    match a
    case Call(id) => s.Free(id)
    case GiveUp(id) => id in s.waiting || id in s.queued || id in s.running || id in s.ended
    case Acquire(id) => id in s.waiting && s.permits > 0 && (s.stage.Open? || s.stage.Marked? || s.stage.Cancelled?)
    case Refuse(id) => id in s.waiting && s.stage.Cancelling()
    case Register(id) => id in s.holding && s.stage.Open?
    case Reject(id) => id in s.holding && (s.stage.Closed? || s.stage.Returned?)
    case Start(id) => id in s.queued && !s.stage.Cancelling() && id !in s.gone
    case Skip(id) => id in s.queued && (s.stage.Cancelling() || id in s.gone)
    case Finish(id) => id in s.running
    case DropToken(id) => id in s.ended && s.tokens > 0
    case DropPermit(id) => id in s.returning
    case Abort(id) => id in s.queued && (s.stage.Cancelling() || id in s.gone)
    case DropLoose(id) => id in s.loose && s.tokens > 0
    case Mark => s.stage.Open?
    case Cancel => s.stage.Marked?
    case CloseSemaphore => s.stage.Cancelled?
    case CloseTracker => s.stage.SemaphoreClosed?
    case Return => s.stage.Closed? && s.tokens == 0
  }

  ghost function Apply(s: State, a: Action): (t: State)
    requires Enabled(s, a)
  {
    match a
    case Call(id) => s.(waiting := s.waiting + {id})
    case GiveUp(id) =>
      if id in s.waiting then s.(waiting := s.waiting - {id}) else s.(gone := s.gone + {id})
    case Acquire(id) =>
      s.(waiting := s.waiting - {id}, holding := s.holding + {id}, permits := s.permits - 1)
    case Refuse(id) => s.(waiting := s.waiting - {id})
    case Register(id) =>
      s.(holding := s.holding - {id}, queued := s.queued + {id}, tokens := s.tokens + 1)
    case Reject(id) => s.(holding := s.holding - {id}, permits := s.permits + 1)
    case Start(id) => s.(queued := s.queued - {id}, running := s.running + {id})
    case Skip(id) => s.(queued := s.queued - {id}, ended := s.ended + {id})
    case Finish(id) => s.(running := s.running - {id}, ended := s.ended + {id})
    case DropToken(id) =>
      s.(ended := s.ended - {id}, returning := s.returning + {id}, tokens := s.tokens - 1)
    case DropPermit(id) => s.(returning := s.returning - {id}, permits := s.permits + 1)
    case Abort(id) => s.(queued := s.queued - {id}, loose := s.loose + {id}, permits := s.permits + 1)
    case DropLoose(id) => s.(loose := s.loose - {id}, tokens := s.tokens - 1)
    case Mark => s.(stage := Marked)
    case Cancel => s.(stage := Cancelled)
    case CloseSemaphore => s.(stage := SemaphoreClosed)
    case CloseTracker => s.(stage := Closed)
    case Return => s.(stage := Returned)
  }

  // --------------------------------------------------------------- invariant

  ghost predicate Apart(s: State)
  {
    && s.waiting !! s.holding !! s.queued !! s.running !! s.ended !! s.returning !! s.loose
  }

  /** Every permit is free or with one call, and every token is with one job. */
  ghost predicate Permitted(s: State)
  {
    s.permits + |s.holding| + |s.queued| + |s.running| + |s.ended| + |s.returning| == MAX_SOCKET_INITIALIZATIONS
  }

  ghost predicate Tokened(s: State)
  {
    s.tokens == |s.queued| + |s.running| + |s.ended| + |s.loose|
  }

  ghost predicate Inv(s: State)
  {
    Apart(s) && Permitted(s) && Tokened(s) && (s.stage.Returned? ==> s.tokens == 0)
  }

  lemma StepKeeps(s: State, a: Action)
    requires Inv(s) && Enabled(s, a)
    ensures Inv(Apply(s, a))
  {
    StepApart(s, a);
    StepPermits(s, a);
    StepTokens(s, a);
  }

  lemma StepApart(s: State, a: Action)
    requires Apart(s) && Enabled(s, a)
    ensures Apart(Apply(s, a))
  {
  }

  lemma Move(a: set<nat>, b: set<nat>, id: nat)
    ensures id in a ==> |a - {id}| == |a| - 1
    ensures id !in b ==> |b + {id}| == |b| + 1
  {
  }

  /** The sets a step takes its call from and puts it into. */
  lemma StepSizes(s: State, a: Action)
    requires Apart(s) && Enabled(s, a)
    ensures match a
            case Acquire(id) => |Apply(s, a).holding| == |s.holding| + 1
            case Register(id) => |Apply(s, a).holding| == |s.holding| - 1 && |Apply(s, a).queued| == |s.queued| + 1
            case Reject(id) => |Apply(s, a).holding| == |s.holding| - 1
            case Start(id) => |Apply(s, a).queued| == |s.queued| - 1 && |Apply(s, a).running| == |s.running| + 1
            case Skip(id) => |Apply(s, a).queued| == |s.queued| - 1 && |Apply(s, a).ended| == |s.ended| + 1
            case Finish(id) => |Apply(s, a).running| == |s.running| - 1 && |Apply(s, a).ended| == |s.ended| + 1
            case DropToken(id) => |Apply(s, a).ended| == |s.ended| - 1 && |Apply(s, a).returning| == |s.returning| + 1
            case DropPermit(id) => |Apply(s, a).returning| == |s.returning| - 1
            case Abort(id) => |Apply(s, a).queued| == |s.queued| - 1 && |Apply(s, a).loose| == |s.loose| + 1
            case DropLoose(id) => |Apply(s, a).loose| == |s.loose| - 1
            case _ => true
  {
    match a {
      case Acquire(id) => Move(s.waiting, s.holding, id);
      case Register(id) => Move(s.holding, s.queued, id);
      case Reject(id) => Move(s.holding, {}, id);
      case Start(id) => Move(s.queued, s.running, id);
      case Skip(id) => Move(s.queued, s.ended, id);
      case Finish(id) => Move(s.running, s.ended, id);
      case DropToken(id) => Move(s.ended, s.returning, id);
      case DropPermit(id) => Move(s.returning, {}, id);
      case Abort(id) => Move(s.queued, s.loose, id);
      case DropLoose(id) => Move(s.loose, {}, id);
      case _ =>
    }
  }

  lemma StepPermits(s: State, a: Action)
    requires Apart(s) && Permitted(s) && Enabled(s, a)
    ensures Permitted(Apply(s, a))
  {
    StepSizes(s, a);
  }

  lemma StepTokens(s: State, a: Action)
    requires Apart(s) && Tokened(s) && Enabled(s, a)
    ensures Tokened(Apply(s, a))
    ensures s.stage.Returned? && s.tokens == 0 ==> Apply(s, a).tokens == 0
  {
    StepSizes(s, a);
  }

  // -------------------------------------------------------------------- runs

  ghost predicate Possible(s: State, actions: seq<Action>)
    decreases |actions|
  {
    |actions| == 0 || (Enabled(s, actions[0]) && Possible(Apply(s, actions[0]), actions[1..]))
  }

  ghost function After(s: State, actions: seq<Action>): (t: State)
    requires Possible(s, actions)
    decreases |actions|
  {
    if |actions| == 0 then s else After(Apply(s, actions[0]), actions[1..])
  }

  lemma {:induction false} RunKeeps(s: State, actions: seq<Action>)
    requires Inv(s) && Possible(s, actions)
    ensures Inv(After(s, actions))
    decreases |actions|
  {
    if |actions| > 0 {
      StepKeeps(s, actions[0]);
      RunKeeps(Apply(s, actions[0]), actions[1..]);
    }
  }

  /** In every run, never more than the permitted number of setup closures executes at once. */
  lemma BoundedSetups(actions: seq<Action>)
    requires Possible(Initial, actions)
    ensures |After(Initial, actions).running| <= MAX_SOCKET_INITIALIZATIONS
  {
    RunKeeps(Initial, actions);
  }

  /** Nothing is queued or executing, and nothing can be. */
  lemma Quiet(s: State)
    requires Inv(s) && s.stage.Returned?
    ensures s.queued == {} && s.running == {}
    ensures forall id :: !Enabled(s, Start(id))
  {
  }

  lemma {:induction false} StaysReturned(s: State, actions: seq<Action>)
    requires s.stage.Returned? && Possible(s, actions)
    ensures After(s, actions).stage.Returned?
    decreases |actions|
  {
    if |actions| > 0 {
      StaysReturned(Apply(s, actions[0]), actions[1..]);
    }
  }

  lemma {:induction false} Continued(s: State, first: seq<Action>, later: seq<Action>)
    requires Possible(s, first + later)
    ensures Possible(s, first) && Possible(After(s, first), later)
    ensures After(s, first + later) == After(After(s, first), later)
    decreases |first|
  {
    if |first| == 0 {
      assert first + later == later;
    } else {
      assert (first + later)[1..] == first[1..] + later;
      Continued(Apply(s, first[0]), first[1..], later);
    }
  }

  /** In every run, once shutdown has returned no setup closure executes, and none ever starts. */
  lemma QuietAfterShutdown(first: seq<Action>, later: seq<Action>)
    requires Possible(Initial, first + later)
    ensures Possible(Initial, first)
    ensures After(Initial, first).stage.Returned? ==>
              var s := After(Initial, first + later);
              s.queued == {} && s.running == {} && forall id :: !Enabled(s, Start(id))
  {
    Continued(Initial, first, later);
    RunKeeps(Initial, first + later);
    if After(Initial, first).stage.Returned? {
      StaysReturned(After(Initial, first), later);
      Quiet(After(Initial, first + later));
    }
  }

  /** From the moment shutdown marks the owner closed, the tracked jobs only become fewer. */
  ghost function Tracked(s: State): (ids: set<nat>)
  {
    s.queued + s.running + s.ended + s.loose
  }

  lemma {:induction false} NoNewJobs(s: State, actions: seq<Action>)
    requires !s.stage.Open? && Possible(s, actions)
    ensures Tracked(After(s, actions)) <= Tracked(s) && !After(s, actions).stage.Open?
    decreases |actions|
  {
    if |actions| > 0 {
      NoNewJobs(Apply(s, actions[0]), actions[1..]);
    }
  }
}
