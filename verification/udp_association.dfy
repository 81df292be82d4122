/**
  The event loop of one UDP association: the biased choice between cancellation,
  sniff deadline, response, queued send and inbound datagram, and the bounded
  replay queue between the scheduler and the transport.
 */
module UdpAssociation {
  import opened Base
  import opened QuicFlows
  import opened QuicConservation
  import opened QuicScheduler
  import opened Runs

  const READY_MAX: nat := PENDING_DATAGRAM_MAX + 1

  datatype Response = Queued | ChannelClosed | TransportFailed | DomainSource

  datatype Inbound = Nothing | Closed | Received(datagram: Datagram)

  datatype Send = Sent | SendCancelled | SendFailed

  /** What is ready when the loop polls, and how a send would end. */
  datatype Poll = Poll(
    now: nat, cancelled: bool, timer: bool, response: Option<Response>, inbound: Inbound, send: Send)

  datatype End =
    | Running
    | Stopped
    | ReplayQueueExceeded
    | TransportError
    | InvalidResponse

  /** Datagrams addressed to `a`, in order. */
  ghost function Addressed(datagrams: seq<Datagram>, a: SocketAddr): (r: seq<Datagram>)
  {
    if |datagrams| == 0 then []
    else
      var last := datagrams[|datagrams| - 1];
      Addressed(datagrams[..|datagrams| - 1], a) + if last.destination == a then [last] else []
  }

  /** The loop's output for one destination, against the scheduler run and the accepted datagrams. */
  ghost predicate MatchesAt<S>(
    engine: Engine<S>, idle: nat, sniffs: nat -> bool, events: seq<Event>,
    outputs: seq<Prepared>, accepted: seq<Datagram>, a: SocketAddr)
  {
    if sniffs(a.port) then
      To(a, outputs) == To(a, Released(engine, idle, events)) && Arrived(events, a) == Addressed(accepted, a)
    else
      Arrived(events, a) == [] && Raw(To(a, outputs)) == Addressed(accepted, a)
  }

  ghost predicate Matches<S>(
    engine: Engine<S>, idle: nat, sniffs: nat -> bool, events: seq<Event>,
    outputs: seq<Prepared>, accepted: seq<Datagram>)
  {
    forall a :: MatchesAt(engine, idle, sniffs, events, outputs, accepted, a)
  }

  lemma RunSnoc<S>(engine: Engine<S>, idle: nat, events: seq<Event>, e: Event, a: SocketAddr)
    requires Possible(engine, idle, events) && Allowed(After(engine, idle, events), e, idle)
    ensures var t := After(engine, idle, events);
      && Possible(engine, idle, events + [e])
      && After(engine, idle, events + [e]) == Step(engine, idle, t, e).table
      && Released(engine, idle, events + [e]) == Released(engine, idle, events) + Step(engine, idle, t, e).released
      && Arrived(events + [e], a) == Arrived(events, a) + ArrivedAt(e, a)
  {
    var run := events + [e];
    assert run[..|events|] == events && run[|events|] == e;
  }

  lemma AddressedSnoc(datagrams: seq<Datagram>, d: Datagram, a: SocketAddr)
    ensures Addressed(datagrams + [d], a) == Addressed(datagrams, a) + if d.destination == a then [d] else []
  {
    var longer := datagrams + [d];
    assert longer[..|datagrams|] == datagrams;
  }

  lemma RawEmpty(datagrams: seq<Prepared>)
    requires Raw(datagrams) == []
    ensures datagrams == []
  {
  }

  /** A destination nothing arrived for gets nothing. */
  lemma NothingReleased<S>(engine: Engine<S>, idle: nat, events: seq<Event>, a: SocketAddr)
    requires Possible(engine, idle, events) && Arrived(events, a) == []
    ensures To(a, Released(engine, idle, events)) == []
  {
    RunConserves(engine, idle, events, a);
    var released := Raw(To(a, Released(engine, idle, events)));
    assert |multiset(released)| == 0;
    RawEmpty(To(a, Released(engine, idle, events)));
  }

  /** Handing a scheduler step's releases on keeps the loop's output faithful. */
  lemma ExtendAt<S>(
    engine: Engine<S>, idle: nat, sniffs: nat -> bool, events: seq<Event>, e: Event,
    outputs: seq<Prepared>, accepted: seq<Datagram>, a: SocketAddr)
    requires Possible(engine, idle, events) && Allowed(After(engine, idle, events), e, idle)
    requires e.Arrival? ==> sniffs(e.datagram.destination.port)
    requires MatchesAt(engine, idle, sniffs, events, outputs, accepted, a)
    ensures var released := Step(engine, idle, After(engine, idle, events), e).released;
      var accepted' := if e.Arrival? then accepted + [e.datagram] else accepted;
      MatchesAt(engine, idle, sniffs, events + [e], outputs + released, accepted', a)
  {
    var released := Step(engine, idle, After(engine, idle, events), e).released;
    RunSnoc(engine, idle, events, e, a);
    Appended(outputs, released, a);
    Appended(Released(engine, idle, events), released, a);
    if e.Arrival? { AddressedSnoc(accepted, e.datagram, a); }
    Associate(Arrived(events, a), [], []);
    if !sniffs(a.port) {
      Associate(Addressed(accepted, a), [], []);
      NothingReleased(engine, idle, events, a);
      NothingReleased(engine, idle, events + [e], a);
      Associate(To(a, outputs), [], []);
      assert To(a, released) == [];
    }
  }

  lemma ForwardAt<S>(
    engine: Engine<S>, idle: nat, sniffs: nat -> bool, events: seq<Event>, d: Datagram,
    outputs: seq<Prepared>, accepted: seq<Datagram>, a: SocketAddr)
    requires !sniffs(d.destination.port)
    requires MatchesAt(engine, idle, sniffs, events, outputs, accepted, a)
    ensures MatchesAt(engine, idle, sniffs, events, outputs + [Plain(d)], accepted + [d], a)
  {
    Appended(outputs, [Plain(d)], a);
    Appended(To(a, outputs), To(a, [Plain(d)]), a);
    AddressedSnoc(accepted, d, a);
    AllTo(d.destination, [Plain(d)], a);
    Single(Plain(d));
    Associate(To(a, outputs), [], []);
    Associate(Addressed(accepted, a), [], []);
  }

  function Queue(pendingSend: Option<Prepared>, ready: seq<Prepared>): seq<Prepared>
  {
    (if pendingSend.Some? then [pendingSend.value] else []) + ready
  }

  /** `append_ready_datagrams`: refuses to grow past the fixed capacity. */
  method AppendReady(ready: seq<Prepared>, datagrams: seq<Prepared>) returns (ok: bool, r: seq<Prepared>)
    ensures ok <==> |ready| + |datagrams| <= READY_MAX
    ensures r == if ok then ready + datagrams else ready
  {
    if |ready| + |datagrams| > READY_MAX {
      return false, ready;
    }
    return true, ready + datagrams;
  }

  /** A step moves datagrams from pending to released, plus at most the one that arrived. */
  lemma StepCount<S>(engine: Engine<S>, idle: nat, t: Table<S>, e: Event)
    requires Allowed(t, e, idle)
    ensures var r := Step(engine, idle, t, e);
      |r.released| + TableLoad(r.table, Count) == TableLoad(t, Count) + if e.Arrival? then 1 else 0
  {
    match e
    case Arrival(d, now, victim) =>
      VictimCompleted(t, d, now, victim, idle);
      ArriveCount(engine, idle, t, d, now, victim);
    case Expiry(now, order) => ExpireLoad(t, order, now);
  }

  // ----------------------------------------------------------- the loop's log

  /** What the loop did with a datagram or a deadline: a scheduler event, or a plain forward. */
  datatype Entry = Stepped(event: Event) | Forwarded(datagram: Datagram)

  ghost function EventsOf(log: seq<Entry>): (events: seq<Event>)
  {
    if |log| == 0 then []
    else
      var last := log[|log| - 1];
      EventsOf(log[..|log| - 1]) + if last.Stepped? then [last.event] else []
  }

  /** The datagrams let in, in order. */
  ghost function AcceptedOf(log: seq<Entry>): (datagrams: seq<Datagram>)
  {
    if |log| == 0 then []
    else AcceptedOf(log[..|log| - 1]) + Taken(log[|log| - 1])
  }

  function Taken(entry: Entry): (datagrams: seq<Datagram>)
  {
    match entry
    case Forwarded(d) => [d]
    case Stepped(Arrival(d, _, _)) => [d]
    case Stepped(Expiry(_, _)) => []
  }

  ghost predicate Legal<S>(engine: Engine<S>, idle: nat, sniffs: nat -> bool, log: seq<Entry>)
  {
    |log| == 0 ||
    var front, last := log[..|log| - 1], log[|log| - 1];
    && Legal(engine, idle, sniffs, front)
    && Possible(engine, idle, EventsOf(front))
    && match last
       case Forwarded(d) => !sniffs(d.destination.port)
       case Stepped(e) =>
         Allowed(After(engine, idle, EventsOf(front)), e, idle) && (e.Arrival? ==> sniffs(e.datagram.destination.port))
  }

  /** The scheduler's table after the log. */
  ghost function TableOf<S>(engine: Engine<S>, idle: nat, sniffs: nat -> bool, log: seq<Entry>): (t: Table<S>)
    requires Legal(engine, idle, sniffs, log)
  {
    LogPossible(engine, idle, sniffs, log);
    After(engine, idle, EventsOf(log))
  }

  /** Everything handed to the transport queue, in order. */
  ghost function OutputsOf<S>(engine: Engine<S>, idle: nat, sniffs: nat -> bool, log: seq<Entry>): (outputs: seq<Prepared>)
    requires Legal(engine, idle, sniffs, log)
  {
    if |log| == 0 then []
    else
      var front, last := log[..|log| - 1], log[|log| - 1];
      OutputsOf(engine, idle, sniffs, front) +
      match last
      case Forwarded(d) => [Plain(d)]
      case Stepped(e) => Step(engine, idle, TableOf(engine, idle, sniffs, front), e).released
  }

  lemma {:induction false} LogPossible<S>(engine: Engine<S>, idle: nat, sniffs: nat -> bool, log: seq<Entry>)
    requires Legal(engine, idle, sniffs, log)
    ensures Possible(engine, idle, EventsOf(log))
  {
    if |log| > 0 {
      var front, last := log[..|log| - 1], log[|log| - 1];
      if last.Stepped? {
        RunSnoc(engine, idle, EventsOf(front), last.event, SocketAddr(false, 0, 0));
      } else {
        Associate(EventsOf(front), [], []);
      }
    }
  }

  /** Whatever the loop did, its outputs are faithful to the scheduler run and to what was let in. */
  lemma {:induction false} LogMatches<S>(engine: Engine<S>, idle: nat, sniffs: nat -> bool, log: seq<Entry>, a: SocketAddr)
    requires Legal(engine, idle, sniffs, log)
    ensures MatchesAt(engine, idle, sniffs, EventsOf(log), OutputsOf(engine, idle, sniffs, log), AcceptedOf(log), a)
  {
    if |log| > 0 {
      var front, last := log[..|log| - 1], log[|log| - 1];
      LogMatches(engine, idle, sniffs, front, a);
      var events, outputs, accepted := EventsOf(front), OutputsOf(engine, idle, sniffs, front), AcceptedOf(front);
      match last {
        case Stepped(e) =>
          ExtendAt(engine, idle, sniffs, events, e, outputs, accepted, a);
          Associate(accepted, [], []);
        case Forwarded(d) =>
          ForwardAt(engine, idle, sniffs, events, d, outputs, accepted, a);
          Associate(events, [], []);
      }
    }
  }

  lemma LogStep<S>(
    engine: Engine<S>, idle: nat, sniffs: nat -> bool, log: seq<Entry>, t: Table<S>, e: Event, r: Moved<S>)
    requires Legal(engine, idle, sniffs, log) && t == TableOf(engine, idle, sniffs, log)
    requires Allowed(t, e, idle) && r == Step(engine, idle, t, e)
    requires e.Arrival? ==> sniffs(e.datagram.destination.port)
    ensures var longer := log + [Stepped(e)];
      && Legal(engine, idle, sniffs, longer)
      && TableOf(engine, idle, sniffs, longer) == r.table
      && OutputsOf(engine, idle, sniffs, longer) == OutputsOf(engine, idle, sniffs, log) + r.released
      && AcceptedOf(longer) == AcceptedOf(log) + Taken(Stepped(e))
    ensures |r.released| + TableLoad(r.table, Count) == TableLoad(t, Count) + if e.Arrival? then 1 else 0
    ensures TableLoad(t, Count) <= PENDING_DATAGRAM_MAX
  {
    var longer := log + [Stepped(e)];
    assert longer[..|longer| - 1] == log;
    LogPossible(engine, idle, sniffs, log);
    RunKeepsTable(engine, idle, EventsOf(log));
    RunSnoc(engine, idle, EventsOf(log), e, SocketAddr(false, 0, 0));
    StepCount(engine, idle, t, e);
  }

  lemma LogForward<S>(engine: Engine<S>, idle: nat, sniffs: nat -> bool, log: seq<Entry>, d: Datagram)
    requires Legal(engine, idle, sniffs, log) && !sniffs(d.destination.port)
    ensures var longer := log + [Forwarded(d)];
      && Legal(engine, idle, sniffs, longer)
      && TableOf(engine, idle, sniffs, longer) == TableOf(engine, idle, sniffs, log)
      && OutputsOf(engine, idle, sniffs, longer) == OutputsOf(engine, idle, sniffs, log) + [Plain(d)]
      && AcceptedOf(longer) == AcceptedOf(log) + [d]
  {
    var longer := log + [Forwarded(d)];
    assert longer[..|longer| - 1] == log;
    LogPossible(engine, idle, sniffs, log);
    Associate(EventsOf(log), [], []);
  }

  /** A replay goes behind whatever already waits, and there is room for it. */
  lemma LogReplay<S>(
    engine: Engine<S>, idle: nat, sniffs: nat -> bool, log: seq<Entry>, t: Table<S>, now: nat, order: seq<SocketAddr>,
    r: Moved<S>, pendingSend: Option<Prepared>, ready: seq<Prepared>, sent: seq<Prepared>)
    requires Legal(engine, idle, sniffs, log) && t == TableOf(engine, idle, sniffs, log)
    requires OutputsOf(engine, idle, sniffs, log) == sent + Queue(pendingSend, ready)
    requires Allowed(t, Expiry(now, order), idle) && r == ExpireAll(t, order, now)
    requires |ready| + TableLoad(t, Count) <= READY_MAX
    ensures var longer := log + [Stepped(Expiry(now, order))];
      && Legal(engine, idle, sniffs, longer)
      && TableOf(engine, idle, sniffs, longer) == r.table
      && OutputsOf(engine, idle, sniffs, longer) == sent + Queue(pendingSend, ready + r.released)
      && AcceptedOf(longer) == AcceptedOf(log)
    ensures |ready| + |r.released| + TableLoad(r.table, Count) <= READY_MAX
  {
    LogStep(engine, idle, sniffs, log, t, Expiry(now, order), r);
    Associate(if pendingSend.Some? then [pendingSend.value] else [], ready, r.released);
    Associate(sent, Queue(pendingSend, ready), r.released);
    Associate(AcceptedOf(log), [], []);
  }

  /** A scheduled arrival into an empty queue: what is released becomes the queue, and fits. */
  lemma LogArrival<S>(
    engine: Engine<S>, idle: nat, sniffs: nat -> bool, log: seq<Entry>, t: Table<S>, e: Event, r: Moved<S>,
    sent: seq<Prepared>)
    requires Legal(engine, idle, sniffs, log) && t == TableOf(engine, idle, sniffs, log)
    requires OutputsOf(engine, idle, sniffs, log) == sent
    requires e.Arrival? && sniffs(e.datagram.destination.port) && Allowed(t, e, idle) && r == Step(engine, idle, t, e)
    ensures var longer := log + [Stepped(e)];
      && Legal(engine, idle, sniffs, longer)
      && TableOf(engine, idle, sniffs, longer) == r.table
      && OutputsOf(engine, idle, sniffs, longer) == sent + r.released
    ensures |r.released| + TableLoad(r.table, Count) <= READY_MAX
  {
    LogStep(engine, idle, sniffs, log, t, e, r);
  }

  // ------------------------------------------------------- one turn of the loop

  /** What a turn leaves behind: the log, the datagrams sent, and whether the loop goes on. */
  datatype Loop = Loop(log: seq<Entry>, sent: seq<Prepared>, end: End)

  /** The datagrams sent are the first of the log's outputs. */
  ghost predicate Sound<S>(engine: Engine<S>, idle: nat, sniffs: nat -> bool, s: Loop)
  {
    Legal(engine, idle, sniffs, s.log) && s.sent <= OutputsOf(engine, idle, sniffs, s.log)
  }

  /** The outputs not sent yet, oldest first. */
  ghost function Unsent<S>(engine: Engine<S>, idle: nat, sniffs: nat -> bool, s: Loop): (queue: seq<Prepared>)
    requires Sound(engine, idle, sniffs, s)
  {
    OutputsOf(engine, idle, sniffs, s.log)[|s.sent|..]
  }

  ghost predicate Due<S>(t: Table<S>, now: nat)
  {
    exists a :: Expired(t, a, now)
  }

  function AfterResponse(response: Response): (end: End)
  {
    match response
    case Queued => Running
    case ChannelClosed => Stopped
    case TransportFailed => TransportError
    case DomainSource => InvalidResponse
  }

  function AfterSend(send: Send): (end: End)
  {
    match send
    case Sent => Running
    case SendCancelled => Stopped
    case SendFailed => TransportError
  }

  /** The entry of a deadline that fired at `now`, with flows expiring in some order. */
  predicate OfDeadline(entry: Entry, now: nat)
  {
    entry.Stepped? && entry.event.Expiry? && entry.event.now == now
  }

  /** The entry of a datagram let in: scheduled on a sniffed port, forwarded on another. */
  predicate OfInbound(entry: Entry, d: Datagram, now: nat, sniffs: nat -> bool)
  {
    if sniffs(d.destination.port) then
      entry.Stepped? && entry.event.Arrival? && entry.event.datagram == d && entry.event.now == now
    else entry == Forwarded(d)
  }

  ghost predicate Logged(s: Loop, t: Loop)
  {
    |t.log| == |s.log| + 1 && t.log[..|s.log|] == s.log && t.sent == s.sent && t.end == Running
  }

  /** The biased choice: cancellation, then a due deadline, response, queued send and inbound datagram. */
  ghost predicate Chosen(due: bool, queue: seq<Prepared>, sniffs: nat -> bool, s: Loop, poll: Poll, t: Loop)
  {
    if poll.cancelled then t == Loop(s.log, s.sent, Stopped)
    else if poll.timer && due then Logged(s, t) && OfDeadline(t.log[|s.log|], poll.now)
    else if poll.response.Some? then t == Loop(s.log, s.sent, AfterResponse(poll.response.value))
    else if queue != [] then
      t == Loop(s.log, if poll.send == Sent then s.sent + [queue[0]] else s.sent, AfterSend(poll.send))
    else if poll.inbound.Received? then
      Logged(s, t) && OfInbound(t.log[|s.log|], poll.inbound.datagram, poll.now, sniffs)
    else t == Loop(s.log, s.sent, if poll.inbound == Closed then Stopped else Running)
  }

  ghost predicate Turned<S>(engine: Engine<S>, idle: nat, sniffs: nat -> bool, s: Loop, poll: Poll, t: Loop)
    requires Sound(engine, idle, sniffs, s)
  {
    Chosen(Due(TableOf(engine, idle, sniffs, s.log), poll.now), Unsent(engine, idle, sniffs, s), sniffs, s, poll, t)
  }

  ghost function AdmitsWhen(due: bool, queue: seq<Prepared>, poll: Poll): (datagrams: seq<Datagram>)
  {
    if !poll.cancelled && !(poll.timer && due) && poll.response.None? && queue == [] && poll.inbound.Received?
    then [poll.inbound.datagram] else []
  }

  /** The datagram a poll lets in, if its turn comes to the inbound branch. */
  ghost function Admits<S>(engine: Engine<S>, idle: nat, sniffs: nat -> bool, s: Loop, poll: Poll): (datagrams: seq<Datagram>)
    requires Sound(engine, idle, sniffs, s)
  {
    AdmitsWhen(Due(TableOf(engine, idle, sniffs, s.log), poll.now), Unsent(engine, idle, sniffs, s), poll)
  }

  lemma LoggedAccepts(s: Loop, t: Loop)
    requires Logged(s, t)
    ensures AcceptedOf(t.log) == AcceptedOf(s.log) + Taken(t.log[|s.log|])
  {
    assert t.log[..|t.log| - 1] == s.log;
  }

  lemma ChosenAdmits(due: bool, queue: seq<Prepared>, sniffs: nat -> bool, s: Loop, poll: Poll, t: Loop)
    requires Chosen(due, queue, sniffs, s, poll, t)
    ensures AcceptedOf(t.log) == AcceptedOf(s.log) + AdmitsWhen(due, queue, poll)
  {
    Associate(AcceptedOf(s.log), [], []);
    if Logged(s, t) {
      LoggedAccepts(s, t);
    } else {
      assert t.log == s.log;
    }
  }

  lemma TurnAdmits<S>(engine: Engine<S>, idle: nat, sniffs: nat -> bool, s: Loop, poll: Poll, t: Loop)
    requires Sound(engine, idle, sniffs, s) && Turned(engine, idle, sniffs, s, poll, t)
    ensures AcceptedOf(t.log) == AcceptedOf(s.log) + Admits(engine, idle, sniffs, s, poll)
  {
    ChosenAdmits(
      Due(TableOf(engine, idle, sniffs, s.log), poll.now), Unsent(engine, idle, sniffs, s), sniffs, s, poll, t);
  }

  // --------------------------------------------------------------- whole runs

  const Begun: Loop := Loop([], [], Running)

  /** Which loop states a poll may lead to. */
  ghost function LoopTurn<S(!new)>(engine: Engine<S>, idle: nat, sniffs: nat -> bool): (turn: Turning<Loop, Poll>)
  {
    (s: Loop, poll: Poll, t: Loop) =>
      s.end == Running && Sound(engine, idle, sniffs, s) && Sound(engine, idle, sniffs, t) && Turned(engine, idle, sniffs, s, poll, t)
  }

  /** Which datagrams a poll lets in. */
  ghost function LetIn<S(!new)>(engine: Engine<S>, idle: nat, sniffs: nat -> bool): (admits: (Loop, Poll) -> seq<Datagram>)
  {
    (s: Loop, poll: Poll) => if Sound(engine, idle, sniffs, s) then Admits(engine, idle, sniffs, s, poll) else []
  }

  /** What a run has accepted is exactly what its polls let in. */
  lemma RunAccepts<S(!new)>(engine: Engine<S>, idle: nat, sniffs: nat -> bool, polls: seq<Poll>, trace: seq<Loop>)
    requires RunsOver(Begun, LoopTurn(engine, idle, sniffs), polls, trace)
    ensures AcceptedOf(trace[|trace| - 1].log) == Emitted(LetIn(engine, idle, sniffs), polls, trace)
  {
    var turn, admits, total := LoopTurn(engine, idle, sniffs), LetIn(engine, idle, sniffs), (s: Loop) => AcceptedOf(s.log);
    forall s, poll, t | turn(s, poll, t) ensures Adds(total, admits, s, poll, t) {
      TurnAdmits(engine, idle, sniffs, s, poll, t);
    }
    RunEmitsAll(Begun, turn, total, admits, polls, trace);
  }

  /** The locals of the association loop; the ghost fields record its history. */
  class Association<S(!new)> {
    const engine: Engine<S>
    const idleTimeout: nat
    const sniffs: nat -> bool
    const scheduler: SniffState<S>
    var ready: seq<Prepared>
    var pendingSend: Option<Prepared>
    var sent: seq<Prepared>
    var end: End
    ghost var log: seq<Entry>

    ghost function Outputs(): (outputs: seq<Prepared>)
      requires Legal(engine, idleTimeout, sniffs, log)
      reads this
    {
      OutputsOf(engine, idleTimeout, sniffs, log)
    }

    /** Whatever has happened, the sends are an initial part of the log's outputs. */
    ghost predicate Faithful()
      reads this
    {
      end != ReplayQueueExceeded && Legal(engine, idleTimeout, sniffs, log) && sent <= Outputs()
    }

    ghost predicate Valid()
      reads this, scheduler
    {
      && end == Running
      && scheduler.Valid() && scheduler.engine == engine && scheduler.idleTimeout == idleTimeout
      && Legal(engine, idleTimeout, sniffs, log) && scheduler.flows == TableOf(engine, idleTimeout, sniffs, log)
      && |ready| + TableLoad(scheduler.flows, Count) <= READY_MAX
      && Outputs() == sent + Queue(pendingSend, ready)
    }

    constructor (engine: Engine<S>, idleTimeout: nat, sniffs: nat -> bool)
      ensures Valid() && fresh(scheduler)
      ensures this.engine == engine && this.idleTimeout == idleTimeout && this.sniffs == sniffs
      ensures log == [] && sent == []
    {
      this.engine, this.idleTimeout, this.sniffs := engine, idleTimeout, sniffs;
      scheduler := new SniffState(engine, idleTimeout);
      ready, pendingSend, sent, end := [], None, [], Running;
      log := [];
      EmptyLoad<S>(map[], Count);
    }

    ghost function State(): (s: Loop)
      reads this
    {
      Loop(log, sent, end)
    }

    /** What expired joins the replay queue, which has room for it. */
    method JoinReplay(replay: seq<Prepared>)
      requires end == Running && |ready| + |replay| <= READY_MAX
      modifies this`ready, this`end
      ensures end == Running && ready == old(ready) + replay
    {
      var ok;
      ok, ready := AppendReady(ready, replay);
      end := if ok then Running else ReplayQueueExceeded;
    }

    /** The sniff deadline fired: every flow past its deadline is released. */
    method OnDeadline(now: nat)
      requires Valid()
      modifies this`ready, this`end, this`log, scheduler
      ensures Valid() && Logged(old(State()), State()) && OfDeadline(log[|old(log)|], now)
    {
      ghost var t := scheduler.flows;
      var replay, order := scheduler.Expire(now);
      LogReplay(engine, idleTimeout, sniffs, log, t, now, order, Moved(scheduler.flows, replay), pendingSend, ready, sent);
      JoinReplay(replay);
      log := log + [Stepped(Expiry(now, order))];
    }

    /** The oldest queued datagram: the pending send before the replay queue. */
    method TakeOldest() returns (prepared: Prepared)
      requires pendingSend.Some? || |ready| > 0
      modifies this`ready, this`pendingSend
      ensures old(Queue(pendingSend, ready)) == [prepared] + Queue(pendingSend, ready) && |ready| <= old(|ready|)
    {
      if pendingSend.Some? {
        prepared, pendingSend := pendingSend.value, None;
      } else {
        prepared, ready := ready[0], ready[1..];
      }
    }

    /** The oldest queued datagram is taken and sent. */
    method OnReadySend(send: Send)
      requires Valid() && (pendingSend.Some? || |ready| > 0)
      modifies this`ready, this`pendingSend, this`sent, this`end
      ensures Faithful() && end == AfterSend(send) && (end == Running ==> Valid())
      ensures sent == if send == Sent then old(sent) + [old(Queue(pendingSend, ready))[0]] else old(sent)
    {
      var prepared := TakeOldest();
      SentNext(Outputs(), sent, prepared, Queue(pendingSend, ready));
      if send == Sent {
        sent := sent + [prepared];
      } else {
        end := AfterSend(send);
      }
    }

    /** A datagram for a port that is not sniffed waits to be sent as it is. */
    method OnPlain(d: Datagram)
      requires Valid() && pendingSend.None? && ready == [] && !sniffs(d.destination.port)
      modifies this`pendingSend, this`log
      ensures Valid() && log == old(log) + [Forwarded(d)] && pendingSend == Some(Plain(d))
    {
      assert Queue(pendingSend, ready) == [];
      LogForward(engine, idleTimeout, sniffs, log, d);
      pendingSend := Some(Plain(d));
      log := log + [Forwarded(d)];
      assert Queue(pendingSend, ready) == [Plain(d)];
      Associate(sent, [], [Plain(d)]);
    }

    /** What the scheduler releases is queued: one datagram to be sent next, or a replay. */
    method Enqueue(result: IngressResult)
      requires pendingSend.None? && ready == [] && |ReleasedBy(result)| <= READY_MAX && end == Running
      modifies this`ready, this`pendingSend, this`end
      ensures end == Running && Queue(pendingSend, ready) == ReleasedBy(result)
      ensures |ready| <= |ReleasedBy(result)|
    {
      match result
      case Buffered =>
      case Forward(prepared) =>
        assert pendingSend.None?;
        pendingSend := Some(prepared);
      case Replay(replay) =>
        var ok;
        ok, ready := AppendReady(ready, replay);
        end := if ok then Running else ReplayQueueExceeded;
    }

    /** A datagram for a sniffed port goes through the scheduler. */
    method OnSniffed(d: Datagram, now: nat)
      requires Valid() && pendingSend.None? && ready == [] && sniffs(d.destination.port)
      modifies this`ready, this`pendingSend, this`end, this`log, scheduler
      ensures Valid() && Logged(old(State()), State()) && OfInbound(log[|old(log)|], d, now, sniffs)
    {
      ghost var t := scheduler.flows;
      assert Queue(pendingSend, ready) == [];
      var result, victim := scheduler.IngestDatagram(d, now);
      ghost var e, released := Arrival(d, now, victim), ReleasedBy(result);
      Associate(sent, [], []);
      LogArrival(engine, idleTimeout, sniffs, log, t, e, Moved(scheduler.flows, released), sent);
      Enqueue(result);
      log := log + [Stepped(e)];
    }

    /** An inbound datagram; the biased select lets it in only when nothing waits to be sent. */
    method OnInbound(d: Datagram, now: nat)
      requires Valid() && pendingSend.None? && ready == []
      modifies this`ready, this`pendingSend, this`end, this`log, scheduler
      ensures Valid() && Logged(old(State()), State()) && OfInbound(log[|old(log)|], d, now, sniffs)
    {
      if sniffs(d.destination.port) {
        OnSniffed(d, now);
      } else {
        OnPlain(d);
      }
    }

    /** The first ready branch in the order of the biased select. */
    method Select(poll: Poll, deadline: Option<nat>)
      requires Valid()
      modifies this, scheduler
      ensures Faithful() && (end == Running ==> Valid())
      ensures Chosen(deadline.Some? && deadline.value <= poll.now, old(Queue(pendingSend, ready)), sniffs,
                     old(State()), poll, State())
    {
      if poll.cancelled {
        end := Stopped;
      } else if deadline.Some? && poll.timer && deadline.value <= poll.now {
        OnDeadline(poll.now);
      } else if poll.response.Some? {
        end := AfterResponse(poll.response.value);
      } else if pendingSend.Some? || |ready| > 0 {
        OnReadySend(poll.send);
      } else if poll.inbound == Closed {
        end := Stopped;
      } else if poll.inbound.Received? {
        OnInbound(poll.inbound.datagram, poll.now);
      }
    }

    /** One turn of the loop. */
    method Turn(poll: Poll)
      requires Valid()
      modifies this, scheduler
      ensures Faithful() && (end == Running ==> Valid())
      ensures Turned(engine, idleTimeout, sniffs, old(State()), poll, State())
    {
      var deadline := scheduler.NextDeadline();
      UnsentIsQueue(engine, idleTimeout, sniffs, State(), Queue(pendingSend, ready));
      DueIsDeadline(scheduler.flows, poll.now, deadline);
      Select(poll, deadline);
    }

    /** Turn after turn over a schedule of polls, until it is used up or the loop ends. */
    method Run(polls: seq<Poll>) returns (ghost trace: seq<Loop>)
      requires Valid() && State() == Begun
      modifies this, scheduler
      ensures RunsOver(Begun, LoopTurn(engine, idleTimeout, sniffs), polls, trace) && trace[|trace| - 1] == State()
      ensures |trace| == |polls| + 1 || end != Running
      ensures Faithful() && (end == Running ==> Valid())
    {
      ghost var turn := LoopTurn(engine, idleTimeout, sniffs);
      trace := [State()];
      var i := 0;
      while i < |polls| && end == Running
        invariant i <= |polls| && |trace| == i + 1 && trace[i] == State()
        invariant RunsOver(Begun, turn, polls, trace)
        invariant Faithful() && (end == Running ==> Valid())
      {
        Turn(polls[i]);
        RunGoesOn(Begun, turn, polls, trace, State());
        trace := trace + [State()];
        i := i + 1;
      }
    }
  }

  lemma SentNext(outputs: seq<Prepared>, sent: seq<Prepared>, next: Prepared, rest: seq<Prepared>)
    requires outputs == sent + ([next] + rest)
    ensures outputs == (sent + [next]) + rest && sent <= outputs && sent + [next] <= outputs
  {
    Associate(sent, [next], rest);
  }

  lemma UnsentIsQueue<S>(engine: Engine<S>, idle: nat, sniffs: nat -> bool, s: Loop, queue: seq<Prepared>)
    requires Legal(engine, idle, sniffs, s.log) && OutputsOf(engine, idle, sniffs, s.log) == s.sent + queue
    ensures Sound(engine, idle, sniffs, s) && Unsent(engine, idle, sniffs, s) == queue
  {
  }

  lemma DueIsDeadline<S>(t: Table<S>, now: nat, deadline: Option<nat>)
    requires deadline.None? <==> forall a :: a in t ==> !t[a].Pending?
    requires deadline.Some? ==> exists a :: a in t && t[a].Pending? && t[a].deadline == deadline.value
    requires deadline.Some? ==> forall a :: a in t && t[a].Pending? ==> deadline.value <= t[a].deadline
    ensures Due(t, now) <==> deadline.Some? && deadline.value <= now
  {
    if deadline.Some? && deadline.value <= now {
      var a :| a in t && t[a].Pending? && t[a].deadline == deadline.value;
      assert Expired(t, a, now);
    }
  }

  /**
    Any schedule of polls: the returned sends are those of a run over it, the
    replay queue never overflows, and what was sent is faithful to what was let in.
   */
  method RunAssociation<S(!new)>(engine: Engine<S>, idleTimeout: nat, sniffs: nat -> bool, polls: seq<Poll>)
    returns (sent: seq<Prepared>, queue: seq<Prepared>, end: End, ghost trace: seq<Loop>)
    ensures RunsOver(Begun, LoopTurn(engine, idleTimeout, sniffs), polls, trace)
    ensures var last := trace[|trace| - 1];
      && last.sent == sent && last.end == end
      && (|trace| == |polls| + 1 || end != Running) && end != ReplayQueueExceeded
      && FaithfulTo(engine, idleTimeout, sniffs, last, queue)
      && AcceptedOf(last.log) == Emitted(LetIn(engine, idleTimeout, sniffs), polls, trace)
  {
    var association := new Association(engine, idleTimeout, sniffs);
    trace := association.Run(polls);
    sent, queue, end := association.sent, Queue(association.pendingSend, association.ready), association.end;
    RunAccepts(engine, idleTimeout, sniffs, polls, trace);
    AllMatch(engine, idleTimeout, sniffs, association.log);
  }

  /** The sends are the first outputs of a faithful log; while the loop runs, the queue is the rest. */
  ghost predicate FaithfulTo<S>(engine: Engine<S>, idle: nat, sniffs: nat -> bool, s: Loop, queue: seq<Prepared>)
  {
    && Sound(engine, idle, sniffs, s)
    && (s.end == Running ==> OutputsOf(engine, idle, sniffs, s.log) == s.sent + queue)
    && Matches(engine, idle, sniffs, EventsOf(s.log), OutputsOf(engine, idle, sniffs, s.log), AcceptedOf(s.log))
  }

  lemma AllMatch<S>(engine: Engine<S>, idle: nat, sniffs: nat -> bool, log: seq<Entry>)
    requires Legal(engine, idle, sniffs, log)
    ensures Matches(engine, idle, sniffs, EventsOf(log), OutputsOf(engine, idle, sniffs, log), AcceptedOf(log))
  {
    forall a
      ensures MatchesAt(engine, idle, sniffs, EventsOf(log), OutputsOf(engine, idle, sniffs, log), AcceptedOf(log), a)
    {
      LogMatches(engine, idle, sniffs, log, a);
    }
  }
}
