/**
  From the bytes of a ClientHello to the routing of its datagrams: while the
  budgets hold and the deadline has not passed, everything a destination sends up
  to the datagram that completes the hello leaves together, in order and with the
  domain, whatever the other destinations do meanwhile.
 */
module QuicRouting {
  import opened Base
  import opened QuicWire
  import opened CryptoStream
  import opened QuicFrames
  import Sniff = QuicSniffer
  import opened QuicFlows
  import opened QuicConservation
  import opened QuicIdentity
  import Delivery = QuicDelivery
  import Hello = ClientHello

  // ------------------------------------------------------------ one decision

  /** A payload that the flow's own sniffer takes in: it authenticates, or names no connection and no unknown version. */
  predicate Steered(seen: Option<ConnectionKey>, unsupported: bool, authenticated: bool)
  {
    if seen.None? then !unsupported else authenticated
  }

  ghost predicate AllDomain(datagrams: seq<Prepared>, domain: string)
  {
    forall i :: 0 <= i < |datagrams| ==> datagrams[i].domain == Some(domain)
  }

  /** The decision buffers: the flow holds `all`, and nothing leaves. */
  ghost predicate Buffers<S>(r: Decision<S>, s: S, all: seq<Datagram>, deadline: nat)
  {
    && r.flow.Some? && r.flow.value.Pending? && r.flow.value.sniffer == s
    && Raw(r.flow.value.datagrams) == all && r.flow.value.deadline == deadline && r.released == []
  }

  /** The decision releases `all` with the domain. */
  ghost predicate Names(released: seq<Prepared>, all: seq<Datagram>, domain: string)
  {
    Raw(released) == all && AllDomain(released, domain)
  }

  lemma StartBuffers<S>(o: Observed<S>, seen: Option<ConnectionKey>, d: Datagram, now: nat, fits: bool)
    ensures o.outcome == NeedMoreData && fits ==>
      Buffers(Start(o, seen, d, now, fits), o.sniffer, [d], now + SNIFF_TIMEOUT)
    ensures o.outcome.Matched? ==> Names(Start(o, seen, d, now, fits).released, [d], o.outcome.domain)
  {
    var r := Start(o, seen, d, now, fits);
    if |r.released| == 1 { Single(r.released[0]); }
    if |Held(r.flow)| == 1 { Single(Held(r.flow)[0]); }
  }

  lemma AdvanceBuffers<S>(p: Flow<S>, o: Observed<S>, d: Datagram, now: nat, fits: bool, done: seq<Datagram>)
    requires p.Pending? && Raw(p.datagrams) == done
    ensures o.outcome == NeedMoreData && fits ==>
      Buffers(Advance(p, o, d, now, fits), o.sniffer, done + [d], p.deadline)
    ensures o.outcome.Matched? ==> Names(Advance(p, o, d, now, fits).released, done + [d], o.outcome.domain)
  {
    var all := p.datagrams + [Plain(d)];
    Appended(p.datagrams, [Plain(d)], d.destination);
    Single(Plain(d));
    if o.outcome.Matched? {
      SameUnder(all, WithDomain(all, o.outcome.domain));
    }
  }

  /** A pending flow takes in the next datagram of its connection. */
  lemma PendingTakes<S>(
    engine: Engine<S>, p: Flow<S>, seen: Option<ConnectionKey>, unsupported: bool, d: Datagram, now: nat,
    room: bool, fits: bool, fitsAfterRelease: bool, done: seq<Datagram>)
    requires p.Pending? && PendingOk(d.destination, p) && Raw(p.datagrams) == done
    requires Steered(seen, unsupported, engine.ingest(p.sniffer, d.payload).authenticated)
    ensures var o := engine.ingest(p.sniffer, d.payload);
      var r := DecideSeen(engine, Some(p), seen, unsupported, d, now, room, fits, fitsAfterRelease);
      && (o.outcome == NeedMoreData && fits ==> Buffers(r, o.sniffer, done + [d], p.deadline))
      && (o.outcome.Matched? ==> Names(r.released, done + [d], o.outcome.domain))
  {
    var o := engine.ingest(p.sniffer, d.payload);
    if Foreign(p.key, seen) {
      AdoptOk(d.destination, p, seen);
      AdoptIdentity(d.destination, p, seen);
      AdvanceBuffers(Adopt(p, seen), o, d, now, fits, done);
    } else {
      AdvanceBuffers(p, o, d, now, fits, done);
    }
  }

  /** No flow stands in the way of a new one, or a completed one that gives way. */
  ghost predicate Opens<S>(current: Option<Flow<S>>, seen: Option<ConnectionKey>, authenticated: bool, room: bool)
  {
    match current
    case None => room
    case Some(flow) => !flow.Pending? && Foreign(flow.key, seen) && authenticated
  }

  lemma FirstTakes<S>(
    engine: Engine<S>, current: Option<Flow<S>>, seen: Option<ConnectionKey>, unsupported: bool, d: Datagram, now: nat,
    room: bool, fits: bool, fitsAfterRelease: bool)
    requires var o := engine.ingest(engine.blank, d.payload);
      Opens(current, seen, o.authenticated, room) && Steered(seen, unsupported, o.authenticated)
    ensures var o := engine.ingest(engine.blank, d.payload);
      var r := DecideSeen(engine, current, seen, unsupported, d, now, room, fits, fitsAfterRelease);
      && (o.outcome == NeedMoreData && fits ==> Buffers(r, o.sniffer, [d], now + SNIFF_TIMEOUT))
      && (o.outcome.Matched? ==> Names(r.released, [d], o.outcome.domain))
  {
    StartBuffers(engine.ingest(engine.blank, d.payload), seen, d, now, fits);
  }

  // --------------------------------------------------------------- one event

  /** The destination's flow is pending, with this sniffer, holding exactly these datagrams. */
  ghost predicate Collecting<S>(t: Table<S>, a: SocketAddr, s: S, done: seq<Datagram>, deadline: nat)
  {
    && a in t && t[a].Pending? && t[a].sniffer == s
    && Raw(t[a].datagrams) == done && t[a].deadline == deadline
  }

  ghost predicate At(e: Event, a: SocketAddr)
  {
    e.Arrival? && e.datagram.destination == a
  }

  function SteeredBy<S>(engine: Engine<S>, s: S, payload: Bytes): bool
  {
    Steered(ObservedKey(payload), HasUnsupportedVersion(payload), engine.ingest(s, payload).authenticated)
  }

  lemma DecisionStored<S>(engine: Engine<S>, idle: nat, t: Table<S>, e: Event, a: SocketAddr, s: S, all: seq<Datagram>, deadline: nat)
    requires At(e, a) && Buffers(DecisionFor(engine, idle, t, e.datagram, e.now, e.victim), s, all, deadline)
    ensures Collecting(Step(engine, idle, t, e).table, a, s, all, deadline) && Step(engine, idle, t, e).released == []
  {
  }

  /** A payload that leaves the matter open fits the shared budgets; one that decides need not. */
  ghost predicate FitsIfKept<S>(engine: Engine<S>, t: Table<S>, s: S, payload: Bytes)
  {
    engine.ingest(s, payload).outcome == NeedMoreData ==> CanBuffer(t, |payload|)
  }

  /** The next datagram of a pending destination joins the others, or completes the hello and all of them leave. */
  lemma NextArrival<S>(engine: Engine<S>, idle: nat, t: Table<S>, e: Event, a: SocketAddr, s: S, done: seq<Datagram>, deadline: nat)
    requires TableOk(t) && Allowed(t, e, idle) && At(e, a) && Collecting(t, a, s, done, deadline)
    requires SteeredBy(engine, s, e.datagram.payload) && FitsIfKept(engine, t, s, e.datagram.payload)
    ensures var o, r := engine.ingest(s, e.datagram.payload), Step(engine, idle, t, e);
      && (o.outcome == NeedMoreData ==>
            Collecting(r.table, a, o.sniffer, done + [e.datagram], deadline) && r.released == [])
      && (o.outcome.Matched? ==> Names(r.released, done + [e.datagram], o.outcome.domain))
  {
    var d, o := e.datagram, engine.ingest(s, e.datagram.payload);
    PendingTakes(engine, t[a], ObservedKey(d.payload), HasUnsupportedVersion(d.payload), d, e.now,
                 RoomFor(t, e, idle), CanBuffer(t, |d.payload|), CanBuffer(t - {a}, |d.payload|), done);
    if o.outcome == NeedMoreData {
      DecisionStored(engine, idle, t, e, a, o.sniffer, done + [d], deadline);
    }
  }

  ghost predicate OpensAt<S>(engine: Engine<S>, idle: nat, t: Table<S>, e: Event)
  {
    && e.Arrival?
    && Opens(Current(t, e.datagram.destination, e.now, idle), ObservedKey(e.datagram.payload),
             engine.ingest(engine.blank, e.datagram.payload).authenticated, RoomFor(t, e, idle))
  }

  /** The first datagram of a connection attempt is kept, or completes the hello at once. */
  lemma FirstArrival<S>(engine: Engine<S>, idle: nat, t: Table<S>, e: Event, a: SocketAddr)
    requires TableOk(t) && Allowed(t, e, idle) && At(e, a) && OpensAt(engine, idle, t, e)
    requires SteeredBy(engine, engine.blank, e.datagram.payload) && FitsIfKept(engine, t, engine.blank, e.datagram.payload)
    ensures var o, r := engine.ingest(engine.blank, e.datagram.payload), Step(engine, idle, t, e);
      && (o.outcome == NeedMoreData ==>
            Collecting(r.table, a, o.sniffer, [e.datagram], e.now + SNIFF_TIMEOUT) && r.released == [])
      && (o.outcome.Matched? ==> Names(r.released, [e.datagram], o.outcome.domain))
  {
    var d, o := e.datagram, engine.ingest(engine.blank, e.datagram.payload);
    FirstTakes(engine, Current(t, a, e.now, idle), ObservedKey(d.payload), HasUnsupportedVersion(d.payload), d, e.now,
               RoomFor(t, e, idle), CanBuffer(t, |d.payload|), CanBuffer(t - {a}, |d.payload|));
    if o.outcome == NeedMoreData {
      DecisionStored(engine, idle, t, e, a, o.sniffer, [d], e.now + SNIFF_TIMEOUT);
    }
  }

  /** What other destinations send leaves a pending flow alone. */
  lemma OtherArrival<S>(engine: Engine<S>, idle: nat, t: Table<S>, e: Event, a: SocketAddr)
    requires TableOk(t) && Allowed(t, e, idle) && e.Arrival? && !At(e, a) && a in t && t[a].Pending?
    ensures var r := Step(engine, idle, t, e);
      a in r.table && r.table[a] == t[a] && To(a, r.released) == []
  {
    var b, r := e.datagram.destination, Step(engine, idle, t, e);
    VictimCompleted(t, e.datagram, e.now, e.victim, idle);
    if Overtaking(engine, idle, t, e) {
      OvertakingIsAlone(engine, idle, t, e);
    } else {
      ArrivalPreserves(engine, idle, t, e);
    }
    AllTo(b, r.released, a);
  }

  /** So does expiry before the deadline. */
  lemma EarlyExpiry<S>(engine: Engine<S>, idle: nat, t: Table<S>, e: Event, a: SocketAddr)
    requires TableOk(t) && Allowed(t, e, idle) && e.Expiry? && a in t && t[a].Pending? && e.now < t[a].deadline
    ensures var r := Step(engine, idle, t, e);
      a in r.table && r.table[a] == t[a] && To(a, r.released) == []
  {
    assert forall i :: 0 <= i < |e.order| ==> e.order[i] in e.order;
    assert !Expired(t, a, e.now);
    ExpireTable(t, e.order, e.now);
    ExpiryReleases(t, e.order, e.now, a);
  }

  lemma ReleasedTo<S>(engine: Engine<S>, idle: nat, t: Table<S>, e: Event, a: SocketAddr)
    requires TableOk(t) && Allowed(t, e, idle) && At(e, a)
    ensures To(a, Step(engine, idle, t, e).released) == Step(engine, idle, t, e).released
  {
    if Overtaking(engine, idle, t, e) {
      OvertakingIsAlone(engine, idle, t, e);
    } else {
      ArrivalPreserves(engine, idle, t, e);
    }
    AllTo(a, Step(engine, idle, t, e).released, a);
  }

  // --------------------------------------------------------------- whole runs

  /** What a step does, whatever it is that makes the steps. */
  type Stepper<!S> = (Table<S>, Event) -> Moved<S>

  ghost function StepOf<S>(engine: Engine<S>, idle: nat): (step: Stepper<S>)
  {
    (t, e) => Step(engine, idle, t, e)
  }

  /** Everything the events release, in order. */
  ghost function Outputs<S>(step: Stepper<S>, t: Table<S>, events: seq<Event>): (r: seq<Prepared>)
    decreases |events|
  {
    if |events| == 0 then [] else step(t, events[0]).released + Outputs(step, step(t, events[0]).table, events[1..])
  }

  function ArrivalsAt(events: seq<Event>, a: SocketAddr): (r: seq<Datagram>)
  {
    if |events| == 0 then []
    else if events[0].Arrival? && events[0].datagram.destination == a then [events[0].datagram] + ArrivalsAt(events[1..], a)
    else ArrivalsAt(events[1..], a)
  }

  function PayloadsOf(datagrams: seq<Datagram>): (payloads: seq<Bytes>)
    ensures |payloads| == |datagrams|
  {
    if |datagrams| == 0 then [] else [datagrams[0].payload] + PayloadsOf(datagrams[1..])
  }

  /** The sniffer that the next datagram for `a` is given to. */
  function SnifferAt<S>(engine: Engine<S>, t: Table<S>, a: SocketAddr): (s: S)
  {
    if a in t && t[a].Pending? then t[a].sniffer else engine.blank
  }

  /**
    An event the code allows in a legal table: what arrives for `a` undecided fits
    the shared budgets, and no expiry comes after its deadline.
   */
  ghost predicate Calm<S>(engine: Engine<S>, idle: nat, t: Table<S>, e: Event, a: SocketAddr, deadline: nat)
  {
    && Allowed(t, e, idle)
    && match e
       case Arrival(d, _, _) => d.destination == a ==> FitsIfKept(engine, t, SnifferAt(engine, t, a), d.payload)
       case Expiry(now, _) => now < deadline
  }

  type Condition<!S> = (Table<S>, Event) -> bool

  ghost function CalmFor<S>(engine: Engine<S>, idle: nat, a: SocketAddr, deadline: nat): (calm: Condition<S>)
  {
    (t, e) => Calm(engine, idle, t, e, a, deadline)
  }

  /** Every event meets the condition in the table it finds. */
  ghost predicate Throughout<S>(step: Stepper<S>, calm: Condition<S>, t: Table<S>, events: seq<Event>)
    decreases |events|
  {
    |events| == 0 || (calm(t, events[0]) && Throughout(step, calm, step(t, events[0]).table, events[1..]))
  }

  type Taker<!S> = (S, Bytes) -> bool

  function SteeredIn<S>(engine: Engine<S>): (steered: Taker<S>)
  {
    (s, payload) => SteeredBy(engine, s, payload)
  }

  /** Payload after payload is taken in undecided, up to the last, which decides. */
  ghost predicate Feeds<S>(engine: Engine<S>, steered: Taker<S>, s: S, payloads: seq<Bytes>, verdict: Outcome)
    decreases |payloads|
  {
    && |payloads| > 0 && steered(s, payloads[0])
    && var o := engine.ingest(s, payloads[0]);
       if |payloads| == 1 then o.outcome == verdict
       else o.outcome == NeedMoreData && Feeds(engine, steered, o.sniffer, payloads[1..], verdict)
  }

  /** One calm step of a destination that is collecting. */
  ghost predicate Routes<S>(
    r: Moved<S>, engine: Engine<S>, steered: Taker<S>, e: Event, a: SocketAddr, s: S, done: seq<Datagram>, deadline: nat)
  {
    if !At(e, a) then Collecting(r.table, a, s, done, deadline) && To(a, r.released) == []
    else steered(s, e.datagram.payload) ==>
      var o := engine.ingest(s, e.datagram.payload);
      && (o.outcome == NeedMoreData ==>
            Collecting(r.table, a, o.sniffer, done + [e.datagram], deadline) && To(a, r.released) == [])
      && (o.outcome.Matched? ==> Names(To(a, r.released), done + [e.datagram], o.outcome.domain))
  }

  ghost predicate RoutesAll<S(!new)>(
    step: Stepper<S>, calm: Condition<S>, ok: Table<S> -> bool, engine: Engine<S>, steered: Taker<S>, a: SocketAddr, deadline: nat)
  {
    forall t, e, s, done :: Guarded(step, calm, ok, engine, steered, t, e, a, s, done, deadline)
  }

  ghost predicate Guarded<S>(
    step: Stepper<S>, calm: Condition<S>, ok: Table<S> -> bool, engine: Engine<S>, steered: Taker<S>,
    t: Table<S>, e: Event, a: SocketAddr, s: S, done: seq<Datagram>, deadline: nat)
  {
    ok(t) && calm(t, e) && Collecting(t, a, s, done, deadline) ==>
      ok(step(t, e).table) && Routes(step(t, e), engine, steered, e, a, s, done, deadline)
  }

  lemma StepRoutes<S>(
    engine: Engine<S>, idle: nat, t: Table<S>, e: Event, a: SocketAddr, s: S, done: seq<Datagram>, deadline: nat)
    requires TableOk(t) && Calm(engine, idle, t, e, a, deadline) && Collecting(t, a, s, done, deadline)
    ensures TableOk(Step(engine, idle, t, e).table)
    ensures Routes(Step(engine, idle, t, e), engine, SteeredIn(engine), e, a, s, done, deadline)
  {
    StepKeeps(engine, idle, t, e);
    if At(e, a) {
      ReleasedTo(engine, idle, t, e, a);
      if SteeredBy(engine, s, e.datagram.payload) {
        NextArrival(engine, idle, t, e, a, s, done, deadline);
      }
    } else if e.Arrival? {
      OtherArrival(engine, idle, t, e, a);
    } else {
      EarlyExpiry(engine, idle, t, e, a);
    }
  }

  ghost function Legal<S>(): (ok: Table<S> -> bool)
  {
    t => TableOk(t)
  }

  lemma StepsRoute<S(!new)>(engine: Engine<S>, idle: nat, a: SocketAddr, deadline: nat)
    ensures RoutesAll(StepOf(engine, idle), CalmFor(engine, idle, a, deadline), Legal(), engine, SteeredIn(engine), a, deadline)
  {
    forall t, e, s, done
      ensures Guarded(
        StepOf(engine, idle), CalmFor(engine, idle, a, deadline), Legal(), engine, SteeredIn(engine), t, e, a, s, done, deadline)
    {
      if TableOk(t) && Calm(engine, idle, t, e, a, deadline) && Collecting(t, a, s, done, deadline) {
        StepRoutes(engine, idle, t, e, a, s, done, deadline);
      }
    }
  }

  lemma Then<S>(step: Stepper<S>, t: Table<S>, events: seq<Event>, a: SocketAddr)
    requires |events| > 0
    ensures To(a, Outputs(step, t, events))
         == To(a, step(t, events[0]).released) + To(a, Outputs(step, step(t, events[0]).table, events[1..]))
  {
    Appended(step(t, events[0]).released, Outputs(step, step(t, events[0]).table, events[1..]), a);
  }

  lemma {:induction false} RoutedRest<S(!new)>(
    step: Stepper<S>, calm: Condition<S>, ok: Table<S> -> bool, engine: Engine<S>, steered: Taker<S>,
    t: Table<S>, events: seq<Event>, a: SocketAddr, s: S, done: seq<Datagram>, deadline: nat, domain: string)
    requires RoutesAll(step, calm, ok, engine, steered, a, deadline)
    requires ok(t) && Throughout(step, calm, t, events) && Collecting(t, a, s, done, deadline)
    requires |events| > 0 && At(events[|events| - 1], a)
    requires Feeds(engine, steered, s, PayloadsOf(ArrivalsAt(events, a)), Outcome.Matched(domain))
    ensures Names(To(a, Outputs(step, t, events)), done + ArrivalsAt(events, a), domain)
    decreases |events|
  {
    var e, rest, next := events[0], events[1..], step(t, events[0]).table;
    assert Guarded(step, calm, ok, engine, steered, t, e, a, s, done, deadline);
    Then(step, t, events, a);
    Associate(To(a, Outputs(step, next, rest)), [], []);
    if !At(e, a) {
      RoutedRest(step, calm, ok, engine, steered, next, rest, a, s, done, deadline, domain);
    } else if |rest| == 0 {
      Associate(To(a, step(t, e).released), [], []);
    } else {
      SomeArrival(rest, a);
      var o := engine.ingest(s, e.datagram.payload);
      Associate(done, [e.datagram], ArrivalsAt(rest, a));
      RoutedRest(step, calm, ok, engine, steered, next, rest, a, o.sniffer, done + [e.datagram], deadline, domain);
    }
  }

  lemma {:induction false} SomeArrival(events: seq<Event>, a: SocketAddr)
    requires |events| > 0 && At(events[|events| - 1], a)
    ensures |ArrivalsAt(events, a)| > 0
  {
    if |events| > 1 {
      SomeArrival(events[1..], a);
    }
  }

  /** A first event that begins something, and a condition of that event which all of them meet. */
  ghost predicate AttemptBy<S>(
    step: Stepper<S>, begins: Condition<S>, calm: Event -> Condition<S>, t: Table<S>, events: seq<Event>)
  {
    |events| > 0 && begins(t, events[0]) && Throughout(step, calm(events[0]), t, events)
  }

  ghost predicate Begins<S>(engine: Engine<S>, idle: nat, t: Table<S>, e: Event, a: SocketAddr)
  {
    At(e, a) && TableOk(t) && OpensAt(engine, idle, t, e)
  }

  ghost function BeginsAt<S>(engine: Engine<S>, idle: nat, a: SocketAddr): (begins: Condition<S>)
  {
    (t, e) => Begins(engine, idle, t, e, a)
  }

  /** Calm until the deadline that the first event sets. */
  ghost function CalmSince<S>(engine: Engine<S>, idle: nat, a: SocketAddr): (calm: Event -> Condition<S>)
  {
    (e: Event) => CalmFor(engine, idle, a, e.now + SNIFF_TIMEOUT)
  }

  /** The first arrival opens a flow; what is kept fits the budgets and the deadline holds throughout. */
  ghost predicate Attempt<S>(engine: Engine<S>, idle: nat, t: Table<S>, events: seq<Event>, a: SocketAddr)
  {
    AttemptBy(StepOf(engine, idle), BeginsAt(engine, idle, a), CalmSince(engine, idle, a), t, events)
  }

  /** The step of a first arrival: it is kept, or leaves with the domain it names itself. */
  ghost predicate StartsWith<S>(r: Moved<S>, engine: Engine<S>, e: Event, a: SocketAddr, deadline: nat)
    requires e.Arrival?
  {
    var o := engine.ingest(engine.blank, e.datagram.payload);
    && (o.outcome == NeedMoreData ==> Collecting(r.table, a, o.sniffer, [e.datagram], deadline) && To(a, r.released) == [])
    && (o.outcome.Matched? ==> Names(To(a, r.released), [e.datagram], o.outcome.domain))
  }

  lemma RoutedFrom<S(!new)>(
    step: Stepper<S>, calm: Condition<S>, ok: Table<S> -> bool, engine: Engine<S>, steered: Taker<S>,
    t: Table<S>, events: seq<Event>, a: SocketAddr, deadline: nat, domain: string)
    requires RoutesAll(step, calm, ok, engine, steered, a, deadline)
    requires |events| > 0 && At(events[0], a) && At(events[|events| - 1], a) && Throughout(step, calm, t, events)
    requires ok(step(t, events[0]).table) && StartsWith(step(t, events[0]), engine, events[0], a, deadline)
    requires Feeds(engine, steered, engine.blank, PayloadsOf(ArrivalsAt(events, a)), Outcome.Matched(domain))
    ensures Names(To(a, Outputs(step, t, events)), ArrivalsAt(events, a), domain)
  {
    var e, rest, next := events[0], events[1..], step(t, events[0]).table;
    Then(step, t, events, a);
    Associate(To(a, Outputs(step, next, rest)), [], []);
    if |rest| == 0 {
      Associate(To(a, step(t, e).released), [], []);
    } else {
      SomeArrival(rest, a);
      RoutedRest(step, calm, ok, engine, steered, next, rest, a,
                 engine.ingest(engine.blank, e.datagram.payload).sniffer, [e.datagram], deadline, domain);
    }
  }

  lemma FirstStarts<S>(engine: Engine<S>, idle: nat, t: Table<S>, e: Event, a: SocketAddr)
    requires TableOk(t) && Calm(engine, idle, t, e, a, e.now + SNIFF_TIMEOUT) && At(e, a) && OpensAt(engine, idle, t, e)
    requires SteeredBy(engine, engine.blank, e.datagram.payload)
    ensures TableOk(Step(engine, idle, t, e).table)
    ensures StartsWith(Step(engine, idle, t, e), engine, e, a, e.now + SNIFF_TIMEOUT)
  {
    StepKeeps(engine, idle, t, e);
    FirstArrival(engine, idle, t, e, a);
    ReleasedTo(engine, idle, t, e, a);
  }

  /**
    If the sniffer is fed payload after payload until it finds the domain, all of
    the datagrams leave with it, in the order of their arrival.
   */
  lemma RoutedTogether<S(!new)>(engine: Engine<S>, idle: nat, t: Table<S>, events: seq<Event>, a: SocketAddr, domain: string)
    requires Attempt(engine, idle, t, events, a) && At(events[|events| - 1], a)
    requires Feeds(engine, SteeredIn(engine), engine.blank, PayloadsOf(ArrivalsAt(events, a)), Outcome.Matched(domain))
    ensures Names(To(a, Outputs(StepOf(engine, idle), t, events)), ArrivalsAt(events, a), domain)
  {
    var deadline := events[0].now + SNIFF_TIMEOUT;
    FirstStarts(engine, idle, t, events[0], a);
    StepsRoute(engine, idle, a, deadline);
    RoutedFrom(StepOf(engine, idle), CalmFor(engine, idle, a, deadline), Legal(), engine, SteeredIn(engine), t, events, a, deadline, domain);
  }

  // ------------------------------------------------------- the real sniffer

  lemma {:induction false} DecidingFeeds<K(!new)>(
    p: Sniff.Protection<K>, normalize: Hello.Normalizer, s: Sniff.Sniffer<K>, payloads: seq<Bytes>, verdict: Outcome)
    requires Delivery.Decides(Delivery.DatagramIngester(p, normalize), s, payloads, verdict)
    ensures var engine := RealEngine(p, normalize); Feeds(engine, SteeredIn(engine), s, payloads, verdict)
    decreases |payloads|
  {
    AuthenticSteered(p, normalize, s, payloads[0]);
    if |payloads| > 1 {
      DecidingFeeds(p, normalize, Sniff.Ingest(p, normalize, s, payloads[0]).sniffer, payloads[1..], verdict);
    }
  }

  lemma AuthenticSteered<K(!new)>(p: Sniff.Protection<K>, normalize: Hello.Normalizer, s: Sniff.Sniffer<K>, payload: Bytes)
    requires Sniff.Ingest(p, normalize, s, payload).authenticated
    ensures SteeredBy(RealEngine(p, normalize), s, payload)
  {
    Sniff.WalkersAgree(p, normalize, s, payload);
  }

  lemma {:induction false} PayloadsPrefix(datagrams: seq<Datagram>, m: nat)
    requires m <= |datagrams|
    ensures PayloadsOf(datagrams[..m]) == PayloadsOf(datagrams)[..m]
  {
    if m > 0 {
      PayloadsPrefix(datagrams[1..], m - 1);
      assert datagrams[..m][1..] == datagrams[1..][..m - 1];
    }
  }

  /** The events up to the `m`-th arrival for `a`. */
  lemma {:induction false} UpTo(events: seq<Event>, a: SocketAddr, m: nat) returns (n: nat)
    requires 0 < m <= |ArrivalsAt(events, a)|
    ensures n < |events| && At(events[n], a) && ArrivalsAt(events[..n + 1], a) == ArrivalsAt(events, a)[..m]
  {
    if At(events[0], a) && m == 1 {
      n := 0;
      assert events[..1][1..] == [];
    } else {
      n := UpTo(events[1..], a, if At(events[0], a) then m - 1 else m);
      n := n + 1;
      assert events[..n + 1][1..] == events[1..][..n];
    }
  }

  lemma {:induction false} ThroughoutPrefix<S>(step: Stepper<S>, calm: Condition<S>, t: Table<S>, events: seq<Event>, n: nat)
    requires Throughout(step, calm, t, events) && n <= |events|
    ensures Throughout(step, calm, t, events[..n])
    decreases n
  {
    if n > 0 {
      ThroughoutPrefix(step, calm, step(t, events[0]).table, events[1..], n - 1);
      assert events[..n][1..] == events[1..][..n - 1];
    }
  }

  lemma AttemptPrefix<S>(
    step: Stepper<S>, begins: Condition<S>, calm: Event -> Condition<S>, t: Table<S>, events: seq<Event>, n: nat)
    requires AttemptBy(step, begins, calm, t, events) && 0 < n <= |events|
    ensures AttemptBy(step, begins, calm, t, events[..n])
  {
    ThroughoutPrefix(step, calm(events[0]), t, events, n);
  }

  /** The same for a run in which the `k`-th of the arrivals finds the domain. */
  lemma RoutedUpTo<S(!new)>(
    engine: Engine<S>, idle: nat, t: Table<S>, events: seq<Event>, a: SocketAddr, k: nat, domain: string)
    returns (n: nat)
    requires Attempt(engine, idle, t, events, a) && k < |ArrivalsAt(events, a)|
    requires Feeds(engine, SteeredIn(engine), engine.blank, PayloadsOf(ArrivalsAt(events, a)[..k + 1]), Outcome.Matched(domain))
    ensures n < |events| && At(events[n], a)
    ensures Names(To(a, Outputs(StepOf(engine, idle), t, events[..n + 1])), ArrivalsAt(events[..n + 1], a), domain)
  {
    n := UpTo(events, a, k + 1);
    AttemptPrefix(StepOf(engine, idle), BeginsAt(engine, idle, a), CalmSince(engine, idle, a), t, events, n + 1);
    RoutedTogether(engine, idle, t, events[..n + 1], a, domain);
  }

  /** Each payload opens an Initial, and the frames of all of them spell a hello that names the domain. */
  ghost predicate Opening<K(!new)>(
    p: Sniff.Protection<K>, normalize: Hello.Normalizer, payloads: seq<Bytes>,
    packets: seq<seq<Frame>>, h: Hello.Hello, stream: Bytes, domain: string)
  {
    && (forall i :: 0 <= i < |packets| ==> AllFrames(packets[i]))
    && Delivery.OpenAll(p, payloads) == Some(Delivery.Payloads(packets))
    && Delivery.EachOpens(Delivery.DatagramOpener(p), None, None, payloads)
    && Delivery.Spells(Delivery.AllCarried(packets), h, stream)
    && Hello.Verdict(normalize, h.extensions) == Hello.Matched(domain)
  }

  /**
    The datagrams of a connection attempt open to frames that spell a hello. Then
    one arrival completes it, and up to there all of them leave together, in order
    and with the domain the hello names, whatever other destinations do meanwhile.
   */
  lemma HelloRouted<K(!new)>(
    p: Sniff.Protection<K>, normalize: Hello.Normalizer, idle: nat, t: Table<Sniff.Sniffer<K>>, events: seq<Event>, a: SocketAddr,
    packets: seq<seq<Frame>>, h: Hello.Hello, stream: Bytes, domain: string)
    returns (n: nat)
    requires Attempt(RealEngine(p, normalize), idle, t, events, a)
    requires Opening(p, normalize, PayloadsOf(ArrivalsAt(events, a)), packets, h, stream, domain)
    ensures n < |events| && At(events[n], a)
    ensures Names(To(a, Outputs(StepOf(RealEngine(p, normalize), idle), t, events[..n + 1])),
                  ArrivalsAt(events[..n + 1], a), domain)
  {
    var all := ArrivalsAt(events, a);
    var k := Delivery.HelloDecides(p, normalize, PayloadsOf(all), packets, h, stream);
    PayloadsPrefix(all, k + 1);
    DecidingFeeds(p, normalize, Sniff.Fresh(), PayloadsOf(all[..k + 1]), Outcome.Matched(domain));
    n := RoutedUpTo(RealEngine(p, normalize), idle, t, events, a, k, domain);
  }
}
