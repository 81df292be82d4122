/**
  What the scheduler does to datagrams over whole runs: nothing is lost,
  duplicated, reordered or relabelled, and every authenticated flow emits its
  identity exactly once.
 */
module QuicConservation {
  import opened Base
  import opened QuicWire
  import opened QuicFlows

  // ------------------------------------------------ projections of releases

  function Raw(datagrams: seq<Prepared>): (raw: seq<Datagram>)
  {
    if |datagrams| == 0 then []
    else Raw(datagrams[..|datagrams| - 1]) + [datagrams[|datagrams| - 1].datagram]
  }

  /** The identities carried, in order. */
  function Ids(datagrams: seq<Prepared>): (keys: seq<ConnectionKey>)
  {
    if |datagrams| == 0 then []
    else
      var last := datagrams[|datagrams| - 1];
      Ids(datagrams[..|datagrams| - 1]) + (if last.flowId.Some? then [last.flowId.value] else [])
  }

  /** The datagrams for one destination, in order. */
  function To(a: SocketAddr, datagrams: seq<Prepared>): (r: seq<Prepared>)
  {
    if |datagrams| == 0 then []
    else
      var last := datagrams[|datagrams| - 1];
      To(a, datagrams[..|datagrams| - 1]) + (if last.datagram.destination == a then [last] else [])
  }

  lemma {:induction false} Appended(left: seq<Prepared>, right: seq<Prepared>, a: SocketAddr)
    ensures Raw(left + right) == Raw(left) + Raw(right)
    ensures Ids(left + right) == Ids(left) + Ids(right)
    ensures To(a, left + right) == To(a, left) + To(a, right)
  {
    if |right| == 0 {
      assert left + right == left;
    } else {
      var n := |right| - 1;
      var front, last := right[..n], right[n];
      var both := left + right;
      Appended(left, front, a);
      assert both[..|both| - 1] == left + front && both[|both| - 1] == last;
      Associate(Raw(left), Raw(front), [last.datagram]);
      Associate(Ids(left), Ids(front), if last.flowId.Some? then [last.flowId.value] else []);
      Associate(To(a, left), To(a, front), if last.datagram.destination == a then [last] else []);
    }
  }

  lemma Single(d: Prepared)
    ensures Raw([d]) == [d.datagram]
    ensures Ids([d]) == if d.flowId.Some? then [d.flowId.value] else []
  {
    assert [d][..0] == [];
  }

  lemma {:induction false} AllTo(a: SocketAddr, datagrams: seq<Prepared>, b: SocketAddr)
    requires forall i :: 0 <= i < |datagrams| ==> datagrams[i].datagram.destination == a
    ensures To(b, datagrams) == if a == b then datagrams else []
  {
    if |datagrams| > 0 {
      var n := |datagrams| - 1;
      AllTo(a, datagrams[..n], b);
      assert datagrams == datagrams[..n] + [datagrams[n]];
    }
  }

  lemma {:induction false} SameUnder(left: seq<Prepared>, right: seq<Prepared>)
    requires |left| == |right|
    requires forall i :: 0 <= i < |left| ==> left[i].datagram == right[i].datagram
    ensures Raw(left) == Raw(right)
    ensures (forall i :: 0 <= i < |left| ==> left[i].flowId == right[i].flowId) ==> Ids(left) == Ids(right)
  {
    if |left| > 0 {
      var n := |left| - 1;
      SameUnder(left[..n], right[..n]);
    }
  }

  function KeySeq(key: Option<ConnectionKey>): seq<ConnectionKey>
  {
    if key.Some? then [key.value] else []
  }

  /** Identity on the first datagram only, nothing on the others. */
  ghost predicate MarkedOnce(datagrams: seq<Prepared>, key: Option<ConnectionKey>)
  {
    && |datagrams| > 0 && datagrams[0].flowId == key
    && forall i :: 0 < i < |datagrams| ==> datagrams[i].flowId == None
  }

  lemma {:induction false} MarkedIds(datagrams: seq<Prepared>, key: Option<ConnectionKey>)
    requires MarkedOnce(datagrams, key)
    ensures Ids(datagrams) == KeySeq(key)
  {
    if |datagrams| == 1 {
      Single(datagrams[0]);
      assert datagrams == [datagrams[0]];
    } else {
      MarkedIds(datagrams[..|datagrams| - 1], key);
    }
  }

  // ------------------------------------------------------------ one decision

  predicate OvertakesSeen<S>(engine: Engine<S>, current: Option<Flow<S>>, seen: Option<ConnectionKey>, d: Datagram)
  {
    && current.Some? && current.value.Pending?
    && Foreign(current.value.key, seen)
    && !engine.ingest(current.value.sniffer, d.payload).authenticated
    && !engine.ingest(engine.blank, d.payload).authenticated
  }

  /** An Initial of another connection that neither the flow's keys nor its own can open. */
  predicate Overtakes<S>(engine: Engine<S>, current: Option<Flow<S>>, d: Datagram)
  {
    OvertakesSeen(engine, current, ObservedKey(d.payload), d)
  }

  function ClaimedSeen<S>(engine: Engine<S>, current: Option<Flow<S>>, seen: Option<ConnectionKey>, d: Datagram, room: bool)
    : (r: Option<ConnectionKey>)
  {
    var byNewKeys := engine.ingest(engine.blank, d.payload).authenticated;
    if seen.None? then None
    else if current.None? then if room && byNewKeys then seen else None
    else if current.value.key == seen then None
    else if !current.value.Pending? then if byNewKeys then seen else None
    else if engine.ingest(current.value.sniffer, d.payload).authenticated then
      if current.value.key.None? then seen else None
    else if byNewKeys then seen
    else None
  }

  /** The identity this datagram newly authenticates for its destination, if any. */
  function Claimed<S>(engine: Engine<S>, current: Option<Flow<S>>, d: Datagram, room: bool): (r: Option<ConnectionKey>)
  {
    ClaimedSeen(engine, current, ObservedKey(d.payload), d, room)
  }

  /** Everything a decision must preserve. */
  ghost predicate Preserves<S>(held: seq<Prepared>, d: Datagram, claimed: Option<ConnectionKey>, decision: Decision<S>)
  {
    var after := Held(decision.flow);
    && Raw(held) + [d] == Raw(decision.released) + Raw(after)
    && Ids(held) + KeySeq(claimed) == Ids(decision.released) + Ids(after)
    && forall i :: 0 <= i < |decision.released| ==> decision.released[i].datagram.destination == d.destination
  }

  lemma StartPreserves<S>(o: Observed<S>, seen: Option<ConnectionKey>, d: Datagram, now: nat, fits: bool)
    ensures Preserves([], d, if o.authenticated then seen else None, Start(o, seen, d, now, fits))
  {
    var r := Start(o, seen, d, now, fits);
    if |r.released| == 1 { Single(r.released[0]); }
    if |Held(r.flow)| == 1 { Single(Held(r.flow)[0]); }
  }

  lemma AdvancePreserves<S>(p: Flow<S>, o: Observed<S>, d: Datagram, now: nat, fits: bool)
    requires p.Pending? && PendingOk(d.destination, p)
    ensures Preserves(p.datagrams, d, None, Advance(p, o, d, now, fits))
  {
    var all := p.datagrams + [Plain(d)];
    Appended(p.datagrams, [Plain(d)], d.destination);
    Single(Plain(d));
    if o.outcome.Matched? {
      SameUnder(all, WithDomain(all, o.outcome.domain));
    }
  }

  lemma AdoptIdentity<S>(a: SocketAddr, p: Flow<S>, seen: Option<ConnectionKey>)
    requires p.Pending? && PendingOk(a, p)
    ensures Raw(Adopt(p, seen).datagrams) == Raw(p.datagrams)
    ensures Ids(Adopt(p, seen).datagrams)
         == Ids(p.datagrams) + KeySeq(if p.key.None? then seen else None)
  {
    var adopted := Adopt(p, seen);
    AdoptOk(a, p, seen);
    SameUnder(p.datagrams, adopted.datagrams);
    MarkedIds(p.datagrams, p.key);
    MarkedIds(adopted.datagrams, adopted.key);
  }

  lemma ReplacePreserves<S>(p: Flow<S>, o: Observed<S>, seen: Option<ConnectionKey>, d: Datagram, now: nat, fits: bool)
    requires p.Pending? && PendingOk(d.destination, p)
    ensures var started := Start(o, seen, d, now, fits);
      Preserves(p.datagrams, d, if o.authenticated then seen else None,
                Decision(started.flow, p.datagrams + started.released))
  {
    var started := Start(o, seen, d, now, fits);
    StartPreserves(o, seen, d, now, fits);
    Appended(p.datagrams, started.released, d.destination);
    Associate(Raw(p.datagrams), Raw(started.released), Raw(Held(started.flow)));
    Associate(Ids(p.datagrams), Ids(started.released), Ids(Held(started.flow)));
    Associate(Raw(p.datagrams), Raw([]), [d]);
    Associate(Ids(p.datagrams), Ids([]), KeySeq(if o.authenticated then seen else None));
  }

  lemma PlainPreserves<S>(d: Datagram, domain: Option<string>, flow: Option<Flow<S>>)
    requires Held(flow) == []
    ensures Preserves([], d, None, Decision(flow, [Prepared(d, domain, None)]))
  {
    Single(Prepared(d, domain, None));
  }

  lemma PendingPreserves<S>(
    engine: Engine<S>, p: Flow<S>, seen: Option<ConnectionKey>, d: Datagram, now: nat, room: bool,
    fits: bool, fitsAfterRelease: bool)
    requires p.Pending? && PendingOk(d.destination, p) && !OvertakesSeen(engine, Some(p), seen, d)
    ensures Preserves(p.datagrams, d, ClaimedSeen(engine, Some(p), seen, d, room),
                      DecidePending(engine, p, seen, d, now, fits, fitsAfterRelease))
  {
    var own := engine.ingest(p.sniffer, d.payload);
    if !Foreign(p.key, seen) {
      AdvancePreserves(p, own, d, now, fits);
    } else if own.authenticated {
      AdoptOk(d.destination, p, seen);
      AdoptIdentity(d.destination, p, seen);
      AdvancePreserves(Adopt(p, seen), own, d, now, fits);
    } else {
      ReplacePreserves(p, engine.ingest(engine.blank, d.payload), seen, d, now, fitsAfterRelease);
    }
  }

  lemma UnsupportedPreserves<S>(current: Option<Flow<S>>, d: Datagram, now: nat, kept: bool)
    requires FlowOk(d.destination, current)
    ensures Preserves<S>(Held(current), d, None,
      Decision(if kept then Some(NoDomain(None, now)) else None, Held(current) + [Plain(d)]))
  {
    Appended(Held(current), [Plain(d)], d.destination);
    Single(Plain(d));
  }

  lemma FirstPreserves<S>(engine: Engine<S>, seen: Option<ConnectionKey>, d: Datagram, now: nat, room: bool, fits: bool)
    ensures Preserves([], d, ClaimedSeen(engine, None, seen, d, room),
      if room then Start(engine.ingest(engine.blank, d.payload), seen, d, now, fits) else Decision(None, [Plain(d)]))
  {
    if room {
      StartPreserves(engine.ingest(engine.blank, d.payload), seen, d, now, fits);
    } else {
      PlainPreserves<S>(d, None, None);
    }
  }

  lemma CompletedPreserves<S>(
    engine: Engine<S>, c: Flow<S>, seen: Option<ConnectionKey>, d: Datagram, now: nat, room: bool, fits: bool)
    requires !c.Pending?
    ensures Preserves([], d, ClaimedSeen(engine, Some(c), seen, d, room), DecideCompleted(engine, c, seen, d, now, fits))
  {
    var candidate := engine.ingest(engine.blank, d.payload);
    if Foreign(c.key, seen) && candidate.authenticated {
      StartPreserves(candidate, seen, d, now, fits);
    } else if c.Matched? {
      PlainPreserves<S>(d, Some(c.domain), Some(Flow.Matched(c.domain, c.key, now)));
    } else {
      PlainPreserves<S>(d, None, Some(NoDomain(c.key, now)));
    }
  }

  /** Except for an overtaking Initial, a decision appends to the flow in order and accounts for every identity. */
  lemma DecidePreserves<S>(
    engine: Engine<S>, current: Option<Flow<S>>, seen: Option<ConnectionKey>, unsupported: bool, d: Datagram, now: nat,
    room: bool, fits: bool, fitsAfterRelease: bool)
    requires FlowOk(d.destination, current) && !OvertakesSeen(engine, current, seen, d)
    ensures Preserves(Held(current), d, ClaimedSeen(engine, current, seen, d, room),
                      DecideSeen(engine, current, seen, unsupported, d, now, room, fits, fitsAfterRelease))
  {
    if seen.None? && unsupported {
      UnsupportedPreserves(current, d, now, current.Some? || room);
    } else if current.None? {
      FirstPreserves(engine, seen, d, now, room, fits);
    } else if current.value.Pending? {
      PendingPreserves(engine, current.value, seen, d, now, room, fits, fitsAfterRelease);
    } else {
      CompletedPreserves(engine, current.value, seen, d, now, room, fits);
    }
  }

  // ------------------------------------------------------- one event, table

  function HeldAt<S>(t: Table<S>, a: SocketAddr): (r: seq<Prepared>)
  {
    if a in t then Held(Some(t[a])) else []
  }

  function RoomFor<S>(t: Table<S>, e: Event, idle: nat): bool
    requires e.Arrival?
  {
    !NeedsRoom(t, e.datagram.destination, e.now, idle) || e.victim.Some?
  }

  ghost predicate Overtaking<S>(engine: Engine<S>, idle: nat, t: Table<S>, e: Event)
  {
    e.Arrival? && Overtakes(engine, Current(t, e.datagram.destination, e.now, idle), e.datagram)
  }

  ghost function ClaimedAt<S>(engine: Engine<S>, idle: nat, t: Table<S>, e: Event, a: SocketAddr): (r: seq<ConnectionKey>)
  {
    if e.Arrival? && e.datagram.destination == a then
      KeySeq(Claimed(engine, Current(t, a, e.now, idle), e.datagram, RoomFor(t, e, idle)))
    else []
  }

  ghost function ArrivedAt(e: Event, a: SocketAddr): (r: seq<Datagram>)
  {
    if e.Arrival? && e.datagram.destination == a then [e.datagram] else []
  }

  lemma HeldCurrent<S>(t: Table<S>, a: SocketAddr, now: nat, idle: nat)
    ensures HeldAt(t, a) == Held(Current(t, a, now, idle))
  {
  }

  lemma OthersKept<S>(engine: Engine<S>, idle: nat, t: Table<S>, e: Event, b: SocketAddr)
    requires e.Arrival? && Allowed(t, e, idle) && b != e.datagram.destination
    ensures HeldAt(Step(engine, idle, t, e).table, b) == HeldAt(t, b)
  {
  }

  lemma ArrivalDecision<S>(engine: Engine<S>, idle: nat, t: Table<S>, e: Event)
    requires TableOk(t) && e.Arrival? && !Overtaking(engine, idle, t, e)
    ensures var a := e.datagram.destination;
      Preserves(HeldAt(t, a), e.datagram, Claimed(engine, Current(t, a, e.now, idle), e.datagram, RoomFor(t, e, idle)),
                DecisionFor(engine, idle, t, e.datagram, e.now, e.victim))
  {
    var a := e.datagram.destination;
    HeldCurrent(t, a, e.now, idle);
    DecidePreserves(engine, Current(t, a, e.now, idle), ObservedKey(e.datagram.payload),
                    HasUnsupportedVersion(e.datagram.payload), e.datagram, e.now, RoomFor(t, e, idle),
                    CanBuffer(t, |e.datagram.payload|), CanBuffer(t - {a}, |e.datagram.payload|));
  }

  lemma HeldAfter<S>(t: Table<S>, a: SocketAddr, victim: Option<SocketAddr>, flow: Option<Flow<S>>)
    ensures HeldAt(TableAfter(t, a, victim, flow), a) == Held(flow)
  {
  }

  /** An arrival that is not overtaking appends to its destination's stream, in order. */
  lemma ArrivalPreserves<S>(engine: Engine<S>, idle: nat, t: Table<S>, e: Event)
    requires TableOk(t) && e.Arrival? && !Overtaking(engine, idle, t, e) && Allowed(t, e, idle)
    ensures var r := Step(engine, idle, t, e);
      var a := e.datagram.destination;
      && Raw(HeldAt(t, a)) + [e.datagram] == Raw(r.released) + Raw(HeldAt(r.table, a))
      && Ids(HeldAt(t, a)) + ClaimedAt(engine, idle, t, e, a) == Ids(r.released) + Ids(HeldAt(r.table, a))
      && forall i :: 0 <= i < |r.released| ==> r.released[i].datagram.destination == a
  {
    ArrivalDecision(engine, idle, t, e);
    HeldAfter(t, e.datagram.destination, e.victim, DecisionFor(engine, idle, t, e.datagram, e.now, e.victim).flow);
  }

  /** An overtaking Initial is released alone and unmarked; every flow keeps what it holds. */
  lemma OvertakingIsAlone<S>(engine: Engine<S>, idle: nat, t: Table<S>, e: Event)
    requires TableOk(t) && Allowed(t, e, idle) && Overtaking(engine, idle, t, e)
    ensures Step(engine, idle, t, e).released == [Plain(e.datagram)]
    ensures ClaimedAt(engine, idle, t, e, e.datagram.destination) == []
    ensures forall b :: HeldAt(Step(engine, idle, t, e).table, b) == HeldAt(t, b)
  {
    forall b ensures HeldAt(Step(engine, idle, t, e).table, b) == HeldAt(t, b) {
      if b != e.datagram.destination { OthersKept(engine, idle, t, e, b); }
    }
  }

  ghost predicate AllPending<S>(t: Table<S>, order: seq<SocketAddr>)
  {
    forall i :: 0 <= i < |order| ==> order[i] in t && t[order[i]].Pending? && PendingOk(order[i], t[order[i]])
  }

  lemma ExpireLast<S>(t: Table<S>, front: seq<SocketAddr>, last: SocketAddr, now: nat)
    requires AllPending(t, front + [last]) && last !in front
    ensures ExpireAll(t, front + [last], now).released
         == ExpireAll(t, front, now).released + t[last].datagrams
  {
    var order := front + [last];
    assert order[..|front|] == front && order[|front|] == last;
    assert forall i :: 0 <= i < |front| ==> front[i] == order[i];
    ExpireTable(t, front, now);
  }

  /** What the listed flows hold, one flow after the other. */
  ghost function HeldInTurn<S>(t: Table<S>, order: seq<SocketAddr>): (held: seq<Prepared>)
  {
    if |order| == 0 then []
    else HeldInTurn(t, order[..|order| - 1]) + HeldAt(t, order[|order| - 1])
  }

  /** Expiry hands out one flow after the other, so each flow's datagrams leave contiguously. */
  lemma {:induction false} ExpiryInTurn<S>(t: Table<S>, order: seq<SocketAddr>, now: nat)
    requires Distinct(order) && AllPending(t, order)
    ensures ExpireAll(t, order, now).released == HeldInTurn(t, order)
  {
    if |order| > 0 {
      var n := |order| - 1;
      var front, last := order[..n], order[n];
      assert order == front + [last];
      assert last !in front;
      ExpiryInTurn(t, front, now);
      ExpireLast(t, front, last, now);
    }
  }

  lemma FlowTo<S>(t: Table<S>, b: SocketAddr, a: SocketAddr)
    requires b in t && t[b].Pending? && PendingOk(b, t[b])
    ensures To(a, HeldAt(t, b)) == if a == b then HeldAt(t, a) else []
  {
    AllTo(b, t[b].datagrams, a);
  }

  lemma {:induction false} HeldInTurnTo<S>(t: Table<S>, order: seq<SocketAddr>, a: SocketAddr)
    requires Distinct(order) && AllPending(t, order)
    ensures To(a, HeldInTurn(t, order)) == if a in order then HeldAt(t, a) else []
  {
    if |order| > 0 {
      var n := |order| - 1;
      var front, last := order[..n], order[n];
      HeldInTurnTo(t, front, a);
      Appended(HeldInTurn(t, front), HeldAt(t, last), a);
      FlowTo(t, last, a);
      LastOf(order, a);
      Associate(HeldAt(t, a), [], []);
    }
  }

  lemma LastOf(order: seq<SocketAddr>, a: SocketAddr)
    requires Distinct(order) && |order| > 0
    ensures a in order <==> a in order[..|order| - 1] || a == order[|order| - 1]
    ensures order[|order| - 1] !in order[..|order| - 1]
  {
  }

  /** Expiry hands out each listed flow whole. */
  lemma ExpiryReleases<S>(t: Table<S>, order: seq<SocketAddr>, now: nat, a: SocketAddr)
    requires Distinct(order) && AllPending(t, order)
    ensures To(a, ExpireAll(t, order, now).released) == (if a in order then HeldAt(t, a) else [])
  {
    ExpiryInTurn(t, order, now);
    HeldInTurnTo(t, order, a);
  }

  lemma ExpiryHolds<S>(t: Table<S>, order: seq<SocketAddr>, now: nat, a: SocketAddr)
    requires AllPending(t, order)
    ensures HeldAt(ExpireAll(t, order, now).table, a) == (if a in order then [] else HeldAt(t, a))
  {
    ExpireTable(t, order, now);
  }

  /** What one event does to the stream of one destination. */
  ghost predicate StreamStep<S>(engine: Engine<S>, idle: nat, t: Table<S>, e: Event, a: SocketAddr)
  {
    var r := Step(engine, idle, t, e);
    var released, before, after := To(a, r.released), HeldAt(t, a), HeldAt(r.table, a);
    && Ids(before) + ClaimedAt(engine, idle, t, e, a) == Ids(released) + Ids(after)
    && if Overtaking(engine, idle, t, e) then
         after == before && Raw(released) == ArrivedAt(e, a)
       else
         Raw(before) + ArrivedAt(e, a) == Raw(released) + Raw(after)
  }

  lemma ExpiryStream<S>(engine: Engine<S>, idle: nat, t: Table<S>, e: Event, a: SocketAddr)
    requires TableOk(t) && Allowed(t, e, idle) && e.Expiry?
    ensures StreamStep(engine, idle, t, e, a)
  {
    assert forall i :: 0 <= i < |e.order| ==> e.order[i] in e.order;
    ExpiryReleases(t, e.order, e.now, a);
    ExpiryHolds(t, e.order, e.now, a);
    Associate(Raw(HeldAt(t, a)), [], []);
    Associate(Ids(HeldAt(t, a)), [], []);
  }

  lemma OvertakingStream<S>(engine: Engine<S>, idle: nat, t: Table<S>, e: Event, a: SocketAddr)
    requires TableOk(t) && Allowed(t, e, idle) && Overtaking(engine, idle, t, e)
    ensures StreamStep(engine, idle, t, e, a)
  {
    OvertakingIsAlone(engine, idle, t, e);
    AllTo(e.datagram.destination, [Plain(e.datagram)], a);
    Single(Plain(e.datagram));
    Associate(Ids(HeldAt(t, a)), [], []);
  }

  lemma ArrivalStream<S>(engine: Engine<S>, idle: nat, t: Table<S>, e: Event, a: SocketAddr)
    requires TableOk(t) && Allowed(t, e, idle) && e.Arrival? && !Overtaking(engine, idle, t, e)
    ensures StreamStep(engine, idle, t, e, a)
  {
    ArrivalPreserves(engine, idle, t, e);
    AllTo(e.datagram.destination, Step(engine, idle, t, e).released, a);
    if a != e.datagram.destination {
      OthersKept(engine, idle, t, e, a);
      Associate(Raw(HeldAt(t, a)), [], []);
      Associate(Ids(HeldAt(t, a)), [], []);
    }
  }

  lemma EventStream<S>(engine: Engine<S>, idle: nat, t: Table<S>, e: Event, a: SocketAddr)
    requires TableOk(t) && Allowed(t, e, idle)
    ensures StreamStep(engine, idle, t, e, a)
  {
    if e.Expiry? {
      ExpiryStream(engine, idle, t, e, a);
    } else if Overtaking(engine, idle, t, e) {
      OvertakingStream(engine, idle, t, e, a);
    } else {
      ArrivalStream(engine, idle, t, e, a);
    }
  }

  // -------------------------------------------------------------- whole runs

  /** The table after a run that starts empty. */
  ghost function After<S>(engine: Engine<S>, idle: nat, events: seq<Event>): (t: Table<S>)
  {
    if |events| == 0 then map[]
    else Step(engine, idle, After(engine, idle, events[..|events| - 1]), events[|events| - 1]).table
  }

  /** Every choice made during the run is one the code can make. */
  ghost predicate Possible<S>(engine: Engine<S>, idle: nat, events: seq<Event>)
  {
    |events| == 0 ||
    (Possible(engine, idle, events[..|events| - 1])
     && Allowed(After(engine, idle, events[..|events| - 1]), events[|events| - 1], idle))
  }

  /** All datagrams released during the run, in order. */
  ghost function Released<S>(engine: Engine<S>, idle: nat, events: seq<Event>): (r: seq<Prepared>)
  {
    if |events| == 0 then []
    else
      var front, last := events[..|events| - 1], events[|events| - 1];
      Released(engine, idle, front) + Step(engine, idle, After(engine, idle, front), last).released
  }

  /** The identities authenticated for `a` during the run, in order. */
  ghost function Claims<S>(engine: Engine<S>, idle: nat, events: seq<Event>, a: SocketAddr): (r: seq<ConnectionKey>)
  {
    if |events| == 0 then []
    else
      var front, last := events[..|events| - 1], events[|events| - 1];
      Claims(engine, idle, front, a) + ClaimedAt(engine, idle, After(engine, idle, front), last, a)
  }

  ghost function Arrived(events: seq<Event>, a: SocketAddr): (r: seq<Datagram>)
  {
    if |events| == 0 then [] else Arrived(events[..|events| - 1], a) + ArrivedAt(events[|events| - 1], a)
  }

  /** Arrivals for `a` other than overtaking ones. */
  ghost function InOrder<S>(engine: Engine<S>, idle: nat, events: seq<Event>, a: SocketAddr): (r: seq<Datagram>)
  {
    if |events| == 0 then []
    else
      var front, last := events[..|events| - 1], events[|events| - 1];
      InOrder(engine, idle, front, a)
      + if Overtaking(engine, idle, After(engine, idle, front), last) then [] else ArrivedAt(last, a)
  }

  /** Releases for `a` other than by overtaking. */
  ghost function ReleasedInOrder<S>(engine: Engine<S>, idle: nat, events: seq<Event>, a: SocketAddr): (r: seq<Datagram>)
  {
    if |events| == 0 then []
    else
      var front, last := events[..|events| - 1], events[|events| - 1];
      var t := After(engine, idle, front);
      ReleasedInOrder(engine, idle, front, a)
      + if Overtaking(engine, idle, t, last) then [] else Raw(To(a, Step(engine, idle, t, last).released))
  }

  /** In every run the budgets are sums within their bounds, and every pending flow is well formed. */
  lemma {:induction false} RunKeepsTable<S>(engine: Engine<S>, idle: nat, events: seq<Event>)
    requires Possible(engine, idle, events)
    ensures TableOk(After(engine, idle, events))
  {
    if |events| > 0 {
      var front, last := events[..|events| - 1], events[|events| - 1];
      RunKeepsTable(engine, idle, front);
      StepKeeps(engine, idle, After(engine, idle, front), last);
    }
  }

  /**
    Order: what arrived for a destination is what was released for it followed
    by what is still held, datagram by datagram. Only overtaking Initials, which
    are released alone at once, stand outside this order.
   */
  lemma {:induction false} RunInOrder<S>(engine: Engine<S>, idle: nat, events: seq<Event>, a: SocketAddr)
    requires Possible(engine, idle, events)
    ensures InOrder(engine, idle, events, a)
         == ReleasedInOrder(engine, idle, events, a) + Raw(HeldAt(After(engine, idle, events), a))
  {
    if |events| > 0 {
      var front, last := events[..|events| - 1], events[|events| - 1];
      var t := After(engine, idle, front);
      RunInOrder(engine, idle, front, a);
      RunKeepsTable(engine, idle, front);
      EventStream(engine, idle, t, last, a);
      var before := ReleasedInOrder(engine, idle, front, a);
      var r := Step(engine, idle, t, last);
      Associate(before, Raw(HeldAt(t, a)), ArrivedAt(last, a));
      Associate(before, Raw(To(a, r.released)), Raw(HeldAt(r.table, a)));
    }
  }

  /** Nothing is lost, duplicated or altered: arrivals are releases plus what is held. */
  lemma {:induction false} RunConserves<S>(engine: Engine<S>, idle: nat, events: seq<Event>, a: SocketAddr)
    requires Possible(engine, idle, events)
    ensures multiset(Arrived(events, a))
         == multiset(Raw(To(a, Released(engine, idle, events)))) + multiset(Raw(HeldAt(After(engine, idle, events), a)))
  {
    if |events| > 0 {
      var front, last := events[..|events| - 1], events[|events| - 1];
      var t := After(engine, idle, front);
      RunConserves(engine, idle, front, a);
      RunKeepsTable(engine, idle, front);
      EventStream(engine, idle, t, last, a);
      var before := Released(engine, idle, front);
      var r := Step(engine, idle, t, last);
      Appended(before, r.released, a);
      Appended(To(a, before), To(a, r.released), a);
      CountsStep(Arrived(front, a), Raw(To(a, before)), Raw(HeldAt(t, a)),
                 ArrivedAt(last, a), Raw(To(a, r.released)), Raw(HeldAt(r.table, a)));
    }
  }

  lemma CountsStep(
    arrivals: seq<Datagram>, releases: seq<Datagram>, before: seq<Datagram>,
    arrived: seq<Datagram>, released: seq<Datagram>, after: seq<Datagram>)
    requires multiset(arrivals) == multiset(releases) + multiset(before)
    requires before + arrived == released + after || (after == before && released == arrived)
    ensures multiset(arrivals + arrived) == multiset(releases + released) + multiset(after)
  {
    assert multiset(before + arrived) == multiset(before) + multiset(arrived);
    assert multiset(released + after) == multiset(released) + multiset(after);
    assert multiset(arrivals + arrived) == multiset(releases) + (multiset(before) + multiset(arrived));
    assert multiset(releases + released) == multiset(releases) + multiset(released);
  }

  /**
    Identities: those emitted for a destination, in order, followed by the one
    its pending flow still carries, are exactly those authenticated for it.
   */
  lemma {:induction false} RunIdentities<S>(engine: Engine<S>, idle: nat, events: seq<Event>, a: SocketAddr)
    requires Possible(engine, idle, events)
    ensures Claims(engine, idle, events, a)
         == Ids(To(a, Released(engine, idle, events))) + Ids(HeldAt(After(engine, idle, events), a))
  {
    if |events| > 0 {
      var front, last := events[..|events| - 1], events[|events| - 1];
      var t := After(engine, idle, front);
      RunIdentities(engine, idle, front, a);
      RunKeepsTable(engine, idle, front);
      EventStream(engine, idle, t, last, a);
      var before := Released(engine, idle, front);
      var r := Step(engine, idle, t, last);
      Appended(before, r.released, a);
      Appended(To(a, before), To(a, r.released), a);
      Associate(Ids(To(a, before)), Ids(HeldAt(t, a)), ClaimedAt(engine, idle, t, last, a));
      Associate(Ids(To(a, before)), Ids(To(a, r.released)), Ids(HeldAt(r.table, a)));
    }
  }
}
