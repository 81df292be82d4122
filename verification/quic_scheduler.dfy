/**
  The scheduler as it is stored: the flow table with two running counters. Every
  method is proved against the table-only state machine, where the counters are
  sums; the proof shows that no release ever saturates.
 */
module QuicScheduler {
  import opened Base
  import opened QuicWire
  import opened CryptoStream
  import opened QuicFlows

  datatype IngressResult = Buffered | Forward(prepared: Prepared) | Replay(datagrams: seq<Prepared>)

  function ReleasedBy(r: IngressResult): (datagrams: seq<Prepared>)
  {
    match r
    case Buffered => []
    case Forward(prepared) => [prepared]
    case Replay(datagrams) => datagrams
  }

  /** `prepend_quic_replay`. */
  function PrependReplay(replay: seq<Prepared>, next: IngressResult): (r: IngressResult)
    ensures ReleasedBy(r) == replay + ReleasedBy(next)
  {
    if |replay| == 0 then
      assert replay + ReleasedBy(next) == ReleasedBy(next);
      next
    else match next
      case Buffered => assert replay + [] == replay; Replay(replay)
      case Forward(prepared) => Replay(replay + [prepared])
      case Replay(datagrams) => Replay(replay + datagrams)
  }

  function SaturatingSub(a: nat, b: nat): nat
  {
    if a < b then 0 else a - b
  }

  class SniffState<S> {
    const engine: Engine<S>
    const idleTimeout: nat
    var flows: Table<S>
    var pendingDatagrams: nat
    var pendingBytes: nat

    /** The counters are the table's load plus what `taken` holds, a flow being handled outside it. */
    ghost predicate Counts(taken: Option<Flow<S>>)
      reads this
    {
      && pendingDatagrams == OptLoad(taken, Count) + TableLoad(flows, Count)
      && pendingBytes == OptLoad(taken, Octets) + TableLoad(flows, Octets)
    }

    ghost predicate Valid()
      reads this
    {
      TableOk(flows) && Counts(None)
    }

    constructor (engine: Engine<S>, idleTimeout: nat)
      ensures this.engine == engine && this.idleTimeout == idleTimeout
      ensures flows == map[] && Valid()
    {
      this.engine, this.idleTimeout := engine, idleTimeout;
      flows, pendingDatagrams, pendingBytes := map[], 0, 0;
      EmptyLoad<S>(map[], Count);
      EmptyLoad<S>(map[], Octets);
    }

    /** `next_deadline`: the earliest deadline of a pending flow. */
    method NextDeadline() returns (deadline: Option<nat>)
      ensures deadline.None? <==> forall a :: a in flows ==> !flows[a].Pending?
      ensures deadline.Some? ==>
        (exists a :: a in flows && flows[a].Pending? && flows[a].deadline == deadline.value)
      ensures deadline.Some? ==>
        forall a :: a in flows && flows[a].Pending? ==> deadline.value <= flows[a].deadline
    {
      deadline := None;
      var rest := flows.Keys;
      while rest != {}
        invariant rest <= flows.Keys
        invariant deadline.None? <==> forall a :: a in flows && a !in rest ==> !flows[a].Pending?
        invariant deadline.Some? ==>
          exists a :: a in flows && flows[a].Pending? && flows[a].deadline == deadline.value
        invariant deadline.Some? ==>
          forall a :: a in flows && a !in rest && flows[a].Pending? ==> deadline.value <= flows[a].deadline
        decreases rest
      {
        var a :| a in rest;
        rest := rest - {a};
        if flows[a].Pending? && (deadline.None? || flows[a].deadline < deadline.value) {
          deadline := Some(flows[a].deadline);
        }
      }
    }

    /** `can_buffer`. */
    predicate Fits(bytes: nat)
      reads this
    {
      pendingDatagrams < PENDING_DATAGRAM_MAX && pendingBytes + bytes <= PENDING_BYTES_MAX
    }

    /** `release_pending`: the subtractions are exact, never clamped. */
    method ReleasePending(p: Flow<S>)
      requires p.Pending? && Counts(Some(p))
      modifies this`pendingDatagrams, this`pendingBytes
      ensures Counts(None)
    {
      pendingDatagrams := SaturatingSub(pendingDatagrams, |p.datagrams|);
      pendingBytes := SaturatingSub(pendingBytes, p.bufferedBytes);
    }

    /** `make_room_for_flow`: evicts the least recently used completed flow of a full table. */
    method MakeRoomForFlow() returns (ok: bool, ghost victim: Option<SocketAddr>)
      requires Counts(None)
      modifies this`flows
      ensures Counts(None)
      ensures ok == (|old(flows)| < FLOW_MAX || victim.Some?)
      ensures RoomMade(old(flows), true, victim) && flows == Kept(old(flows), victim)
    {
      victim := None;
      if |flows| < FLOW_MAX {
        return true, None;
      }
      var oldest: Option<SocketAddr> := None;
      var rest := flows.Keys;
      while rest != {}
        invariant rest <= flows.Keys
        invariant oldest.None? ==> forall b :: b in flows && b !in rest ==> flows[b].Pending?
        invariant oldest.Some? ==> oldest.value in flows && !flows[oldest.value].Pending?
        invariant oldest.Some? ==> forall b :: b in flows && b !in rest && !flows[b].Pending? ==>
          flows[oldest.value].lastUsed <= flows[b].lastUsed
        decreases rest
      {
        var a :| a in rest;
        rest := rest - {a};
        if !flows[a].Pending? && (oldest.None? || flows[a].lastUsed < flows[oldest.value].lastUsed) {
          oldest := Some(a);
        }
      }
      if oldest.None? {
        return false, None;
      }
      EvictionKeepsLoad(flows, oldest.value, Count);
      EvictionKeepsLoad(flows, oldest.value, Octets);
      flows := flows - {oldest.value};
      return true, oldest;
    }

    /** Puts a flow into the table for a destination that has none. */
    method Store(a: SocketAddr, flow: Flow<S>)
      requires a !in flows && Counts(Some(flow))
      modifies this`flows
      ensures flows == old(flows)[a := flow] && Counts(None)
    {
      LoadInserted(flows, a, flow, Count);
      LoadInserted(flows, a, flow, Octets);
      flows := flows[a := flow];
    }

    /** `commit_started_flow`. */
    method CommitStartedFlow(d: Datagram, seen: Option<ConnectionKey>, now: nat, o: Observed<S>) returns (r: IngressResult)
      requires d.destination !in flows && Counts(None)
      modifies this`flows, this`pendingDatagrams, this`pendingBytes
      ensures Counts(None)
      ensures var decision := Start(o, seen, d, now, old(Fits(|d.payload|)));
        flows == old(flows)[d.destination := decision.flow.value] && ReleasedBy(r) == decision.released
    {
      var key := if o.authenticated then seen else None;
      if o.outcome == NeedMoreData && Fits(|d.payload|) {
        pendingDatagrams := pendingDatagrams + 1;
        pendingBytes := pendingBytes + |d.payload|;
        Store(d.destination,
              Pending(o.sniffer, key, [Prepared(d, None, key)], |d.payload|, now + SNIFF_TIMEOUT));
        return Buffered;
      }
      if o.outcome.Matched? {
        Store(d.destination, Flow.Matched(o.outcome.domain, key, now));
        return Forward(Prepared(d, Some(o.outcome.domain), key));
      }
      Store(d.destination, NoDomain(key, now));
      return Forward(Prepared(d, None, key));
    }

    /** `finish_pending`. */
    method FinishPending(p: Flow<S>, d: Datagram, domain: Option<string>, now: nat) returns (r: IngressResult)
      requires p.Pending? && d.destination !in flows && Counts(Some(p))
      modifies this`flows, this`pendingDatagrams, this`pendingBytes
      ensures Counts(None)
      ensures flows == old(flows)[d.destination :=
        if domain.Some? then Flow.Matched(domain.value, p.key, now) else NoDomain(p.key, now)]
      ensures var all := p.datagrams + [Plain(d)];
        r == Replay(if domain.Some? then WithDomain(all, domain.value) else all)
    {
      ReleasePending(p);
      var replay := p.datagrams + [Plain(d)];
      if domain.Some? {
        replay := WithDomain(replay, domain.value);
        Store(d.destination, Flow.Matched(domain.value, p.key, now));
      } else {
        Store(d.destination, NoDomain(p.key, now));
      }
      return Replay(replay);
    }

    /** `apply_pending_outcome`. */
    method ApplyPendingOutcome(p: Flow<S>, d: Datagram, o: Observed<S>, now: nat) returns (r: IngressResult)
      requires p.Pending? && d.destination !in flows && Counts(Some(p))
      modifies this`flows, this`pendingDatagrams, this`pendingBytes
      ensures Counts(None)
      ensures var decision := Advance(p, o, d, now, old(Fits(|d.payload|)));
        flows == old(flows)[d.destination := decision.flow.value] && ReleasedBy(r) == decision.released
    {
      if o.outcome == NeedMoreData && Fits(|d.payload|) {
        pendingDatagrams := pendingDatagrams + 1;
        pendingBytes := pendingBytes + |d.payload|;
        Store(d.destination,
              Pending(o.sniffer, p.key, p.datagrams + [Plain(d)], p.bufferedBytes + |d.payload|, p.deadline));
        return Buffered;
      }
      r := FinishPending(p, d, if o.outcome.Matched? then Some(o.outcome.domain) else None, now);
    }

    /** `fail_open_unsupported_version`; `current` has been taken out of the table. */
    method FailOpenUnsupportedVersion(d: Datagram, current: Option<Flow<S>>, now: nat)
      returns (r: IngressResult, ghost victim: Option<SocketAddr>)
      requires d.destination !in flows && Counts(current)
      modifies this`flows, this`pendingDatagrams, this`pendingBytes
      ensures Counts(None)
      ensures ReleasedBy(r) == Held(current) + [Plain(d)]
      ensures RoomMade(old(flows), current.None?, victim)
      ensures var stored := current.Some? || |old(flows)| < FLOW_MAX || victim.Some?;
        flows == Refilled(old(flows), victim, d.destination, if stored then Some(NoDomain(None, now)) else None)
    {
      victim := None;
      if current.Some? {
        if current.value.Pending? {
          ReleasePending(current.value);
        }
        Store(d.destination, NoDomain(None, now));
        var all := Held(current) + [Plain(d)];
        assert !current.value.Pending? ==> all == [Plain(d)];
        return if current.value.Pending? then Replay(all) else Forward(Plain(d)), None;
      }
      var room;
      room, victim := MakeRoomForFlow();
      if room {
        Store(d.destination, NoDomain(None, now));
      }
      assert Held(current) + [Plain(d)] == [Plain(d)];
      return Forward(Plain(d)), victim;
    }

    /** `start_flow`. */
    method StartFlow(d: Datagram, seen: Option<ConnectionKey>, now: nat)
      returns (r: IngressResult, ghost victim: Option<SocketAddr>)
      requires d.destination !in flows && Counts(None)
      modifies this`flows, this`pendingDatagrams, this`pendingBytes
      ensures Counts(None)
      ensures RoomMade(old(flows), true, victim)
      ensures var room := |old(flows)| < FLOW_MAX || victim.Some?;
        var started := Start(engine.ingest(engine.blank, d.payload), seen, d, now, old(Fits(|d.payload|)));
        && flows == Refilled(old(flows), victim, d.destination, if room then started.flow else None)
        && ReleasedBy(r) == if room then started.released else [Plain(d)]
    {
      var candidate := engine.ingest(engine.blank, d.payload);
      ghost var fits := Fits(|d.payload|);
      var room;
      room, victim := MakeRoomForFlow();
      assert Fits(|d.payload|) == fits;
      if !room {
        return Forward(Plain(d)), victim;
      }
      r := CommitStartedFlow(d, seen, now, candidate);
    }

    /** The pending arm of `ingest_datagram`; `p` has been taken out of the table. */
    method IngestPending(p: Flow<S>, d: Datagram, seen: Option<ConnectionKey>, now: nat) returns (r: IngressResult)
      requires p.Pending? && d.destination !in flows && Counts(Some(p))
      modifies this`flows, this`pendingDatagrams, this`pendingBytes
      ensures Counts(None)
      ensures var decision := DecidePending(engine, p, seen, d, now, old(Fits(|d.payload|)), CanBuffer(old(flows), |d.payload|));
        flows == old(flows)[d.destination := decision.flow.value] && ReleasedBy(r) == decision.released
    {
      var own := engine.ingest(p.sniffer, d.payload);
      if !Foreign(p.key, seen) {
        r := ApplyPendingOutcome(p, d, own, now);
        return;
      }
      if own.authenticated {
        r := ApplyPendingOutcome(Adopt(p, seen), d, own, now);
        return;
      }
      var candidate := engine.ingest(engine.blank, d.payload);
      if !candidate.authenticated {
        Store(d.destination, Pending(own.sniffer, p.key, p.datagrams, p.bufferedBytes, p.deadline));
        return Forward(Plain(d));
      }
      ReleasePending(p);
      var next := CommitStartedFlow(d, seen, now, candidate);
      return PrependReplay(p.datagrams, next);
    }

    /** The arm of `ingest_datagram` for a completed flow, taken out of the table. */
    method IngestCompleted(c: Flow<S>, d: Datagram, seen: Option<ConnectionKey>, now: nat) returns (r: IngressResult)
      requires !c.Pending? && d.destination !in flows && Counts(None)
      modifies this`flows, this`pendingDatagrams, this`pendingBytes
      ensures Counts(None)
      ensures var decision := DecideCompleted(engine, c, seen, d, now, old(Fits(|d.payload|)));
        flows == old(flows)[d.destination := decision.flow.value] && ReleasedBy(r) == decision.released
    {
      if Foreign(c.key, seen) {
        var candidate := engine.ingest(engine.blank, d.payload);
        if candidate.authenticated {
          r := CommitStartedFlow(d, seen, now, candidate);
          return;
        }
      }
      if c.Matched? {
        Store(d.destination, Flow.Matched(c.domain, c.key, now));
        return Forward(Prepared(d, Some(c.domain), None));
      }
      Store(d.destination, NoDomain(c.key, now));
      return Forward(Plain(d));
    }

    /** Takes the destination's flow out of the table; an idle completed flow is forgotten. */
    method Take(a: SocketAddr, now: nat) returns (current: Option<Flow<S>>)
      requires Counts(None)
      modifies this`flows
      ensures current == Current(old(flows), a, now, idleTimeout)
      ensures flows == old(flows) - {a} && Counts(current)
    {
      current := if a in flows && Live(flows[a], now, idleTimeout) then Some(flows[a]) else None;
      CurrentLoad(flows, a, now, idleTimeout, Count);
      CurrentLoad(flows, a, now, idleTimeout, Octets);
      flows := flows - {a};
    }

    /** `ingest_datagram` once the destination's flow has been taken out of the table. */
    method Dispatch(d: Datagram, current: Option<Flow<S>>, now: nat)
      returns (r: IngressResult, ghost victim: Option<SocketAddr>)
      requires d.destination !in flows && Counts(current)
      modifies this`flows, this`pendingDatagrams, this`pendingBytes
      ensures Counts(None)
      ensures RoomMade(old(flows), current.None?, victim)
      ensures var room := current.Some? || |old(flows)| < FLOW_MAX || victim.Some?;
        var decision := Decide(engine, current, d, now, room, old(Fits(|d.payload|)), CanBuffer(old(flows), |d.payload|));
        flows == Refilled(old(flows), victim, d.destination, decision.flow) && ReleasedBy(r) == decision.released
    {
      var seen := ObservedKey(d.payload);
      if seen.None? && HasUnsupportedVersion(d.payload) {
        r, victim := FailOpenUnsupportedVersion(d, current, now);
      } else if current.None? {
        r, victim := StartFlow(d, seen, now);
      } else {
        victim := None;
        r := IngestKnown(d, current, seen, now);
      }
    }

    /** A datagram for a destination that has a flow. */
    method IngestKnown(d: Datagram, current: Option<Flow<S>>, seen: Option<ConnectionKey>, now: nat) returns (r: IngressResult)
      requires d.destination !in flows && Counts(current) && current.Some?
      requires seen == ObservedKey(d.payload) && !(seen.None? && HasUnsupportedVersion(d.payload))
      modifies this`flows, this`pendingDatagrams, this`pendingBytes
      ensures Counts(None)
      ensures var decision := Decide(engine, current, d, now, true, old(Fits(|d.payload|)), CanBuffer(old(flows), |d.payload|));
        flows == Refilled(old(flows), None, d.destination, decision.flow) && ReleasedBy(r) == decision.released
    {
      if current.value.Pending? {
        r := IngestPending(current.value, d, seen, now);
      } else {
        r := IngestCompleted(current.value, d, seen, now);
      }
    }

    /** `ingest_datagram`. */
    method IngestDatagram(d: Datagram, now: nat) returns (r: IngressResult, ghost victim: Option<SocketAddr>)
      requires Valid()
      modifies this`flows, this`pendingDatagrams, this`pendingBytes
      ensures Valid()
      ensures Allowed(old(flows), Arrival(d, now, victim), idleTimeout)
      ensures flows == Arrive(engine, idleTimeout, old(flows), d, now, victim).table
      ensures ReleasedBy(r) == Arrive(engine, idleTimeout, old(flows), d, now, victim).released
    {
      ghost var before := flows;
      ghost var fits := Fits(|d.payload|);
      var current := Take(d.destination, now);
      r, victim := Dispatch(d, current, now);
      RoomIsRoom(engine, idleTimeout, before, d, now, victim, current, fits);
      ArriveKeeps(engine, idleTimeout, before, d, now, victim);
    }

    /** `expire`: completes every pending flow whose deadline has passed, in some order. */
    method Expire(now: nat) returns (replay: seq<Prepared>, ghost order: seq<SocketAddr>)
      requires Valid()
      modifies this`flows, this`pendingDatagrams, this`pendingBytes
      ensures Valid()
      ensures Allowed(old(flows), Expiry(now, order), idleTimeout)
      ensures ExpireAll(old(flows), order, now) == Moved(flows, replay)
    {
      ghost var before := flows;
      var due := set a | a in flows && flows[a].Pending? && flows[a].deadline <= now;
      replay, order := [], [];
      while due != {}
        invariant Draining(before, now, due, order, flows, replay) && Counts(None)
        decreases due
      {
        var a :| a in due;
        DrainStep(before, now, due, order, flows, replay, a);
        replay := replay + flows[a].datagrams;
        Complete(a, now);
        due, order := due - {a}, order + [a];
      }
      DrainDone(before, now, order, flows, replay, idleTimeout);
      StepKeeps(engine, idleTimeout, before, Expiry(now, order));
    }

    /** A pending flow ends without a domain and gives back what it holds. */
    method Complete(a: SocketAddr, now: nat)
      requires a in flows && flows[a].Pending? && Counts(None)
      modifies this`flows, this`pendingDatagrams, this`pendingBytes
      ensures Counts(None) && flows == old(flows)[a := NoDomain(old(flows)[a].key, now)]
    {
      var p := flows[a];
      CompletedLoad(flows, a, NoDomain(p.key, now), Count);
      CompletedLoad(flows, a, NoDomain(p.key, now), Octets);
      flows := flows[a := NoDomain(p.key, now)];
      ReleasePending(p);
    }
  }

  /** The flows in `order` have been completed, those in `due` are still to be. */
  ghost predicate Draining<S>(
    before: Table<S>, now: nat, due: set<SocketAddr>, order: seq<SocketAddr>, flows: Table<S>, replay: seq<Prepared>)
  {
    && Distinct(order) && (forall a :: a in order ==> a !in due)
    && (forall a :: a in order || a in due <==> Expired(before, a, now))
    && ExpireAll(before, order, now) == Moved(flows, replay)
    && forall a :: a in due ==> a in flows && flows[a] == before[a]
  }

  lemma DrainStep<S>(
    before: Table<S>, now: nat, due: set<SocketAddr>, order: seq<SocketAddr>, flows: Table<S>, replay: seq<Prepared>, a: SocketAddr)
    requires Draining(before, now, due, order, flows, replay) && a in due
    ensures a in flows && flows[a].Pending?
    ensures Draining(before, now, due - {a}, order + [a], flows[a := NoDomain(flows[a].key, now)], replay + flows[a].datagrams)
  {
    var longer := order + [a];
    assert longer[..|longer| - 1] == order && longer[|longer| - 1] == a;
    assert Expired(before, a, now);
    forall b ensures b in longer <==> b in order || b == a {
    }
  }

  lemma DrainDone<S>(
    before: Table<S>, now: nat, order: seq<SocketAddr>, flows: Table<S>, replay: seq<Prepared>, idle: nat)
    requires Draining(before, now, {}, order, flows, replay)
    ensures Allowed(before, Expiry(now, order), idle) && ExpireAll(before, order, now) == Moved(flows, replay)
  {
  }

  /** How `make_room_for_flow` changes a table, and when it is consulted at all. */
  ghost predicate RoomMade<S>(others: Table<S>, consulted: bool, victim: Option<SocketAddr>)
  {
    if consulted && |others| >= FLOW_MAX then
      if victim.Some? then Oldest(others, victim.value) else forall b :: b in others ==> others[b].Pending?
    else victim.None?
  }

  lemma RoomAllows<S>(
    t: Table<S>, d: Datagram, now: nat, idle: nat, victim: Option<SocketAddr>, current: Option<Flow<S>>)
    requires current == Current(t, d.destination, now, idle)
    requires RoomMade(t - {d.destination}, current.None?, victim)
    ensures Allowed(t, Arrival(d, now, victim), idle)
    ensures (current.Some? || |t - {d.destination}| < FLOW_MAX || victim.Some?) ==
            (!NeedsRoom(t, d.destination, now, idle) || victim.Some?)
  {
  }

  /** The stored decision is the table-level one. */
  lemma RoomIsRoom<S>(
    engine: Engine<S>, idle: nat, t: Table<S>, d: Datagram, now: nat, victim: Option<SocketAddr>,
    current: Option<Flow<S>>, fits: bool)
    requires current == Current(t, d.destination, now, idle) && fits == CanBuffer(t, |d.payload|)
    requires RoomMade(t - {d.destination}, current.None?, victim)
    ensures Allowed(t, Arrival(d, now, victim), idle)
    ensures var others := t - {d.destination};
      var room := current.Some? || |others| < FLOW_MAX || victim.Some?;
      var decision := Decide(engine, current, d, now, room, fits, CanBuffer(others, |d.payload|));
      && Arrive(engine, idle, t, d, now, victim).released == decision.released
      && Arrive(engine, idle, t, d, now, victim).table == Refilled(others, victim, d.destination, decision.flow)
  {
    RoomAllows(t, d, now, idle, victim, current);
  }

  function Refilled<S>(others: Table<S>, victim: Option<SocketAddr>, a: SocketAddr, flow: Option<Flow<S>>): Table<S>
  {
    var kept := Kept(others, victim);
    if flow.Some? then kept[a := flow.value] else kept
  }

  function Kept<S>(others: Table<S>, victim: Option<SocketAddr>): Table<S>
  {
    if victim.Some? then others - {victim.value} else others
  }
}
