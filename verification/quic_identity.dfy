/**
  The scheduler driven by the real QUIC sniffer: in every run, the identity of a
  pending flow is the connection its decryption keys were derived for.
 */
module QuicIdentity {
  import opened Base
  import opened QuicWire
  import opened QuicSniffer
  import opened QuicFlows
  import opened QuicConservation
  import Hello = ClientHello

  ghost function RealEngine<K(!new)>(p: Protection<K>, normalize: Hello.Normalizer): (engine: Engine<Sniffer<K>>)
  {
    Engine(Fresh(),
           (s: Sniffer<K>, payload: Bytes) =>
             var r := Ingest(p, normalize, s, payload);
             Observed(r.sniffer, r.outcome, r.authenticated))
  }

  /** The keys held are those of `key`, and there are none without one. */
  ghost predicate KeyedBy<K>(p: Protection<K>, s: Sniffer<K>, key: Option<ConnectionKey>)
  {
    && (key.Some? <==> s.initial.Some?)
    && (key.Some? ==>
          && ParsedKey(key.value)
          && s.initial == Some(Context(key.value.wireVersion, p.derive(key.value.dcid, FromWire(key.value.wireVersion).value))))
  }

  ghost predicate Named<K>(p: Protection<K>, flow: Flow<Sniffer<K>>)
  {
    flow.Pending? ==> KeyedBy(p, flow.sniffer, flow.key)
  }

  ghost function Flagged<K>(step: Step<K>): (authenticated: bool)
  {
    if step.Stop? then step.result.authenticated else step.authenticated
  }

  /** A packet never takes the flag back, and without it the sniffer is as it was. */
  ghost predicate Flags<K>(s: Sniffer<K>, authenticated: bool, step: Step<K>)
  {
    (authenticated ==> Flagged(step)) && (!Flagged(step) ==> Reached(step) == s)
  }

  ghost predicate FlagsEverything<K(!new)>(take: PacketFunction<K>)
  {
    forall s, packet, offset, connection, authenticated ::
      Flags(s, authenticated, take(s, packet, offset, connection, authenticated))
  }

  lemma PacketsAreFlagged<K(!new)>(p: Protection<K>, normalize: Hello.Normalizer)
    ensures FlagsEverything(TakePacket(p, normalize))
  {
    forall s, packet, offset, connection, authenticated
      ensures Flags(s, authenticated, TakePacket(p, normalize)(s, packet, offset, connection, authenticated))
    {
      PacketFlags(p, normalize, s, packet, offset, connection, authenticated);
    }
  }

  lemma PacketFlags<K>(
    p: Protection<K>, normalize: Hello.Normalizer, s: Sniffer<K>,
    packet: Bytes, offset: nat, connection: Option<ConnectionKey>, authenticated: bool)
    ensures Flags(s, authenticated, IngestPacket(p, normalize, s, packet, offset, connection, authenticated))
  {
  }

  lemma {:induction false} UnauthenticatedKeeps<K(!new)>(
    take: PacketFunction<K>, normalize: Hello.Normalizer, s: Sniffer<K>,
    datagram: Bytes, offset: nat, connection: Option<ConnectionKey>, authenticated: bool)
    requires offset <= |datagram| && MovesOn(take) && FlagsEverything(take)
    ensures var r := IngestWith(take, normalize, s, datagram, offset, connection, authenticated);
      (authenticated ==> r.authenticated) && (!r.authenticated ==> r.sniffer == s)
    decreases |datagram| - offset
  {
    if offset < |datagram| {
      var step := take(s, datagram[offset..], offset, connection, authenticated);
      assert Forward(datagram[offset..], offset, step) && Flags(s, authenticated, step);
      match step
      case Stop(_) =>
      case Continue(sniffer, next, key, authenticated') =>
        UnauthenticatedKeeps(take, normalize, sniffer, datagram, next, Some(key), authenticated');
    }
  }

  /** Feeding a datagram keeps the keys' owner, or names it for the first time. */
  lemma IngestKeyed<K(!new)>(p: Protection<K>, normalize: Hello.Normalizer, s: Sniffer<K>, key: Option<ConnectionKey>, datagram: Bytes)
    requires KeyedBy(p, s, key)
    ensures var r := Ingest(p, normalize, s, datagram);
      && (r.authenticated ==> ObservedKey(datagram).Some? && KeyedBy(p, r.sniffer, if key.Some? then key else ObservedKey(datagram)))
      && (!r.authenticated ==> r.sniffer == s)
  {
    WalkersAgree(p, normalize, s, datagram);
    PacketsAreFlagged(p, normalize);
    UnauthenticatedKeeps(TakePacket(p, normalize), normalize, s, datagram, 0, None, false);
  }

  // ------------------------------------------------------------ one decision

  ghost predicate NamedOption<K>(p: Protection<K>, flow: Option<Flow<Sniffer<K>>>)
  {
    flow.Some? ==> Named(p, flow.value)
  }

  lemma StartNamed<K(!new)>(p: Protection<K>, normalize: Hello.Normalizer, d: Datagram, now: nat, fits: bool)
    ensures var engine := RealEngine(p, normalize);
      NamedOption(p, Start(engine.ingest(engine.blank, d.payload), ObservedKey(d.payload), d, now, fits).flow)
  {
    IngestKeyed(p, normalize, Fresh(), None, d.payload);
  }

  lemma AdvanceNamed<K>(p: Protection<K>, f: Flow<Sniffer<K>>, o: Observed<Sniffer<K>>, d: Datagram, now: nat, fits: bool)
    requires f.Pending? && KeyedBy(p, o.sniffer, f.key)
    ensures NamedOption(p, Advance(f, o, d, now, fits).flow)
  {
  }

  lemma PendingNamed<K(!new)>(
    p: Protection<K>, normalize: Hello.Normalizer, f: Flow<Sniffer<K>>, d: Datagram, now: nat, fits: bool, fitsAfterRelease: bool)
    requires f.Pending? && Named(p, f)
    ensures NamedOption(p, DecidePending(RealEngine(p, normalize), f, ObservedKey(d.payload), d, now, fits, fitsAfterRelease).flow)
  {
    var engine, seen := RealEngine(p, normalize), ObservedKey(d.payload);
    var own := engine.ingest(f.sniffer, d.payload);
    IngestKeyed(p, normalize, f.sniffer, f.key, d.payload);
    StartNamed(p, normalize, d, now, fitsAfterRelease);
    if !Foreign(f.key, seen) {
      AdvanceNamed(p, f, own, d, now, fits);
    } else if own.authenticated {
      AdvanceNamed(p, Adopt(f, seen), own, d, now, fits);
    }
  }

  lemma DecideNamed<K(!new)>(
    p: Protection<K>, normalize: Hello.Normalizer, current: Option<Flow<Sniffer<K>>>, d: Datagram, now: nat,
    room: bool, fits: bool, fitsAfterRelease: bool)
    requires NamedOption(p, current)
    ensures NamedOption(p, Decide(RealEngine(p, normalize), current, d, now, room, fits, fitsAfterRelease).flow)
  {
    StartNamed(p, normalize, d, now, fits);
    if current.Some? && current.value.Pending? {
      PendingNamed(p, normalize, current.value, d, now, fits, fitsAfterRelease);
    }
  }

  // -------------------------------------------------------------------- runs

  ghost predicate AllNamed<K>(p: Protection<K>, t: Table<Sniffer<K>>)
  {
    forall a :: a in t ==> Named(p, t[a])
  }

  lemma {:induction false} ExpireNamed<K>(p: Protection<K>, t: Table<Sniffer<K>>, order: seq<SocketAddr>, now: nat)
    requires AllNamed(p, t)
    ensures AllNamed(p, ExpireAll(t, order, now).table)
  {
    if |order| > 0 {
      ExpireNamed(p, t, order[..|order| - 1], now);
    }
  }

  lemma TableNamed<K>(p: Protection<K>, t: Table<Sniffer<K>>, a: SocketAddr, victim: Option<SocketAddr>, flow: Option<Flow<Sniffer<K>>>)
    requires AllNamed(p, t) && NamedOption(p, flow)
    ensures AllNamed(p, TableAfter(t, a, victim, flow))
  {
  }

  lemma ArriveNamed<K(!new)>(
    p: Protection<K>, normalize: Hello.Normalizer, idle: nat, t: Table<Sniffer<K>>, d: Datagram, now: nat, victim: Option<SocketAddr>)
    requires AllNamed(p, t)
    ensures AllNamed(p, Arrive(RealEngine(p, normalize), idle, t, d, now, victim).table)
  {
    var a := d.destination;
    DecideNamed(p, normalize, Current(t, a, now, idle), d, now, !NeedsRoom(t, a, now, idle) || victim.Some?,
                CanBuffer(t, |d.payload|), CanBuffer(t - {a}, |d.payload|));
    TableNamed(p, t, a, victim, DecisionFor(RealEngine(p, normalize), idle, t, d, now, victim).flow);
  }

  /** In every run the pending flows carry the identity their keys belong to, and none before a packet authenticates. */
  lemma {:induction false} RunNamed<K(!new)>(p: Protection<K>, normalize: Hello.Normalizer, idle: nat, events: seq<Event>)
    requires Possible(RealEngine(p, normalize), idle, events)
    ensures AllNamed(p, After(RealEngine(p, normalize), idle, events))
  {
    if |events| > 0 {
      var engine := RealEngine(p, normalize);
      var front, last := events[..|events| - 1], events[|events| - 1];
      var t := After(engine, idle, front);
      RunNamed(p, normalize, idle, front);
      match last {
        case Arrival(d, now, victim) => ArriveNamed(p, normalize, idle, t, d, now, victim);
        case Expiry(now, order) => ExpireNamed(p, t, order, now);
      }
    }
  }
}
