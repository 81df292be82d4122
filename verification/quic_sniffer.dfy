/**
  The QUIC Initial observer. Packet protection is a parameter; everything else
  (packet walk, packet numbers, frames, CRYPTO reassembly) is modelled. The
  meaning of a sniffer is a value; the class stores it as buffer and ranges.
 */
module QuicSniffer {
  import opened Base
  import opened QuicWire
  import opened CryptoStream
  import opened QuicFrames
  import Hello = ClientHello

  const SAMPLE_LENGTH: nat := 16

  datatype Unmasked = Unmasked(first: Byte, packetNumber: Bytes)

  /** Key derivation, header protection removal and packet opening, for some key type. */
  datatype Protection<!K> = Protection(
    derive: (Bytes, Version) -> K,
    unmask: (K, Bytes, Byte, Bytes) -> Option<Unmasked>,
    open: (K, nat, Bytes, Bytes) -> Option<Bytes>)

  datatype Context<K> = Context(wireVersion: nat, keys: K)

  datatype Opened = Opened(packetNumber: nat, plaintext: Bytes)

  /** `decrypt_initial`. */
  function DecryptInitial<K>(p: Protection<K>, packet: Bytes, initial: InitialPacket, keys: K, largest: Option<nat>)
    : (r: Option<Opened>)
    requires 0 < initial.packetNumberOffset && initial.packetNumberOffset + 17 <= initial.packetEnd <= |packet|
  {
    var offset := initial.packetNumberOffset;
    if offset + 4 + SAMPLE_LENGTH > initial.packetEnd then None
    else
      var sample := packet[offset + 4..offset + 4 + SAMPLE_LENGTH];
      match p.unmask(keys, sample, packet[0], packet[offset..offset + 4])
      case None => None
      case Some(unmasked) =>
        var length := unmasked.first % 4 + 1;
        if |unmasked.packetNumber| < length then None
        else
          var encoded := unmasked.packetNumber[..length];
          BigEndianBound(encoded);
          var number := ReconstructPacketNumber(largest, BigEndian(encoded), length);
          var header := [unmasked.first] + packet[1..offset] + encoded;
          match p.open(keys, number, header, packet[offset + length..initial.packetEnd])
          case None => None
          case Some(plaintext) => Some(Opened(number, plaintext))
  }

  /** The meaning of a sniffer: its keys, the largest packet number, and the CRYPTO stream. */
  datatype Sniffer<K> = Sniffer(initial: Option<Context<K>>, largest: Option<nat>, view: View)

  datatype Ingested<K> = Ingested(sniffer: Sniffer<K>, outcome: Outcome, authenticated: bool)

  ghost function Fresh<K>(): Sniffer<K>
  {
    Sniffer(None, None, map[])
  }

  function MaxNumber(largest: Option<nat>, number: nat): Option<nat>
  {
    match largest case None => Some(number) case Some(value) => Some(Max(value, number))
  }

  /** Keys for an Initial: the stored ones, or ones derived from its own header. */
  function KeysFor<K>(p: Protection<K>, initial: Option<Context<K>>, header: LongHeader): (r: Option<Context<K>>)
  {
    match initial
    case Some(context) => if context.wireVersion == header.wireVersion then Some(context) else None
    case None => Some(Context(header.wireVersion, p.derive(header.dcid, header.version)))
  }

  /** `ingest_initial`. */
  ghost function IngestInitial<K>(p: Protection<K>, normalize: Hello.Normalizer, s: Sniffer<K>, packet: Bytes, header: LongHeader)
    : (r: Ingested<K>)
    requires header.initial.Some?
    requires var i := header.initial.value;
      0 < i.packetNumberOffset && i.packetNumberOffset + 17 <= i.packetEnd <= |packet|
    ensures !r.authenticated ==> r.sniffer == s && r.outcome == NotMatched
    ensures r.authenticated ==> r.sniffer.initial == KeysFor(p, s.initial, header)
  {
    match KeysFor(p, s.initial, header)
    case None => Ingested(s, NotMatched, false)
    case Some(context) =>
      match DecryptInitial(p, packet, header.initial.value, context.keys, s.largest)
      case None => Ingested(s, NotMatched, false)
      case Some(clear) =>
        var applied := ApplyPayload(s.view, ParsePayload(clear.plaintext, 0));
        var next := Sniffer(Some(context), MaxNumber(s.largest, clear.packetNumber), applied.0);
        Ingested(next, if applied.1 == NeedMoreData then TryHello(normalize, applied.0) else applied.1, true)
  }

  /** One packet of the walk either ends it or hands over to the next offset. */
  datatype Step<K> =
    | Stop(result: Ingested<K>)
    | Continue(sniffer: Sniffer<K>, next: nat, key: ConnectionKey, authenticated: bool)

  /** A packet whose header has been parsed. */
  ghost function IngestParsed<K>(
    p: Protection<K>, normalize: Hello.Normalizer, s: Sniffer<K>,
    packet: Bytes, header: LongHeader, offset: nat, connection: Option<ConnectionKey>, authenticated: bool)
    : (r: Step<K>)
    requires header.initial.Some? ==>
      var i := header.initial.value;
      0 < i.packetNumberOffset && i.packetNumberOffset + 17 <= i.packetEnd <= |packet|
  {
    if connection.Some? && connection.value != header.Key() then
      Stop(Ingested(s, TryHello(normalize, s.view), authenticated))
    else if header.packetEnd.None? then
      Stop(Ingested(s, if offset == 0 then NotMatched else TryHello(normalize, s.view), authenticated))
    else
      var next := offset + header.packetEnd.value;
      if header.initial.None? then Continue(s, next, header.Key(), authenticated)
      else
        var r := IngestInitial(p, normalize, s, packet, header);
        if r.outcome != NeedMoreData then
          Stop(Ingested(r.sniffer, r.outcome, authenticated || r.authenticated))
        else Continue(r.sniffer, next, header.Key(), true)
  }

  ghost predicate Forward<K>(packet: Bytes, offset: nat, step: Step<K>)
  {
    step.Continue? ==> offset < step.next <= offset + |packet|
  }

  /** The packet that starts at `offset` of its datagram. */
  ghost function IngestPacket<K>(
    p: Protection<K>, normalize: Hello.Normalizer, s: Sniffer<K>,
    packet: Bytes, offset: nat, connection: Option<ConnectionKey>, authenticated: bool)
    : (r: Step<K>)
    ensures Forward(packet, offset, r)
  {
    match ParseLongHeader(packet)
    case None =>
      Stop(Ingested(s, if connection.Some? then TryHello(normalize, s.view) else NotMatched, authenticated))
    case Some(header) => IngestParsed(p, normalize, s, packet, header, offset, connection, authenticated)
  }

  type PacketFunction<!K> = (Sniffer<K>, Bytes, nat, Option<ConnectionKey>, bool) -> Step<K>

  ghost predicate MovesOn<K(!new)>(take: PacketFunction<K>)
  {
    forall s, packet, offset, connection, authenticated ::
      Forward(packet, offset, take(s, packet, offset, connection, authenticated))
  }

  /** Packet after packet from `offset` on, for any way of ingesting one packet. */
  ghost function IngestWith<K(!new)>(
    take: PacketFunction<K>, normalize: Hello.Normalizer, s: Sniffer<K>,
    datagram: Bytes, offset: nat, connection: Option<ConnectionKey>, authenticated: bool)
    : (r: Ingested<K>)
    requires offset <= |datagram| && MovesOn(take)
    decreases |datagram| - offset
  {
    if offset == |datagram| then Ingested(s, TryHello(normalize, s.view), authenticated)
    else
      var packet := datagram[offset..];
      assert Forward(packet, offset, take(s, packet, offset, connection, authenticated));
      match take(s, packet, offset, connection, authenticated)
      case Stop(result) => result
      case Continue(sniffer, next, key, authenticated') =>
        IngestWith(take, normalize, sniffer, datagram, next, Some(key), authenticated')
  }

  ghost function TakePacket<K(!new)>(p: Protection<K>, normalize: Hello.Normalizer): (take: PacketFunction<K>)
    ensures MovesOn(take)
  {
    (s, packet, offset: nat, connection, authenticated) =>
      IngestPacket(p, normalize, s, packet, offset, connection, authenticated)
  }

  /** `ingest`: every long-header packet coalesced into one datagram. */
  ghost function Ingest<K(!new)>(p: Protection<K>, normalize: Hello.Normalizer, s: Sniffer<K>, datagram: Bytes): (r: Ingested<K>)
  {
    IngestWith(TakePacket(p, normalize), normalize, s, datagram, 0, None, false)
  }

  // ------------------------------------------------- the two walkers agree

  ghost function Reached<K>(step: Step<K>): (s: Sniffer<K>)
  {
    if step.Stop? then step.result.sniffer else step.sniffer
  }

  ghost predicate KeptKeys<K>(s: Sniffer<K>, step: Step<K>)
  {
    s.initial.Some? ==> Reached(step).initial == s.initial
  }

  ghost predicate KeepsKeys<K(!new)>(take: PacketFunction<K>)
  {
    forall s, packet, offset, connection, authenticated ::
      KeptKeys(s, take(s, packet, offset, connection, authenticated))
  }

  lemma {:induction false} KeysAreKept<K(!new)>(
    take: PacketFunction<K>, normalize: Hello.Normalizer, s: Sniffer<K>,
    datagram: Bytes, offset: nat, connection: Option<ConnectionKey>, authenticated: bool)
    requires offset <= |datagram| && s.initial.Some? && MovesOn(take) && KeepsKeys(take)
    ensures IngestWith(take, normalize, s, datagram, offset, connection, authenticated).sniffer.initial == s.initial
    decreases |datagram| - offset
  {
    if offset < |datagram| {
      var step := take(s, datagram[offset..], offset, connection, authenticated);
      assert Forward(datagram[offset..], offset, step) && KeptKeys(s, step);
      match step
      case Stop(_) =>
      case Continue(sniffer, next, key, authenticated') =>
        KeysAreKept(take, normalize, sniffer, datagram, next, Some(key), authenticated');
    }
  }

  lemma PacketsKeepKeys<K(!new)>(p: Protection<K>, normalize: Hello.Normalizer)
    ensures KeepsKeys(TakePacket(p, normalize))
  {
    forall s, packet, offset, connection, authenticated
      ensures KeptKeys(s, TakePacket(p, normalize)(s, packet, offset, connection, authenticated))
    {
      PacketKeepsKeys(p, normalize, s, packet, offset, connection, authenticated);
    }
  }

  lemma PacketKeepsKeys<K>(
    p: Protection<K>, normalize: Hello.Normalizer, s: Sniffer<K>,
    packet: Bytes, offset: nat, connection: Option<ConnectionKey>, authenticated: bool)
    ensures KeptKeys(s, IngestPacket(p, normalize, s, packet, offset, connection, authenticated))
  {
  }

  /** Keys that open an Initial of `key`, given the keys known before. */
  ghost predicate KeysMatch<K>(p: Protection<K>, before: Option<Context<K>>, after: Option<Context<K>>, key: ConnectionKey)
    requires ParsedKey(key)
  {
    && after.Some? && after.value.wireVersion == key.wireVersion
    && (before.Some? ==> after == before)
    && (before.None? ==> after.value.keys == p.derive(key.dcid, FromWire(key.wireVersion).value))
  }

  /** The identity walk stops at an Initial whose keys the sniffer holds. */
  ghost predicate ObservedWith<K>(p: Protection<K>, before: Sniffer<K>, after: Sniffer<K>, observed: Observation)
    requires observed.Initial? ==> ParsedKey(observed.key)
  {
    observed.Initial? && KeysMatch(p, before.initial, after.initial, observed.key)
  }

  /** A packet whose header has been parsed authenticates as the Initial of that header, or is passed over. */
  lemma ParsedAgrees<K>(
    p: Protection<K>, normalize: Hello.Normalizer, s: Sniffer<K>,
    packet: Bytes, header: LongHeader, offset: nat, connection: Option<ConnectionKey>)
    requires ParsedKey(header.Key()) && FromWire(header.wireVersion) == Some(header.version)
    requires header.initial.Some? ==>
      var i := header.initial.value;
      0 < i.packetNumberOffset && i.packetNumberOffset + 17 <= i.packetEnd <= |packet|
    ensures var step := IngestParsed(p, normalize, s, packet, header, offset, connection, false);
      && (step.Stop? && step.result.authenticated ==>
            header.initial.Some? && KeysMatch(p, s.initial, step.result.sniffer.initial, header.Key()))
      && (step.Continue? && step.authenticated ==>
            header.initial.Some? && KeysMatch(p, s.initial, step.sniffer.initial, header.Key()))
      && (step.Continue? && !step.authenticated ==>
            step.sniffer == s && header.initial.None? && header.packetEnd == Some(step.next - offset))
  {
  }

  /** One packet: it authenticates exactly the Initial the identity walk stops at, or both walk on. */
  ghost predicate PacketAgrees<K>(p: Protection<K>, s: Sniffer<K>, offset: nat, step: Step<K>, g: Glance)
  {
    && (g.Settled? && g.observation.Initial? ==> ParsedKey(g.observation.key))
    && (step.Stop? && step.result.authenticated ==>
          g.Settled? && ObservedWith(p, s, step.result.sniffer, g.observation))
    && (step.Continue? && step.authenticated ==> g.Settled? && ObservedWith(p, s, step.sniffer, g.observation))
    && (step.Continue? && !step.authenticated ==>
          step.sniffer == s && step.next > offset && g == Onward(step.next - offset))
  }

  ghost predicate Agree<K(!new)>(p: Protection<K>, take: PacketFunction<K>, look: Bytes -> Glance)
  {
    forall s, packet, offset, connection ::
      PacketAgrees(p, s, offset, take(s, packet, offset, connection, false), look(packet))
  }

  lemma PacketsAgree<K(!new)>(p: Protection<K>, normalize: Hello.Normalizer)
    ensures Agree(p, TakePacket(p, normalize), Look)
  {
    LookMirrors();
    forall s, packet, offset, connection
      ensures PacketAgrees(p, s, offset, TakePacket(p, normalize)(s, packet, offset, connection, false), Look(packet))
    {
      LooksAgree(p, normalize, s, packet, offset, connection, Look);
    }
  }

  lemma LooksAgree<K>(
    p: Protection<K>, normalize: Hello.Normalizer, s: Sniffer<K>,
    packet: Bytes, offset: nat, connection: Option<ConnectionKey>, look: Bytes -> Glance)
    requires Mirrors(look)
    ensures PacketAgrees(p, s, offset, IngestPacket(p, normalize, s, packet, offset, connection, false), look(packet))
  {
    assert Sensible(packet, look(packet));
    var header := ParseLongHeader(packet);
    if header.Some? {
      ParsedAgrees(p, normalize, s, packet, header.value, offset, connection);
      assert Mirrored(header.value, look(packet));
    }
  }

  lemma {:induction false} WalkersAgreeFrom<K(!new)>(
    p: Protection<K>, take: PacketFunction<K>, look: Bytes -> Glance, normalize: Hello.Normalizer, s: Sniffer<K>,
    datagram: Bytes, offset: nat, connection: Option<ConnectionKey>)
    requires offset <= |datagram| && MovesOn(take) && KeepsKeys(take) && Proper(look) && Agree(p, take, look)
    ensures var r := IngestWith(take, normalize, s, datagram, offset, connection, false);
      r.authenticated ==> ObservedWith(p, s, r.sniffer, Walk(datagram, offset, look))
    decreases |datagram| - offset
  {
    if offset < |datagram| {
      var step := take(s, datagram[offset..], offset, connection, false);
      assert Forward(datagram[offset..], offset, step);
      assert PacketAgrees(p, s, offset, step, look(datagram[offset..]));
      match step
      case Stop(_) =>
      case Continue(sniffer, next, key, authenticated) =>
        if authenticated {
          KeysAreKept(take, normalize, sniffer, datagram, next, Some(key), true);
        } else {
          WalkersAgreeFrom(p, take, look, normalize, sniffer, datagram, next, Some(key));
        }
    }
  }

  /**
    If ingesting authenticates an Initial, the independent identity walk names
    that very Initial: a fresh sniffer's keys come from the observed version and DCID.
   */
  lemma WalkersAgree<K(!new)>(p: Protection<K>, normalize: Hello.Normalizer, s: Sniffer<K>, datagram: Bytes)
    ensures var r := Ingest(p, normalize, s, datagram);
      r.authenticated ==>
        && ObservedKey(datagram).Some?
        && KeysMatch(p, s.initial, r.sniffer.initial, ObservedKey(datagram).value)
  {
    PacketsKeepKeys(p, normalize);
    PacketsAgree(p, normalize);
    WalkersAgreeFrom(p, TakePacket(p, normalize), Look, normalize, s, datagram, 0, None);
  }

  // --------------------------------------------------- decisions are kept

  lemma InitialExtends<K>(p: Protection<K>, normalize: Hello.Normalizer, s: Sniffer<K>, packet: Bytes, header: LongHeader)
    requires header.initial.Some?
    requires var i := header.initial.value;
      0 < i.packetNumberOffset && i.packetNumberOffset + 17 <= i.packetEnd <= |packet|
    ensures Extends(IngestInitial(p, normalize, s, packet, header).sniffer.view, s.view)
  {
    var context := KeysFor(p, s.initial, header);
    if context.Some? {
      var clear := DecryptInitial(p, packet, header.initial.value, context.value.keys, s.largest);
      if clear.Some? {
        ApplyExtends(s.view, ParsePayload(clear.value.plaintext, 0));
      }
    }
  }

  ghost predicate OnlyExtends<K(!new)>(take: PacketFunction<K>)
  {
    forall s, packet, offset, connection, authenticated ::
      Extends(Reached(take(s, packet, offset, connection, authenticated)).view, s.view)
  }

  lemma PacketsExtend<K(!new)>(p: Protection<K>, normalize: Hello.Normalizer)
    ensures OnlyExtends(TakePacket(p, normalize))
  {
    forall s, packet, offset, connection, authenticated
      ensures Extends(Reached(TakePacket(p, normalize)(s, packet, offset, connection, authenticated)).view, s.view)
    {
      PacketExtends(p, normalize, s, packet, offset, connection, authenticated);
    }
  }

  lemma PacketExtends<K>(
    p: Protection<K>, normalize: Hello.Normalizer, s: Sniffer<K>,
    packet: Bytes, offset: nat, connection: Option<ConnectionKey>, authenticated: bool)
    ensures Extends(Reached(IngestPacket(p, normalize, s, packet, offset, connection, authenticated)).view, s.view)
  {
    var header := ParseLongHeader(packet);
    if header.Some? && header.value.initial.Some? {
      InitialExtends(p, normalize, s, packet, header.value);
    }
  }

  lemma {:induction false} IngestExtends<K(!new)>(
    take: PacketFunction<K>, normalize: Hello.Normalizer, s: Sniffer<K>,
    datagram: Bytes, offset: nat, connection: Option<ConnectionKey>, authenticated: bool)
    requires offset <= |datagram| && MovesOn(take) && OnlyExtends(take)
    ensures Extends(IngestWith(take, normalize, s, datagram, offset, connection, authenticated).sniffer.view, s.view)
    decreases |datagram| - offset
  {
    if offset < |datagram| {
      var step := take(s, datagram[offset..], offset, connection, authenticated);
      assert Forward(datagram[offset..], offset, step) && Extends(Reached(step).view, s.view);
      match step
      case Stop(_) =>
      case Continue(sniffer, next, key, authenticated') =>
        IngestExtends(take, normalize, sniffer, datagram, next, Some(key), authenticated');
        ExtendsThrough(
          IngestWith(take, normalize, sniffer, datagram, next, Some(key), authenticated').sniffer.view,
          sniffer.view, s.view);
    }
  }

  /** The sniffer after a whole list of datagrams. */
  ghost function IngestEach<K(!new)>(p: Protection<K>, normalize: Hello.Normalizer, s: Sniffer<K>, datagrams: seq<Bytes>)
    : (r: Sniffer<K>)
    decreases |datagrams|
  {
    if |datagrams| == 0 then s
    else IngestEach(p, normalize, Ingest(p, normalize, s, datagrams[0]).sniffer, datagrams[1..])
  }

  /** What the stream has decided stays decided, whatever datagrams come later. */
  lemma {:induction false} DecisionSurvives<K(!new)>(
    p: Protection<K>, normalize: Hello.Normalizer, s: Sniffer<K>, datagrams: seq<Bytes>)
    requires TryHello(normalize, s.view) != NeedMoreData
    ensures TryHello(normalize, IngestEach(p, normalize, s, datagrams).view) == TryHello(normalize, s.view)
    decreases |datagrams|
  {
    if |datagrams| > 0 {
      var next := Ingest(p, normalize, s, datagrams[0]).sniffer;
      PacketsExtend(p, normalize);
      IngestExtends(TakePacket(p, normalize), normalize, s, datagrams[0], 0, None, false);
      DecisionPersists(normalize, next.view, s.view);
      DecisionSurvives(p, normalize, next, datagrams[1..]);
    }
  }
}
