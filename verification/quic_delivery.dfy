/**
  What a run of datagrams decides. When every Initial of a connection attempt
  opens and its frames parse, the verdict depends on nothing but the CRYPTO
  fragments: not on how they are spread over frames, packets and datagrams, and
  not on the point at which the sniffer stops reading.
 */
module QuicDelivery {
  import opened Base
  import opened QuicWire
  import opened CryptoStream
  import opened QuicFrames
  import opened QuicSniffer
  import Hello = ClientHello

  // ------------------------------------------------ opening without deciding

  /** The keys and the largest packet number after some packets, and the payloads they opened to. */
  datatype Delivery<K> = Delivery(initial: Option<Context<K>>, largest: Option<nat>, payloads: seq<Bytes>)
  {
    function Before(payload: Bytes): (r: Delivery<K>)
    {
      this.(payloads := [payload] + payloads)
    }
  }

  /**
    What a packet gives: a refusal of the whole datagram, a suffix that ends it, a
    packet to pass over, or an opened Initial.
   */
  datatype Opening<K> =
    | Closed
    | Over
    | PassedOver(next: nat, key: ConnectionKey)
    | OpenedInitial(next: nat, key: ConnectionKey, context: Context<K>, clear: Opened)

  ghost predicate OpensForward<K>(packet: Bytes, offset: nat, opening: Opening<K>)
  {
    !opening.Closed? && !opening.Over? ==> offset < opening.next <= offset + |packet|
  }

  /**
    Behind a parsed packet, a short header, a packet of another connection or a
    Retry ends the datagram. An Initial that does not open closes it.
   */
  function OpenPacket<K>(
    p: Protection<K>, initial: Option<Context<K>>, largest: Option<nat>,
    packet: Bytes, offset: nat, connection: Option<ConnectionKey>)
    : (r: Opening<K>)
    ensures OpensForward(packet, offset, r)
  {
    match ParseLongHeader(packet)
    case None => if connection.Some? then Over else Closed
    case Some(header) =>
      if connection.Some? && connection.value != header.Key() then Over
      else if header.packetEnd.None? then if offset == 0 then Closed else Over
      else
        var next := offset + header.packetEnd.value;
        if header.initial.None? then PassedOver(next, header.Key())
        else match KeysFor(p, initial, header)
          case None => Closed
          case Some(context) =>
            match DecryptInitial(p, packet, header.initial.value, context.keys, largest)
            case None => Closed
            case Some(clear) => OpenedInitial(next, header.Key(), context, clear)
  }

  type PacketOpener<!K> = (Option<Context<K>>, Option<nat>, Bytes, nat, Option<ConnectionKey>) -> Opening<K>

  ghost predicate OpensOn<K(!new)>(open: PacketOpener<K>)
  {
    forall initial, largest, packet, offset, connection ::
      OpensForward(packet, offset, open(initial, largest, packet, offset, connection))
  }

  /** Opens the packets from `offset` on; none when one of them is closed. */
  ghost function OpenWith<K(!new)>(
    open: PacketOpener<K>, initial: Option<Context<K>>, largest: Option<nat>,
    datagram: Bytes, offset: nat, connection: Option<ConnectionKey>)
    : (r: Option<Delivery<K>>)
    requires offset <= |datagram| && OpensOn(open)
    decreases |datagram| - offset
  {
    if offset == |datagram| then Some(Delivery(initial, largest, []))
    else
      var packet := datagram[offset..];
      assert OpensForward(packet, offset, open(initial, largest, packet, offset, connection));
      match open(initial, largest, packet, offset, connection)
      case Closed => None
      case Over => Some(Delivery(initial, largest, []))
      case PassedOver(next, key) => OpenWith(open, initial, largest, datagram, next, Some(key))
      case OpenedInitial(next, key, context, clear) =>
        match OpenWith(open, Some(context), MaxNumber(largest, clear.packetNumber), datagram, next, Some(key))
        case None => None
        case Some(rest) => Some(rest.Before(clear.plaintext))
  }

  ghost function UsePacket<K(!new)>(p: Protection<K>): (open: PacketOpener<K>)
    ensures OpensOn(open)
  {
    (initial, largest, packet, offset: nat, connection) =>
      OpenPacket(p, initial, largest, packet, offset, connection)
  }

  /** How one datagram opens, given the keys and the largest packet number before it. */
  type Opener<!K> = (Option<Context<K>>, Option<nat>, Bytes) -> Option<Delivery<K>>

  ghost function DatagramOpener<K(!new)>(p: Protection<K>): (open: Opener<K>)
  {
    (initial, largest, datagram) => OpenWith(UsePacket(p), initial, largest, datagram, 0, None)
  }

  /** The payloads of all the datagrams, in order. */
  function OpenEach<K>(open: Opener<K>, initial: Option<Context<K>>, largest: Option<nat>, datagrams: seq<Bytes>)
    : (r: Option<seq<Bytes>>)
    decreases |datagrams|
  {
    if |datagrams| == 0 then Some([])
    else match open(initial, largest, datagrams[0])
      case None => None
      case Some(first) =>
        match OpenEach(open, first.initial, first.largest, datagrams[1..])
        case None => None
        case Some(rest) => Some(first.payloads + rest)
  }

  ghost function OpenAll<K(!new)>(p: Protection<K>, datagrams: seq<Bytes>): (r: Option<seq<Bytes>>)
  {
    OpenEach(DatagramOpener(p), None, None, datagrams)
  }

  /** The fragments of payloads that are all parsed to their end, for any way of parsing one. */
  function Gathered(parse: Bytes -> Payload, payloads: seq<Bytes>): (r: Option<seq<Fragment>>)
  {
    if |payloads| == 0 then Some([])
    else
      var first := parse(payloads[0]);
      match Gathered(parse, payloads[1..])
      case None => None
      case Some(rest) => if first.outcome != NeedMoreData then None else Some(first.fragments + rest)
  }

  function Parse(payload: Bytes): (r: Payload)
  {
    ParsePayload(payload, 0)
  }

  function FragmentsOf(payloads: seq<Bytes>): (r: Option<seq<Fragment>>)
  {
    Gathered(Parse, payloads)
  }

  /** How one datagram is ingested. */
  type Ingester<!K> = (Sniffer<K>, Bytes) -> Ingested<K>

  ghost function DatagramIngester<K(!new)>(p: Protection<K>, normalize: Hello.Normalizer): (ingest: Ingester<K>)
  {
    (s, datagram) => Ingest(p, normalize, s, datagram)
  }

  /** Datagrams are ingested until one of them decides. */
  ghost function JudgedBy<K>(ingest: Ingester<K>, s: Sniffer<K>, datagrams: seq<Bytes>): (r: Outcome)
    decreases |datagrams|
  {
    if |datagrams| == 0 then NeedMoreData
    else
      var r := ingest(s, datagrams[0]);
      if r.outcome != NeedMoreData then r.outcome else JudgedBy(ingest, r.sniffer, datagrams[1..])
  }

  /** The verdict of a fresh sniffer on a run. */
  ghost function Judged<K(!new)>(p: Protection<K>, normalize: Hello.Normalizer, datagrams: seq<Bytes>): (r: Outcome)
  {
    JudgedBy(DatagramIngester(p, normalize), Fresh(), datagrams)
  }

  // ------------------------------------------------------ accepted fragments

  lemma {:induction false} AcceptedPrefix(done: seq<Fragment>, more: seq<Fragment>)
    requires InsertAll(done + more).Ok?
    ensures InsertAll(done).Ok?
    ensures Extends(InsertAll(done + more).value, InsertAll(done).value)
    decreases |more|
  {
    if |more| == 0 {
      assert done + more == done;
    } else {
      var n := |more| - 1;
      var front := done + more[..n];
      assert (done + more)[..|front|] == front;
      AcceptedPrefix(done, more[..n]);
      InsertExtends(InsertAll(front).value, more[n]);
      ExtendsThrough(InsertAll(done + more).value, InsertAll(front).value, InsertAll(done).value);
    }
  }

  lemma AcceptedNext(done: seq<Fragment>, next: Fragment)
    requires InsertAll(done).Ok?
    ensures InsertAll(done + [next]) == Insert(InsertAll(done).value, next)
  {
    assert (done + [next])[..|done|] == done;
  }

  /** A payload of acceptable fragments leaves exactly the stream of all of them. */
  lemma {:induction false} PayloadAccepted(done: seq<Fragment>, payload: Payload)
    requires InsertAll(done).Ok? && InsertAll(done + payload.fragments).Ok?
    ensures ApplyPayload(InsertAll(done).value, payload) == (InsertAll(done + payload.fragments).value, payload.outcome)
    decreases |payload.fragments|
  {
    var fragments := payload.fragments;
    if |fragments| == 0 {
      assert done + fragments == done;
    } else {
      var rest := payload.(fragments := fragments[1..]);
      var grown := done + [fragments[0]];
      assert done + fragments == grown + fragments[1..];
      AcceptedPrefix(grown, fragments[1..]);
      AcceptedNext(done, fragments[0]);
      PayloadAccepted(grown, rest);
    }
  }

  // ------------------------------------------------------------ one datagram

  /** The sniffer holds exactly the stream of the fragments delivered so far. */
  ghost predicate Holding<K>(s: Sniffer<K>, done: seq<Fragment>)
  {
    InsertAll(done) == Ok(s.view)
  }

  lemma FreshHolds<K>(normalize: Hello.Normalizer, s: Sniffer<K>)
    requires s == Fresh()
    ensures Holding(s, []) && TryHello(normalize, s.view) == NeedMoreData
  {
    assert !Have(s.view, 4) by {
      assert 0 !in s.view;
    }
  }

  lemma InitialDelivered<K>(
    p: Protection<K>, normalize: Hello.Normalizer, s: Sniffer<K>, packet: Bytes, header: LongHeader,
    context: Context<K>, clear: Opened, done: seq<Fragment>)
    requires header.initial.Some?
    requires var i := header.initial.value;
      0 < i.packetNumberOffset && i.packetNumberOffset + 17 <= i.packetEnd <= |packet|
    requires KeysFor(p, s.initial, header) == Some(context)
    requires DecryptInitial(p, packet, header.initial.value, context.keys, s.largest) == Some(clear)
    requires var payload := ParsePayload(clear.plaintext, 0);
      payload.outcome == NeedMoreData && Holding(s, done) && InsertAll(done + payload.fragments).Ok?
    ensures var view := InsertAll(done + ParsePayload(clear.plaintext, 0).fragments).value;
      IngestInitial(p, normalize, s, packet, header)
      == Ingested(Sniffer(Some(context), MaxNumber(s.largest, clear.packetNumber), view), TryHello(normalize, view), true)
  {
    PayloadAccepted(done, ParsePayload(clear.plaintext, 0));
  }

  /** A decided stream stays decided when the remaining fragments join it. */
  lemma DecidedEarly(normalize: Hello.Normalizer, done: seq<Fragment>, more: seq<Fragment>)
    requires InsertAll(done + more).Ok?
    ensures InsertAll(done).Ok?
    ensures TryHello(normalize, InsertAll(done).value) != NeedMoreData ==>
      TryHello(normalize, InsertAll(done + more).value) == TryHello(normalize, InsertAll(done).value)
  {
    AcceptedPrefix(done, more);
    if TryHello(normalize, InsertAll(done).value) != NeedMoreData {
      DecisionPersists(normalize, InsertAll(done + more).value, InsertAll(done).value);
    }
  }

  lemma FirstGathered(parse: Bytes -> Payload, payload: Bytes, rest: seq<Bytes>)
    ensures Gathered(parse, [payload] + rest).Some? <==>
      parse(payload).outcome == NeedMoreData && Gathered(parse, rest).Some?
    ensures Gathered(parse, [payload] + rest).Some? ==>
      Gathered(parse, [payload] + rest).value == parse(payload).fragments + Gathered(parse, rest).value
  {
    assert ([payload] + rest)[1..] == rest;
  }

  /** The rest of a datagram is judged as the stream of everything it delivers. */
  ghost predicate Delivers<K>(
    r: Ingested<K>, delivery: Delivery<K>, normalize: Hello.Normalizer, all: seq<Fragment>, authenticated: bool)
    requires InsertAll(all).Ok?
  {
    var view := InsertAll(all).value;
    && r.outcome == TryHello(normalize, view)
    && (r.authenticated <==> authenticated || delivery.payloads != [])
    && (r.outcome == NeedMoreData ==> r.sniffer == Sniffer(delivery.initial, delivery.largest, view))
  }

  /** The sniffer after an opened Initial has been applied. */
  ghost function After<K>(s: Sniffer<K>, context: Context<K>, clear: Opened, view: View): (r: Sniffer<K>)
  {
    Sniffer(Some(context), MaxNumber(s.largest, clear.packetNumber), view)
  }

  /** A packet is ingested as it opens. */
  ghost predicate TakenAsOpened<K>(
    s: Sniffer<K>, opening: Opening<K>, parse: Bytes -> Payload, normalize: Hello.Normalizer,
    done: seq<Fragment>, authenticated: bool, step: Step<K>)
  {
    match opening
    case Closed => true
    case Over => step == Stop(Ingested(s, TryHello(normalize, s.view), authenticated))
    case PassedOver(next, key) => step == Continue(s, next, key, authenticated)
    case OpenedInitial(next, key, context, clear) =>
      var payload := parse(clear.plaintext);
      payload.outcome == NeedMoreData && Holding(s, done) && InsertAll(done + payload.fragments).Ok? ==>
        var view := InsertAll(done + payload.fragments).value;
        var s', outcome := After(s, context, clear, view), TryHello(normalize, view);
        step == if outcome == NeedMoreData then Continue(s', next, key, true) else Stop(Ingested(s', outcome, true))
  }

  ghost predicate TakesAsOpens<K(!new)>(
    open: PacketOpener<K>, take: PacketFunction<K>, parse: Bytes -> Payload, normalize: Hello.Normalizer)
  {
    forall s: Sniffer<K>, packet, offset, connection, authenticated, done ::
      TakenAsOpened(
        s, open(s.initial, s.largest, packet, offset, connection), parse, normalize,
        done, authenticated, take(s, packet, offset, connection, authenticated))
  }

  lemma PacketTakenAsOpened<K>(
    p: Protection<K>, normalize: Hello.Normalizer, s: Sniffer<K>, packet: Bytes, offset: nat,
    connection: Option<ConnectionKey>, authenticated: bool, done: seq<Fragment>)
    ensures TakenAsOpened(
      s, OpenPacket(p, s.initial, s.largest, packet, offset, connection), Parse, normalize,
      done, authenticated, IngestPacket(p, normalize, s, packet, offset, connection, authenticated))
  {
    var opening := OpenPacket(p, s.initial, s.largest, packet, offset, connection);
    if opening.OpenedInitial? {
      var payload := Parse(opening.clear.plaintext);
      if payload.outcome == NeedMoreData && Holding(s, done) && InsertAll(done + payload.fragments).Ok? {
        var header := ParseLongHeader(packet).value;
        InitialDelivered(p, normalize, s, packet, header, opening.context, opening.clear, done);
      }
    }
  }

  lemma PacketsTakenAsOpened<K(!new)>(p: Protection<K>, normalize: Hello.Normalizer)
    ensures TakesAsOpens(UsePacket(p), TakePacket(p, normalize), Parse, normalize)
  {
    forall s: Sniffer<K>, packet, offset, connection, authenticated, done
      ensures TakenAsOpened(
        s, UsePacket(p)(s.initial, s.largest, packet, offset, connection), Parse, normalize,
        done, authenticated, TakePacket(p, normalize)(s, packet, offset, connection, authenticated))
    {
      PacketTakenAsOpened(p, normalize, s, packet, offset, connection, authenticated, done);
    }
  }

  lemma {:induction false} DatagramDelivered<K(!new)>(
    open: PacketOpener<K>, take: PacketFunction<K>, parse: Bytes -> Payload, normalize: Hello.Normalizer, s: Sniffer<K>,
    datagram: Bytes, offset: nat, connection: Option<ConnectionKey>, authenticated: bool,
    delivery: Delivery<K>, done: seq<Fragment>, got: seq<Fragment>)
    requires offset <= |datagram| && OpensOn(open) && MovesOn(take) && TakesAsOpens(open, take, parse, normalize)
    requires OpenWith(open, s.initial, s.largest, datagram, offset, connection) == Some(delivery)
    requires Gathered(parse, delivery.payloads) == Some(got)
    requires Holding(s, done) && InsertAll(done + got).Ok?
    ensures Delivers(IngestWith(take, normalize, s, datagram, offset, connection, authenticated), delivery, normalize, done + got, authenticated)
    decreases |datagram| - offset
  {
    if offset == |datagram| {
      assert done + got == done;
    } else {
      var packet := datagram[offset..];
      var opening := open(s.initial, s.largest, packet, offset, connection);
      var step := take(s, packet, offset, connection, authenticated);
      assert OpensForward(packet, offset, opening) && Forward(packet, offset, step);
      assert TakenAsOpened(s, opening, parse, normalize, done, authenticated, step);
      match opening
      case Over =>
        assert done + got == done;
      case PassedOver(next, key) =>
        DatagramDelivered(open, take, parse, normalize, s, datagram, next, Some(key), authenticated, delivery, done, got);
      case OpenedInitial(next, key, context, clear) =>
        var rest := OpenWith(open, Some(context), MaxNumber(s.largest, clear.packetNumber), datagram, next, Some(key)).value;
        FirstGathered(parse, clear.plaintext, rest.payloads);
        var first, later := parse(clear.plaintext).fragments, Gathered(parse, rest.payloads).value;
        assert done + got == (done + first) + later;
        DecidedEarly(normalize, done + first, later);
        var view := InsertAll(done + first).value;
        if TryHello(normalize, view) == NeedMoreData {
          DatagramDelivered(
            open, take, parse, normalize, After(s, context, clear, view),
            datagram, next, Some(key), true, rest, done + first, later);
        }
    }
  }

  // --------------------------------------------------------------- whole runs

  lemma {:induction false} SplitGathered(parse: Bytes -> Payload, first: seq<Bytes>, rest: seq<Bytes>)
    requires Gathered(parse, first + rest).Some?
    ensures Gathered(parse, first).Some? && Gathered(parse, rest).Some?
    ensures Gathered(parse, first + rest).value == Gathered(parse, first).value + Gathered(parse, rest).value
  {
    if |first| == 0 {
      assert first + rest == rest;
    } else {
      assert first + rest == [first[0]] + (first[1..] + rest);
      assert first == [first[0]] + first[1..];
      FirstGathered(parse, first[0], first[1..] + rest);
      SplitGathered(parse, first[1..], rest);
    }
  }

  /** Ingesting a datagram agrees with opening it. */
  ghost predicate Agrees<K(!new)>(open: Opener<K>, ingest: Ingester<K>, parse: Bytes -> Payload, normalize: Hello.Normalizer)
  {
    forall s, datagram, done :: AgreesOn(open, ingest, parse, normalize, s, datagram, done)
  }

  ghost predicate AgreesOn<K>(
    open: Opener<K>, ingest: Ingester<K>, parse: Bytes -> Payload, normalize: Hello.Normalizer,
    s: Sniffer<K>, datagram: Bytes, done: seq<Fragment>)
  {
    var delivered := open(s.initial, s.largest, datagram);
    delivered.Some? && Gathered(parse, delivered.value.payloads).Some? && Holding(s, done) ==>
      var all := done + Gathered(parse, delivered.value.payloads).value;
      InsertAll(all).Ok? ==> Delivers(ingest(s, datagram), delivered.value, normalize, all, false)
  }

  lemma IngestAgrees<K(!new)>(p: Protection<K>, normalize: Hello.Normalizer)
    ensures Agrees(DatagramOpener(p), DatagramIngester(p, normalize), Parse, normalize)
  {
    PacketsTakenAsOpened(p, normalize);
    forall s, datagram, done
      ensures AgreesOn(DatagramOpener(p), DatagramIngester(p, normalize), Parse, normalize, s, datagram, done)
    {
      var delivered := OpenWith(UsePacket(p), s.initial, s.largest, datagram, 0, None);
      if delivered.Some? && FragmentsOf(delivered.value.payloads).Some? && Holding(s, done) {
        var got := FragmentsOf(delivered.value.payloads).value;
        if InsertAll(done + got).Ok? {
          DatagramDelivered(
            UsePacket(p), TakePacket(p, normalize), Parse, normalize, s, datagram, 0, None, false, delivered.value, done, got);
        }
      }
    }
  }

  /** Every datagram opens at least one Initial. */
  ghost predicate EachOpens<K>(open: Opener<K>, initial: Option<Context<K>>, largest: Option<nat>, datagrams: seq<Bytes>)
    decreases |datagrams|
  {
    |datagrams| == 0 ||
    (var first := open(initial, largest, datagrams[0]);
     first.Some? && first.value.payloads != [] && EachOpens(open, first.value.initial, first.value.largest, datagrams[1..]))
  }

  /** A sniffer that has not decided and holds `done`, with datagrams before it that deliver `got`. */
  ghost predicate Ahead<K>(
    open: Opener<K>, parse: Bytes -> Payload, normalize: Hello.Normalizer,
    s: Sniffer<K>, datagrams: seq<Bytes>, payloads: seq<Bytes>, done: seq<Fragment>, got: seq<Fragment>)
  {
    && OpenEach(open, s.initial, s.largest, datagrams) == Some(payloads) && Gathered(parse, payloads) == Some(got)
    && Holding(s, done) && TryHello(normalize, s.view) == NeedMoreData && InsertAll(done + got).Ok?
  }

  /** The first datagram decides for all of them, or leaves the others ahead. */
  lemma RunStep<K(!new)>(
    open: Opener<K>, ingest: Ingester<K>, parse: Bytes -> Payload, normalize: Hello.Normalizer,
    s: Sniffer<K>, datagrams: seq<Bytes>, payloads: seq<Bytes>, done: seq<Fragment>, got: seq<Fragment>)
    returns (rest: seq<Bytes>, now: seq<Fragment>, later: seq<Fragment>)
    requires Agrees(open, ingest, parse, normalize) && |datagrams| > 0
    requires Ahead(open, parse, normalize, s, datagrams, payloads, done, got)
    ensures done + got == (done + now) + later
    ensures var r := ingest(s, datagrams[0]);
      && (r.outcome != NeedMoreData ==> r.outcome == TryHello(normalize, InsertAll(done + got).value))
      && (r.outcome == NeedMoreData ==>
            Ahead(open, parse, normalize, r.sniffer, datagrams[1..], rest, done + now, later))
      && (EachOpens(open, s.initial, s.largest, datagrams) ==>
            && r.authenticated
            && (r.outcome == NeedMoreData ==> EachOpens(open, r.sniffer.initial, r.sniffer.largest, datagrams[1..])))
  {
    var first := open(s.initial, s.largest, datagrams[0]).value;
    rest := OpenEach(open, first.initial, first.largest, datagrams[1..]).value;
    SplitGathered(parse, first.payloads, rest);
    now, later := Gathered(parse, first.payloads).value, Gathered(parse, rest).value;
    Associate(done, now, later);
    DecidedEarly(normalize, done + now, later);
    assert AgreesOn(open, ingest, parse, normalize, s, datagrams[0], done);
  }

  lemma {:induction false} RunDelivered<K(!new)>(
    open: Opener<K>, ingest: Ingester<K>, parse: Bytes -> Payload, normalize: Hello.Normalizer,
    s: Sniffer<K>, datagrams: seq<Bytes>, payloads: seq<Bytes>, done: seq<Fragment>, got: seq<Fragment>)
    requires Agrees(open, ingest, parse, normalize)
    requires Ahead(open, parse, normalize, s, datagrams, payloads, done, got)
    ensures JudgedBy(ingest, s, datagrams) == TryHello(normalize, InsertAll(done + got).value)
    decreases |datagrams|
  {
    if |datagrams| == 0 {
      Associate(done, [], []);
    } else {
      var rest, now, later := RunStep(open, ingest, parse, normalize, s, datagrams, payloads, done, got);
      var r := ingest(s, datagrams[0]);
      if r.outcome == NeedMoreData {
        RunDelivered(open, ingest, parse, normalize, r.sniffer, datagrams[1..], rest, done + now, later);
      }
    }
  }

  /** Datagram after datagram authenticates and leaves the matter open, up to the last, which decides it. */
  ghost predicate Decides<K>(ingest: Ingester<K>, s: Sniffer<K>, datagrams: seq<Bytes>, verdict: Outcome)
    decreases |datagrams|
  {
    && |datagrams| > 0 && ingest(s, datagrams[0]).authenticated
    && var r := ingest(s, datagrams[0]);
       if |datagrams| == 1 then r.outcome == verdict
       else r.outcome == NeedMoreData && Decides(ingest, r.sniffer, datagrams[1..], verdict)
  }

  lemma DecidesLater<K>(ingest: Ingester<K>, s: Sniffer<K>, datagrams: seq<Bytes>, j: nat, verdict: Outcome)
    requires j + 1 < |datagrams|
    requires var r := ingest(s, datagrams[0]);
      r.authenticated && r.outcome == NeedMoreData && Decides(ingest, r.sniffer, datagrams[1..][..j + 1], verdict)
    ensures Decides(ingest, s, datagrams[..j + 2], verdict)
  {
    assert datagrams[..j + 2][1..] == datagrams[1..][..j + 1];
  }

  /** Datagram after datagram authenticates, up to the one that decides. */
  ghost predicate Authentic<K>(ingest: Ingester<K>, s: Sniffer<K>, datagrams: seq<Bytes>)
    decreases |datagrams|
  {
    |datagrams| == 0 ||
    (var r := ingest(s, datagrams[0]);
     r.authenticated && (r.outcome == NeedMoreData ==> Authentic(ingest, r.sniffer, datagrams[1..])))
  }

  lemma {:induction false} RunAuthentic<K(!new)>(
    open: Opener<K>, ingest: Ingester<K>, parse: Bytes -> Payload, normalize: Hello.Normalizer,
    s: Sniffer<K>, datagrams: seq<Bytes>, payloads: seq<Bytes>, done: seq<Fragment>, got: seq<Fragment>)
    requires Agrees(open, ingest, parse, normalize)
    requires Ahead(open, parse, normalize, s, datagrams, payloads, done, got)
    requires EachOpens(open, s.initial, s.largest, datagrams)
    ensures Authentic(ingest, s, datagrams)
    decreases |datagrams|
  {
    if |datagrams| > 0 {
      var rest, now, later := RunStep(open, ingest, parse, normalize, s, datagrams, payloads, done, got);
      var r := ingest(s, datagrams[0]);
      if r.outcome == NeedMoreData {
        RunAuthentic(open, ingest, parse, normalize, r.sniffer, datagrams[1..], rest, done + now, later);
      }
    }
  }

  /** The datagram at `k` is the one that decides. */
  lemma {:induction false} RunDecides<K>(ingest: Ingester<K>, s: Sniffer<K>, datagrams: seq<Bytes>) returns (k: nat)
    requires Authentic(ingest, s, datagrams) && JudgedBy(ingest, s, datagrams) != NeedMoreData
    ensures k < |datagrams| && Decides(ingest, s, datagrams[..k + 1], JudgedBy(ingest, s, datagrams))
    decreases |datagrams|
  {
    var r := ingest(s, datagrams[0]);
    if r.outcome == NeedMoreData {
      var j := RunDecides(ingest, r.sniffer, datagrams[1..]);
      DecidesLater(ingest, s, datagrams, j, JudgedBy(ingest, s, datagrams));
      k := j + 1;
    } else {
      DecidesNow(ingest, s, datagrams, r.outcome);
      k := 0;
    }
  }

  lemma DecidesNow<K>(ingest: Ingester<K>, s: Sniffer<K>, datagrams: seq<Bytes>, verdict: Outcome)
    requires |datagrams| > 0 && ingest(s, datagrams[0]).authenticated && ingest(s, datagrams[0]).outcome == verdict
    ensures Decides(ingest, s, datagrams[..1], verdict)
  {
  }

  /** The verdict of a run is the verdict on the stream of all its fragments. */
  lemma RunIsStream<K(!new)>(
    p: Protection<K>, normalize: Hello.Normalizer, datagrams: seq<Bytes>, payloads: seq<Bytes>, fragments: seq<Fragment>)
    requires OpenAll(p, datagrams) == Some(payloads)
    requires FragmentsOf(payloads) == Some(fragments) && InsertAll(fragments).Ok?
    ensures Judged(p, normalize, datagrams) == TryHello(normalize, InsertAll(fragments).value)
  {
    FreshHolds<K>(normalize, Fresh());
    IngestAgrees(p, normalize);
    assert [] + fragments == fragments;
    RunDelivered(
      DatagramOpener(p), DatagramIngester(p, normalize), Parse, normalize, Fresh(), datagrams, payloads, [], fragments);
  }

  /** Two runs that deliver the same fragments, in whatever order, packets and datagrams, get the same verdict. */
  lemma RepackagingIsInvisible<K(!new)>(
    p: Protection<K>, normalize: Hello.Normalizer,
    datagrams: seq<Bytes>, payloads: seq<Bytes>, fragments: seq<Fragment>,
    datagrams': seq<Bytes>, payloads': seq<Bytes>, fragments': seq<Fragment>)
    requires OpenAll(p, datagrams) == Some(payloads) && FragmentsOf(payloads) == Some(fragments)
    requires OpenAll(p, datagrams') == Some(payloads') && FragmentsOf(payloads') == Some(fragments')
    requires InsertAll(fragments).Ok? && InsertAll(fragments').Ok?
    requires AllIn(fragments, fragments') && AllIn(fragments', fragments)
    ensures Judged(p, normalize, datagrams) == Judged(p, normalize, datagrams')
  {
    RunIsStream(p, normalize, datagrams, payloads, fragments);
    RunIsStream(p, normalize, datagrams', payloads', fragments');
    OrderIndependent(fragments, fragments');
  }

  /** Once a run is decided, nothing that follows can change its verdict. */
  lemma {:induction false} LaterIgnored<K>(ingest: Ingester<K>, s: Sniffer<K>, datagrams: seq<Bytes>, more: seq<Bytes>)
    requires JudgedBy(ingest, s, datagrams) != NeedMoreData
    ensures JudgedBy(ingest, s, datagrams + more) == JudgedBy(ingest, s, datagrams)
    decreases |datagrams|
  {
    var r := ingest(s, datagrams[0]);
    assert (datagrams + more)[1..] == datagrams[1..] + more;
    if r.outcome == NeedMoreData {
      LaterIgnored(ingest, r.sniffer, datagrams[1..], more);
    }
  }

  // ------------------------------------------------------- a hello in frames

  /** Payloads made of valid frames. */
  function Payloads(packets: seq<seq<Frame>>): (payloads: seq<Bytes>)
    requires forall i :: 0 <= i < |packets| ==> AllFrames(packets[i])
  {
    if |packets| == 0 then [] else [EncodeFrames(packets[0])] + Payloads(packets[1..])
  }

  function AllCarried(packets: seq<seq<Frame>>): (fragments: seq<Fragment>)
  {
    if |packets| == 0 then [] else CarriedBy(packets[0]) + AllCarried(packets[1..])
  }

  lemma {:induction false} FramesDelivered(packets: seq<seq<Frame>>)
    requires forall i :: 0 <= i < |packets| ==> AllFrames(packets[i])
    ensures FragmentsOf(Payloads(packets)) == Some(AllCarried(packets))
  {
    if |packets| > 0 {
      PayloadRoundTrip(packets[0]);
      FramesDelivered(packets[1..]);
      FirstGathered(Parse, EncodeFrames(packets[0]), Payloads(packets[1..]));
    }
  }

  lemma CutsAgree(fragments: seq<Fragment>, stream: Bytes)
    requires forall i :: 0 <= i < |fragments| ==> CutFrom(fragments[i], stream)
    ensures Consistent(fragments)
  {
    forall i, j | 0 <= i < j < |fragments| ensures fragments[i].Agrees(fragments[j]) {
      TwoCutsAgree(fragments[i], fragments[j], stream);
    }
  }

  lemma TwoCutsAgree(left: Fragment, right: Fragment, stream: Bytes)
    requires CutFrom(left, stream) && CutFrom(right, stream)
    ensures left.Agrees(right)
  {
    forall x: nat | left.Holds(x) && right.Holds(x) ensures left.At(x) == right.At(x) {
      assert left.At(x) == stream[x] && right.At(x) == stream[x];
    }
  }

  /** The CRYPTO data covers a well-formed hello at the front of one stream, within the limits. */
  ghost predicate Spells(fragments: seq<Fragment>, h: Hello.Hello, stream: Bytes)
  {
    && h.WellFormed() && Hello.EncodeHello(h) <= stream && |Hello.EncodeHello(h)| <= MAX_CRYPTO_BYTES
    && (forall i :: 0 <= i < |fragments| ==> CutFrom(fragments[i], stream))
    && (forall x: nat :: x < |Hello.EncodeHello(h)| ==> Covered(fragments, x))
    && WithinLimit(fragments)
  }

  /** Fragments that spell a hello are judged by its extensions. */
  lemma SpelledHello(normalize: Hello.Normalizer, fragments: seq<Fragment>, h: Hello.Hello, stream: Bytes)
    requires Spells(fragments, h, stream)
    ensures InsertAll(fragments).Ok?
    ensures TryHello(normalize, InsertAll(fragments).value) == FromHello(Hello.Verdict(normalize, h.extensions))
  {
    CutsAgree(fragments, stream);
    InsertAllExact(fragments);
    Hello.HelloRoundTrip(normalize, h);
    Hello.HelloLength(h, stream);
    FragmentedHello(normalize, fragments, stream, |Hello.EncodeHello(h)|);
  }

  lemma VerdictStays<K(!new)>(p: Protection<K>, normalize: Hello.Normalizer, datagrams: seq<Bytes>, more: seq<Bytes>)
    requires Judged(p, normalize, datagrams) != NeedMoreData
    ensures Judged(p, normalize, datagrams + more) == Judged(p, normalize, datagrams)
  {
    LaterIgnored(DatagramIngester(p, normalize), Fresh(), datagrams, more);
  }

  lemma FramesJudged<K(!new)>(p: Protection<K>, normalize: Hello.Normalizer, datagrams: seq<Bytes>, packets: seq<seq<Frame>>)
    requires forall i :: 0 <= i < |packets| ==> AllFrames(packets[i])
    requires OpenAll(p, datagrams) == Some(Payloads(packets)) && InsertAll(AllCarried(packets)).Ok?
    ensures Judged(p, normalize, datagrams) == TryHello(normalize, InsertAll(AllCarried(packets)).value)
  {
    FramesDelivered(packets);
    RunIsStream(p, normalize, datagrams, Payloads(packets), AllCarried(packets));
  }

  /** Of datagrams that each open an Initial and together spell a hello, one decides by its extensions. */
  lemma HelloDecides<K(!new)>(
    p: Protection<K>, normalize: Hello.Normalizer, datagrams: seq<Bytes>, packets: seq<seq<Frame>>,
    h: Hello.Hello, stream: Bytes)
    returns (k: nat)
    requires forall i :: 0 <= i < |packets| ==> AllFrames(packets[i])
    requires OpenAll(p, datagrams) == Some(Payloads(packets)) && EachOpens(DatagramOpener(p), None, None, datagrams)
    requires Spells(AllCarried(packets), h, stream)
    ensures k < |datagrams|
    ensures Decides(DatagramIngester(p, normalize), Fresh(), datagrams[..k + 1], FromHello(Hello.Verdict(normalize, h.extensions)))
  {
    var fragments := AllCarried(packets);
    SpelledHello(normalize, fragments, h, stream);
    FramesDelivered(packets);
    FreshRun(p, normalize, datagrams, Payloads(packets), fragments);
    k := RunDecides(DatagramIngester(p, normalize), Fresh(), datagrams);
  }

  lemma FreshRun<K(!new)>(
    p: Protection<K>, normalize: Hello.Normalizer, datagrams: seq<Bytes>, payloads: seq<Bytes>, fragments: seq<Fragment>)
    requires OpenAll(p, datagrams) == Some(payloads) && EachOpens(DatagramOpener(p), None, None, datagrams)
    requires FragmentsOf(payloads) == Some(fragments) && InsertAll(fragments).Ok?
    ensures Authentic(DatagramIngester(p, normalize), Fresh(), datagrams)
    ensures JudgedBy(DatagramIngester(p, normalize), Fresh(), datagrams) == TryHello(normalize, InsertAll(fragments).value)
  {
    RunIsStream(p, normalize, datagrams, payloads, fragments);
    FreshHolds<K>(normalize, Fresh());
    IngestAgrees(p, normalize);
    assert [] + fragments == fragments;
    RunAuthentic(
      DatagramOpener(p), DatagramIngester(p, normalize), Parse, normalize, Fresh(), datagrams, payloads, [], fragments);
  }

  /**
    A well-formed hello, cut into CRYPTO frames that are spread with other frames
    over any number of Initials and datagrams, in any order and with overlaps, is
    judged by its extensions alone, whatever datagrams follow.
   */
  lemma DeliveredHello<K(!new)>(
    p: Protection<K>, normalize: Hello.Normalizer, datagrams: seq<Bytes>, packets: seq<seq<Frame>>,
    h: Hello.Hello, stream: Bytes, more: seq<Bytes>)
    requires forall i :: 0 <= i < |packets| ==> AllFrames(packets[i])
    requires OpenAll(p, datagrams) == Some(Payloads(packets))
    requires Spells(AllCarried(packets), h, stream)
    ensures Judged(p, normalize, datagrams + more) == FromHello(Hello.Verdict(normalize, h.extensions))
  {
    SpelledHello(normalize, AllCarried(packets), h, stream);
    FramesJudged(p, normalize, datagrams, packets);
    VerdictStays(p, normalize, datagrams, more);
  }
}
