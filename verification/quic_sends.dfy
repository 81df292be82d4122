/**
  From the bytes of a ClientHello to the transport: what the association loop
  hands on and sends for a destination whose datagrams spell a hello.
 */
module QuicSends {
  import opened Base
  import opened QuicFlows
  import opened QuicConservation
  import opened QuicFrames
  import opened QuicRouting
  import Identity = QuicIdentity
  import Sniff = QuicSniffer
  import Hello = ClientHello
  import Delivery = QuicDelivery
  import Association = UdpAssociation

  /** A run that goes on releases what it did, then what the further steps release. */
  lemma {:induction false} ReleasedThrough<S>(engine: Engine<S>, idle: nat, before: seq<Event>, more: seq<Event>)
    ensures Released(engine, idle, before + more)
         == Released(engine, idle, before) + Outputs(StepOf(engine, idle), After(engine, idle, before), more)
    decreases |more|
  {
    if |more| == 0 {
      Associate(before, [], []);
      Associate(Released(engine, idle, before), [], []);
    } else {
      NextReleased(engine, idle, before, more[0]);
      ReleasedThrough(engine, idle, before + [more[0]], more[1..]);
      Rejoined(before, more);
      Associate(Released(engine, idle, before), Step(engine, idle, After(engine, idle, before), more[0]).released,
                Outputs(StepOf(engine, idle), After(engine, idle, before + [more[0]]), more[1..]));
    }
  }

  lemma Rejoined<T>(left: seq<T>, right: seq<T>)
    requires |right| > 0
    ensures (left + [right[0]]) + right[1..] == left + right
  {
  }

  lemma NextReleased<S>(engine: Engine<S>, idle: nat, events: seq<Event>, e: Event)
    ensures var r := Step(engine, idle, After(engine, idle, events), e);
      && After(engine, idle, events + [e]) == r.table
      && Released(engine, idle, events + [e]) == Released(engine, idle, events) + r.released
  {
    assert (events + [e])[..|events|] == events;
  }

  lemma {:induction false} OutputsGrow<S>(step: Stepper<S>, t: Table<S>, events: seq<Event>, n: nat)
    requires n <= |events|
    ensures Outputs(step, t, events[..n]) <= Outputs(step, t, events)
    decreases n
  {
    if n > 0 {
      OutputsGrow(step, step(t, events[0]).table, events[1..], n - 1);
      assert events[..n][1..] == events[1..][..n - 1];
    }
  }

  /** Behind what left for `a` earlier, `out` names `all` with the domain. */
  ghost predicate NamesBehind(out: seq<Prepared>, earlier: seq<Prepared>, all: seq<Datagram>, domain: string)
  {
    && earlier <= out && |earlier| + |all| <= |out|
    && Names(out[|earlier|..|earlier| + |all|], all, domain)
  }

  lemma {:induction false} RawLength(datagrams: seq<Prepared>)
    ensures |Raw(datagrams)| == |datagrams|
  {
    if |datagrams| > 0 {
      RawLength(datagrams[..|datagrams| - 1]);
    }
  }

  lemma NamedFirst(
    earlier: seq<Prepared>, block: seq<Prepared>, further: seq<Prepared>, a: SocketAddr, all: seq<Datagram>, domain: string)
    requires block <= further && Names(To(a, block), all, domain)
    ensures NamesBehind(To(a, earlier + further), To(a, earlier), all, domain)
  {
    Appended(earlier, further, a);
    SentFirst(further, block, a);
    RawLength(To(a, block));
    FirstBehind(To(a, earlier), To(a, block), To(a, further));
  }

  lemma FirstBehind<T>(left: seq<T>, first: seq<T>, right: seq<T>)
    requires first <= right
    ensures left <= left + right && (left + right)[|left|..|left| + |first|] == first
  {
  }

  lemma SentFirst(outputs: seq<Prepared>, sent: seq<Prepared>, a: SocketAddr)
    requires sent <= outputs
    ensures To(a, sent) <= To(a, outputs)
  {
    Appended(sent, outputs[|sent|..], a);
    assert sent + outputs[|sent|..] == outputs;
  }

  /** The loop's output for `a` names `all` behind `earlier`; the sends are its first part, and all of it when nothing is queued. */
  ghost predicate GoesOut<S>(
    engine: Engine<S>, idle: nat, sniffs: nat -> bool, s: Association.Loop, queue: seq<Prepared>, a: SocketAddr,
    earlier: seq<Prepared>, all: seq<Datagram>, domain: string)
    requires Association.Legal(engine, idle, sniffs, s.log)
  {
    var out := To(a, Association.OutputsOf(engine, idle, sniffs, s.log));
    && NamesBehind(out, earlier, all, domain) && To(a, s.sent) <= out
    && (s.end.Running? && queue == [] ==> To(a, s.sent) == out)
  }

  lemma AttemptReleased<S>(
    engine: Engine<S>, idle: nat, before: seq<Event>, attempt: seq<Event>, n: nat, a: SocketAddr, all: seq<Datagram>, domain: string)
    requires n <= |attempt|
    requires Names(To(a, Outputs(StepOf(engine, idle), After(engine, idle, before), attempt[..n])), all, domain)
    ensures NamesBehind(To(a, Released(engine, idle, before + attempt)), To(a, Released(engine, idle, before)), all, domain)
  {
    var step, t := StepOf(engine, idle), After(engine, idle, before);
    ReleasedThrough(engine, idle, before, attempt);
    OutputsGrow(step, t, attempt, n);
    NamedFirst(Released(engine, idle, before), Outputs(step, t, attempt[..n]), Outputs(step, t, attempt), a, all, domain);
  }

  /** On a sniffed port the loop puts out what the scheduler releases, and sends it from the front. */
  lemma OutputReleased<S>(
    engine: Engine<S>, idle: nat, sniffs: nat -> bool, s: Association.Loop, queue: seq<Prepared>, events: seq<Event>, a: SocketAddr)
    requires Association.FaithfulTo(engine, idle, sniffs, s, queue) && sniffs(a.port) && Association.EventsOf(s.log) == events
    ensures var outputs := Association.OutputsOf(engine, idle, sniffs, s.log);
      && To(a, outputs) == To(a, Released(engine, idle, events)) && To(a, s.sent) <= To(a, outputs)
      && (s.end.Running? && queue == [] ==> To(a, s.sent) == To(a, outputs))
  {
    var outputs := Association.OutputsOf(engine, idle, sniffs, s.log);
    assert Association.MatchesAt(engine, idle, sniffs, events, outputs, Association.AcceptedOf(s.log), a);
    SentFirst(outputs, s.sent, a);
    Associate(s.sent, [], []);
  }

  lemma BlockSent<S>(
    engine: Engine<S>, idle: nat, sniffs: nat -> bool, s: Association.Loop, queue: seq<Prepared>,
    before: seq<Event>, attempt: seq<Event>, n: nat, a: SocketAddr, all: seq<Datagram>, domain: string)
    requires Association.FaithfulTo(engine, idle, sniffs, s, queue) && sniffs(a.port)
    requires Association.EventsOf(s.log) == before + attempt && n <= |attempt|
    requires Names(To(a, Outputs(StepOf(engine, idle), After(engine, idle, before), attempt[..n])), all, domain)
    ensures GoesOut(engine, idle, sniffs, s, queue, a, To(a, Released(engine, idle, before)), all, domain)
  {
    AttemptReleased(engine, idle, before, attempt, n, a, all, domain);
    OutputReleased(engine, idle, sniffs, s, queue, before + attempt, a);
  }

  /**
    The loop's log ends in a connection attempt to a sniffed destination, whatever
    came `before`, and its datagrams spell a hello. Then one arrival completes it,
    and the loop's output for that destination has, right behind what left earlier,
    all datagrams up to it, in order and with the hello's domain.
   */
  lemma HelloSent<K(!new)>(
    p: Sniff.Protection<K>, normalize: Hello.Normalizer, idle: nat, sniffs: nat -> bool,
    s: Association.Loop, queue: seq<Prepared>, before: seq<Event>, attempt: seq<Event>, a: SocketAddr,
    packets: seq<seq<Frame>>, h: Hello.Hello, stream: Bytes, domain: string)
    returns (n: nat)
    requires Association.FaithfulTo(Identity.RealEngine(p, normalize), idle, sniffs, s, queue) && sniffs(a.port)
    requires Association.EventsOf(s.log) == before + attempt
    requires var engine := Identity.RealEngine(p, normalize); Attempt(engine, idle, After(engine, idle, before), attempt, a)
    requires Opening(p, normalize, PayloadsOf(ArrivalsAt(attempt, a)), packets, h, stream, domain)
    ensures n < |attempt| && At(attempt[n], a)
    ensures var engine := Identity.RealEngine(p, normalize);
      GoesOut(engine, idle, sniffs, s, queue, a, To(a, Released(engine, idle, before)), ArrivalsAt(attempt[..n + 1], a), domain)
  {
    var engine := Identity.RealEngine(p, normalize);
    n := HelloRouted(p, normalize, idle, After(engine, idle, before), attempt, a, packets, h, stream, domain);
    BlockSent(engine, idle, sniffs, s, queue, before, attempt, n + 1, a, ArrivalsAt(attempt[..n + 1], a), domain);
  }
}
