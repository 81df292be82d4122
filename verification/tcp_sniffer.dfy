/**
  The first-payload sniffer: it reads in chunks of any size until its parser
  decides. Whatever the chunking, the reported domain is the one a single parse
  of the whole prefix would give.
 */
module TcpSniffer {
  import opened Base
  import opened ClientHello
  import Http = HttpHost
  import Tls = TlsRecords

  const READ_CHUNK_BYTES: nat := 2 * 1024

  datatype Protocol = Http | Tls

  datatype Rules = Rules(sni: Normalizer, host: Http.HostRule)

  datatype SniffOutcome =
    | SniffMatched(domain: Domain)
    | EchPresent
    | SniffNotMatched
    | TimedOut
    | LimitReached
    | EndOfStream
    | ReadFailed

  /** One read by the peer's pace: how many bytes are there, or an error. */
  datatype Read = Available(count: nat) | Failed

  function Outcome(rules: Rules, protocol: Protocol, input: Bytes): (r: ParseOutcome)
  {
    match protocol
    case Http => Http.HttpOutcome(rules.host, input)
    case Tls => Tls.TlsOutcome(rules.sni, input)
  }

  /** All the sniffer may ever look at. */
  function Visible(stream: Bytes): (prefix: Bytes)
    ensures prefix <= stream && |prefix| == Min(|stream|, MAX_BYTES)
  {
    stream[..Min(|stream|, MAX_BYTES)]
  }

  /** A matching prefix keeps its domain, a rejected one never gains one. */
  lemma DecisionsAreFinal(rules: Rules, protocol: Protocol, shorter: Bytes, longer: Bytes)
    requires shorter <= longer && |longer| <= MAX_BYTES
    requires Outcome(rules, protocol, shorter) != NeedMoreData
    ensures Outcome(rules, protocol, shorter).Matched? ==>
      Outcome(rules, protocol, longer) == Outcome(rules, protocol, shorter)
    ensures !Outcome(rules, protocol, shorter).Matched? ==> !Outcome(rules, protocol, longer).Matched?
    ensures protocol == Tls ==> Outcome(rules, protocol, longer) == Outcome(rules, protocol, shorter)
  {
    match protocol
    case Tls => Tls.TlsStable(rules.sni, shorter, longer);
    case Http =>
      var outcome := Http.HttpOutcome(rules.host, shorter);
      if outcome.Matched? {
        Http.MatchIsFinal(rules.host, shorter, longer);
      } else {
        HttpHasNoEch(rules.host, shorter);
        Http.RejectionIsFinal(rules.host, shorter, longer);
      }
  }

  lemma HttpHasNoEch(rule: Http.HostRule, input: Bytes)
    ensures !Http.HttpOutcome(rule, input).EchExtensionPresent?
  {
  }

  /** What a TLS run that is neither cut short nor failing reports. */
  function TlsReport(rules: Rules, stream: Bytes): (r: SniffOutcome)
  {
    match Outcome(rules, Protocol.Tls, Visible(stream))
    case Matched(domain) => SniffMatched(domain)
    case EchExtensionPresent => EchPresent
    case NotMatched => SniffNotMatched
    case NeedMoreData => if |stream| < MAX_BYTES then EndOfStream else LimitReached
  }

  /** What a decision on the retained prefix is reported as; without one, `otherwise` says why the reading stopped. */
  function Report(parsed: ParseOutcome, otherwise: SniffOutcome): (r: SniffOutcome)
  {
    match parsed
    case Matched(domain) => SniffMatched(domain)
    case EchExtensionPresent => EchPresent
    case NotMatched => SniffNotMatched
    case NeedMoreData =>
      if otherwise in {TimedOut, LimitReached, EndOfStream, ReadFailed} then otherwise else TimedOut
  }

  class Sniffer {
    const rules: Rules
    const protocol: Protocol
    var buffered: Bytes

    constructor (rules: Rules, protocol: Protocol)
      ensures this.rules == rules && this.protocol == protocol && buffered == []
    {
      this.rules, this.protocol, buffered := rules, protocol, [];
    }

    method ParseBuffered() returns (outcome: ParseOutcome)
      ensures outcome == Outcome(rules, protocol, buffered)
    {
      match protocol
      case Http => outcome := Http.SniffHttpHost(rules.host, buffered);
      case Tls => outcome := Tls.SniffTlsSni(rules.sni, buffered);
    }

    /**
      `sniff` on a reader that still holds `incoming`; its bytes become readable
      as `pace` says, and when `pace` runs out the deadline has passed. `stream`
      is everything the peer has sent, read earlier or not.
     */
    method Sniff(ghost stream: Bytes, incoming: Bytes, pace: seq<Read>) returns (outcome: SniffOutcome, unread: Bytes)
      requires buffered + incoming == stream && |buffered| <= MAX_BYTES
      modifies this`buffered
      ensures old(buffered) <= buffered && buffered + unread == stream && |buffered| <= MAX_BYTES
      ensures outcome == Report(Outcome(rules, protocol, buffered), outcome)
      ensures Outcome(rules, protocol, old(buffered)) != NeedMoreData ==> unread == incoming
      ensures outcome == LimitReached ==> |buffered| == MAX_BYTES
      ensures outcome == TimedOut ==> |pace| <= |buffered| - |old(buffered)|
      ensures outcome == ReadFailed ==> Failed in pace
      ensures outcome == EndOfStream ==> unread == []
      ensures Agrees(rules, protocol, stream, outcome)
      ensures Failed !in pace && |pace| > |incoming| ==>
        outcome != TimedOut && (outcome.SniffMatched? <==> Outcome(rules, protocol, Visible(stream)).Matched?)
    {
      var i := 0;
      unread := incoming;
      while true
        invariant old(buffered) <= buffered && buffered + unread == stream && |buffered| <= MAX_BYTES
        invariant i <= |pace| && i <= |buffered| - |old(buffered)|
        invariant (buffered == old(buffered) && unread == incoming) || Outcome(rules, protocol, old(buffered)) == NeedMoreData
        decreases |pace| - i
      {
        var decided := Decide(stream, unread);
        if decided.Some? {
          return decided.value, unread;
        }
        if i == |pace| {
          return TimedOut, unread;
        }
        if pace[i].Failed? {
          return ReadFailed, unread;
        }
        if unread == [] {
          AllRead(rules, protocol, buffered, stream);
          return EndOfStream, unread;
        }
        unread := ReadChunk(stream, unread, pace[i].count);
        i := i + 1;
      }
    }

    /** What the retained prefix decides, or that there is no room for more of it. */
    method Decide(ghost stream: Bytes, ghost unread: Bytes) returns (decided: Option<SniffOutcome>)
      requires buffered + unread == stream && |buffered| <= MAX_BYTES
      ensures decided.None? <==> Outcome(rules, protocol, buffered) == NeedMoreData && |buffered| < MAX_BYTES
      ensures decided.Some? ==>
        && decided.value != TimedOut && decided.value != ReadFailed && decided.value != EndOfStream
        && decided.value == Report(Outcome(rules, protocol, buffered), decided.value)
        && (decided.value == LimitReached ==> |buffered| == MAX_BYTES)
        && Agrees(rules, protocol, stream, decided.value)
    {
      var parsed := ParseBuffered();
      VisiblePart(rules, protocol, buffered, unread, stream);
      match parsed {
        case Matched(domain) => return Some(SniffMatched(domain));
        case EchExtensionPresent => return Some(EchPresent);
        case NotMatched => return Some(SniffNotMatched);
        case NeedMoreData =>
          return if |buffered| == MAX_BYTES then Some(LimitReached) else None;
      }
    }

    /** One read: at least one byte, at most a chunk, and never more than may be retained. */
    method ReadChunk(ghost stream: Bytes, unread: Bytes, available: nat) returns (rest: Bytes)
      requires buffered + unread == stream && |buffered| < MAX_BYTES && unread != []
      modifies this`buffered
      ensures buffered + rest == stream && old(buffered) < buffered && |buffered| <= MAX_BYTES
      ensures |buffered| <= old(|buffered|) + READ_CHUNK_BYTES
    {
      var limit := Min(Min(MAX_BYTES - |buffered|, READ_CHUNK_BYTES), |unread|);
      var count := Max(1, Min(available, limit));
      assert unread == unread[..count] + unread[count..];
      buffered, rest := buffered + unread[..count], unread[count..];
    }
  }

  /** A report on the whole stream: its domain if it names one, no domain otherwise; for TLS the exact reason. */
  ghost predicate Agrees(rules: Rules, protocol: Protocol, stream: Bytes, outcome: SniffOutcome)
  {
    && (outcome.SniffMatched? ==> Outcome(rules, protocol, Visible(stream)) == Matched(outcome.domain))
    && (outcome in {EchPresent, SniffNotMatched, LimitReached, EndOfStream} ==>
          !Outcome(rules, protocol, Visible(stream)).Matched?)
    && (protocol == Tls && outcome != TimedOut && outcome != ReadFailed ==> outcome == TlsReport(rules, stream))
  }

  lemma VisiblePart(rules: Rules, protocol: Protocol, buffered: Bytes, unread: Bytes, stream: Bytes)
    requires buffered + unread == stream && |buffered| <= MAX_BYTES
    ensures var parsed := Outcome(rules, protocol, buffered);
      && (parsed != NeedMoreData ==> Agrees(rules, protocol, stream, Report(parsed, TimedOut)))
      && (parsed == NeedMoreData && |buffered| == MAX_BYTES ==> Agrees(rules, protocol, stream, LimitReached))
  {
    assert buffered == stream[..|buffered|];
    if Outcome(rules, protocol, buffered) != NeedMoreData {
      DecisionsAreFinal(rules, protocol, buffered, Visible(stream));
    }
  }

  lemma AllRead(rules: Rules, protocol: Protocol, buffered: Bytes, stream: Bytes)
    requires buffered + [] == stream && |buffered| < MAX_BYTES && Outcome(rules, protocol, buffered) == NeedMoreData
    ensures Agrees(rules, protocol, stream, EndOfStream)
  {
    assert Visible(stream) == buffered;
  }

  /** Two chunkings of one stream that both run to an end report the same domain, or both none. */
  method TwoChunkings(rules: Rules, protocol: Protocol, stream: Bytes, left: seq<Read>, right: seq<Read>)
    returns (a: SniffOutcome, b: SniffOutcome)
    ensures a !in {TimedOut, ReadFailed} && b !in {TimedOut, ReadFailed} ==>
      (a.SniffMatched? || b.SniffMatched? ==> a == b) && (protocol == Tls ==> a == b)
  {
    var first := new Sniffer(rules, protocol);
    var unread;
    a, unread := first.Sniff(stream, stream, left);
    var second := new Sniffer(rules, protocol);
    b, unread := second.Sniff(stream, stream, right);
  }

  /**
    A call that is dropped and taken up again, any number of times: what has been
    read and what has not are always the whole stream, and the last report is the
    one an undisturbed call could have given.
   */
  method SniffAgain(rules: Rules, protocol: Protocol, stream: Bytes, paces: seq<seq<Read>>)
    returns (outcome: SniffOutcome, replay: Bytes, unread: Bytes)
    ensures replay + unread == stream && |replay| <= MAX_BYTES
    ensures outcome == Report(Outcome(rules, protocol, replay), outcome)
    ensures Agrees(rules, protocol, stream, outcome)
    ensures (forall i :: 0 <= i < |paces| ==> paces[i] != [] && Failed !in paces[i]) && |paces| > |stream| ==>
      (outcome.SniffMatched? <==> Outcome(rules, protocol, Visible(stream)).Matched?)
  {
    var sniffer := new Sniffer(rules, protocol);
    outcome, unread := sniffer.Sniff(stream, stream, []);
    var i := 0;
    while i < |paces| && outcome == TimedOut
      invariant i <= |paces| && |sniffer.buffered| <= MAX_BYTES && sniffer.buffered + unread == stream
      invariant sniffer.rules == rules && sniffer.protocol == protocol
      invariant outcome == Report(Outcome(rules, protocol, sniffer.buffered), outcome)
      invariant Agrees(rules, protocol, stream, outcome)
      invariant (forall j :: 0 <= j < |paces| ==> paces[j] != [] && Failed !in paces[j]) ==>
        outcome != ReadFailed && (outcome == TimedOut ==> i <= |sniffer.buffered|)
    {
      outcome, unread := sniffer.Sniff(stream, unread, paces[i]);
      i := i + 1;
    }
    replay := sniffer.buffered;
  }
}
