/**
  XUDP frames: what a reader concludes from the bytes of a frame read so far,
  the one-shot decoding of a byte stream, and the frames a sender emits.
 */
module XudpFrames {
  import opened Base
  import opened Destinations
  import opened FrameStream

  const STATUS_NEW: Byte := 1
  const STATUS_KEEP: Byte := 2
  const STATUS_END: Byte := 3
  const STATUS_KEEP_ALIVE: Byte := 4
  const OPTION_DATA: Byte := 1
  const NETWORK_UDP: Byte := 2
  const MAX_METADATA_LENGTH: nat := 512
  const END_FRAME: Bytes := [0, 4, 0, 0, 3, 0]

  datatype Datagram = Datagram(remote: Destination, payload: Bytes)

  datatype FrameError =
    | MetadataLength | SessionId | UnknownOption | PeerFailed | PeerClosed | UnexpectedStatus
    | UnexpectedNetwork | BadDestination | MissingRemote | PayloadTooLong | BufferCeiling
    | EndOfStream | Broken

  /** What reading depends on beside the bytes: the last remote sent to, the payload ceiling, text. */
  datatype Context = Context(remote: Option<Destination>, ceiling: nat, utf8: Text)

  datatype Verdict = Refused(error: FrameError) | NoData | Padding | Data(remote: Destination)

  type FrameVerdict = Step<Datagram, FrameError>

  // ---------------------------------------------------------------- one frame

  function RemoteOf(metadata: Bytes, c: Context): (v: Verdict)
    requires |metadata| >= 4
    ensures v.Refused? || v.Data?
  {
    if |metadata| == 4 then
      if c.remote.Some? then Data(c.remote.value) else Refused(MissingRemote)
    else if metadata[4] != NETWORK_UDP then Refused(UnexpectedNetwork)
    else
      match DecodeDestination(metadata[5..], c.utf8)
      case None => Refused(BadDestination)
      case Some(found) => Data(found.destination)
  }

  function Judge(metadata: Bytes, c: Context): (v: Verdict)
    requires |metadata| >= 4
  {
    var status, option := metadata[2], metadata[3];
    if metadata[0] != 0 || metadata[1] != 0 then Refused(SessionId)
    else if option > 3 then Refused(UnknownOption)
    else if option == 2 || option == 3 then Refused(PeerFailed)
    else if status == STATUS_END then Refused(PeerClosed)
    else if status != STATUS_KEEP && status != STATUS_KEEP_ALIVE then Refused(UnexpectedStatus)
    else if option == 0 then NoData
    else if status == STATUS_KEEP_ALIVE then Padding
    else RemoteOf(metadata, c)
  }

  function PayloadStep(b: Bytes, at: nat, v: Verdict, c: Context): (s: FrameVerdict)
    requires at <= |b| && (v.Padding? || v.Data?)
  {
    if |b| < at + 2 then Need(at + 2)
    else
      var length := U16(b[at], b[at + 1]);
      if length > c.ceiling then Fail(PayloadTooLong)
      else if |b| < at + 2 + length then Need(at + 2 + length)
      else if v.Padding? then Skip(at + 2 + length)
      else Deliver(Datagram(v.remote, b[at + 2..at + 2 + length]), at + 2 + length)
  }

  function FrameStep(b: Bytes, c: Context): (s: FrameVerdict)
  {
    if |b| < 2 then Need(2)
    else
      var length := U16(b[0], b[1]);
      if length < 4 || length > MAX_METADATA_LENGTH then Fail(MetadataLength)
      else if |b| < 2 + length then Need(2 + length)
      else
        var v := Judge(b[2..2 + length], c);
        match v
        case Refused(e) => Fail(e)
        case NoData => Skip(2 + length)
        case _ => PayloadStep(b, 2 + length, v, c)
  }

  /** The largest frame: length, metadata, payload length and payload. */
  function Ceiling(c: Context): (n: nat)
  {
    2 + MAX_METADATA_LENGTH + 2 + c.ceiling
  }

  lemma StepBounds(b: Bytes, c: Context)
    ensures var s := FrameStep(b, c);
            match s
            case Need(total) => |b| < total <= Ceiling(c)
            case Skip(end) => 6 <= end <= |b|
            case Deliver(_, end) => 6 <= end <= |b|
            case Fail(_) => 2 <= |b|
  {
  }

  lemma PayloadExtends(b: Bytes, longer: Bytes, at: nat, v: Verdict, c: Context)
    requires b <= longer && at <= |b| && (v.Padding? || v.Data?)
    ensures var s := PayloadStep(b, at, v, c);
            if s.Need? then |longer| < s.total ==> PayloadStep(longer, at, v, c) == s
            else PayloadStep(longer, at, v, c) == s
  {
    if |b| >= at + 2 {
      var length := U16(b[at], b[at + 1]);
      if |b| >= at + 2 + length {
        assert b[at + 2..at + 2 + length] == longer[at + 2..at + 2 + length];
      }
    }
  }

  /** More bytes change nothing until the ones asked for are there. */
  lemma StepExtends(b: Bytes, longer: Bytes, c: Context)
    requires b <= longer
    ensures var s := FrameStep(b, c);
            if s.Need? then |longer| < s.total ==> FrameStep(longer, c) == s
            else FrameStep(longer, c) == s
  {
    if |b| >= 2 {
      var length := U16(b[0], b[1]);
      if 4 <= length <= MAX_METADATA_LENGTH && |b| >= 2 + length {
        assert b[2..2 + length] == longer[2..2 + length];
        var v := Judge(b[2..2 + length], c);
        if v.Padding? || v.Data? {
          PayloadExtends(b, longer, 2 + length, v, c);
        }
      }
    }
  }

  /** The buffer holds no byte of a following frame. */
  ghost predicate Tight(b: Bytes, c: Context)
  {
    Aligned(b, FrameStep(b, c))
  }

  /** Reading exactly what was asked for never takes in a following frame. */
  lemma ExactReadIsTight(b: Bytes, longer: Bytes, c: Context)
    requires b <= longer && FrameStep(b, c) == Need(|longer|)
    ensures Tight(longer, c)
  {
    if |b| >= 2 {
      var length := U16(b[0], b[1]);
      if |b| >= 2 + length {
        assert b[2..2 + length] == longer[2..2 + length];
      }
    }
  }

  // ------------------------------------------------------------- whole streams

  function FrameReader(c: Context): (f: Reader<Datagram, FrameError>)
  {
    (b: Bytes) => FrameStep(b, c)
  }

  lemma ReaderIsStable(c: Context)
    ensures Stable(FrameReader(c))
  {
    var f := FrameReader(c);
    forall b ensures Fits(b, f(b)) {
      StepBounds(b, c);
    }
    forall b, more ensures Stays(f, b, more) {
      StepExtends(b, b + more, c);
    }
  }

  /** One-shot decoding of everything read. */
  ghost function DecodeFrames(wire: Bytes, c: Context): (r: Decoding<Datagram, FrameError>)
  {
    ReaderIsStable(c);
    Decode(wire, FrameReader(c))
  }

  // ---------------------------------------------------------------- encoding

  datatype EncodeError = EmptyPayload | OversizedPayload | OversizedDomain

  function EncodeFrame(d: Datagram, first: bool, globalId: Option<Bytes>): (r: Result<Bytes, EncodeError>)
    requires globalId.Some? ==> |globalId.value| == 8
    ensures r.Ok? <==> 0 < |d.payload| < 0x1_0000 && EncodeDestination(d.remote).Some?
    ensures r.Ok? ==> |r.value| > 6 && r.value[4] == if first then STATUS_NEW else STATUS_KEEP
  {
    if |d.payload| == 0 then Err(EmptyPayload)
    else if |d.payload| >= 0x1_0000 then Err(OversizedPayload)
    else
      match EncodeDestination(d.remote)
      case None => Err(OversizedDomain)
      case Some(destination) =>
        var id := if globalId.Some? then globalId.value else [];
        var head := PutU16(5 + |destination| + |id|) + [0, 0, if first then STATUS_NEW else STATUS_KEEP, OPTION_DATA, NETWORK_UDP];
        Ok(head + destination + id + PutU16(|d.payload|) + d.payload)
  }

  /** A datagram that a peer with this context reads back. */
  predicate Transferable(d: Datagram, c: Context)
  {
    0 < |d.payload| < 0x1_0000 && |d.payload| <= c.ceiling && Reachable(d.remote, c.utf8)
  }

  const KEEP_HEAD: Bytes := [0, 0, STATUS_KEEP, OPTION_DATA, NETWORK_UDP]

  lemma KeepJudged(remote: Destination, destination: Bytes, c: Context)
    requires Reachable(remote, c.utf8) && EncodeDestination(remote) == Some(destination)
    ensures Judge(KEEP_HEAD + destination, c) == Data(remote)
  {
    DestinationRoundTrip(remote, c.utf8, []);
    assert (KEEP_HEAD + destination)[5..] == destination == destination + [];
  }

  /** A frame laid out as its length, its metadata, the payload length and the payload. */
  lemma LaidOutDelivers(metadata: Bytes, payload: Bytes, rest: Bytes, remote: Destination, c: Context)
    requires 4 <= |metadata| <= MAX_METADATA_LENGTH && |payload| < 0x1_0000 && |payload| <= c.ceiling
    requires Judge(metadata, c) == Data(remote)
    ensures var frame := PutU16(|metadata|) + metadata + PutU16(|payload|) + payload;
      FrameStep(frame + rest, c) == Deliver(Datagram(remote, payload), |frame|)
  {
    var at := 2 + |metadata|;
    var b := PutU16(|metadata|) + metadata + PutU16(|payload|) + payload + rest;
    var size, tail := PutU16(|metadata|), PutU16(|payload|);
    assert b[0] == size[0] && b[1] == size[1];
    assert b[2..at] == metadata;
    assert b[at] == tail[0] && b[at + 1] == tail[1];
    assert b[at + 2..at + 2 + |payload|] == payload;
  }

  lemma FrameRoundTrip(d: Datagram, c: Context, rest: Bytes)
    requires Transferable(d, c)
    ensures EncodeFrame(d, false, None).Ok?
    ensures var frame := EncodeFrame(d, false, None).value;
            FrameStep(frame + rest, c) == Deliver(d, |frame|)
  {
    DestinationRoundTrip(d.remote, c.utf8, []);
    var destination := EncodeDestination(d.remote).value;
    KeepJudged(d.remote, destination, c);
    LaidOutDelivers(KEEP_HEAD + destination, d.payload, rest, d.remote, c);
    KeepLayout(d, destination);
  }

  lemma KeepLayout(d: Datagram, destination: Bytes)
    requires 0 < |d.payload| < 0x1_0000 && EncodeDestination(d.remote) == Some(destination)
    ensures EncodeFrame(d, false, None)
         == Ok(PutU16(5 + |destination|) + (KEEP_HEAD + destination) + PutU16(|d.payload|) + d.payload)
  {
    Associate(PutU16(5 + |destination|), KEEP_HEAD, destination);
    Associate(PutU16(5 + |destination|) + KEEP_HEAD + destination, [], []);
  }

  /** Whatever `EncodeFrame` accepts. */
  predicate Encodable(d: Datagram)
  {
    0 < |d.payload| < 0x1_0000 && EncodeDestination(d.remote).Some?
  }

  function KeepFrame(d: Datagram): (frame: Bytes)
    requires Encodable(d)
  {
    EncodeFrame(d, false, None).value
  }

  function KeepFrames(datagrams: seq<Datagram>): (wire: Bytes)
    requires forall i :: 0 <= i < |datagrams| ==> Encodable(datagrams[i])
  {
    if |datagrams| == 0 then []
    else KeepFrames(datagrams[..|datagrams| - 1]) + KeepFrame(datagrams[|datagrams| - 1])
  }

  lemma {:induction false} FramesDecode(datagrams: seq<Datagram>, f: Reader<Datagram, FrameError>)
    requires Stable(f) && f([]).Need?
    requires forall i :: 0 <= i < |datagrams| ==>
               Encodable(datagrams[i]) && f(KeepFrame(datagrams[i])) == Deliver(datagrams[i], |KeepFrame(datagrams[i])|)
    ensures Decode(KeepFrames(datagrams), f) == Decoding(datagrams, [], None)
  {
    if |datagrams| > 0 {
      var n := |datagrams| - 1;
      var front := datagrams[..n];
      FramesDecode(front, f);
      Absorb(KeepFrames(front), front, KeepFrame(datagrams[n]), f);
      assert datagrams == front + [datagrams[n]];
    }
  }

  /** A stream of KEEP frames decodes to exactly the datagrams that were encoded. */
  lemma StreamRoundTrip(datagrams: seq<Datagram>, c: Context)
    requires forall i :: 0 <= i < |datagrams| ==> Encodable(datagrams[i]) && Transferable(datagrams[i], c)
    ensures DecodeFrames(KeepFrames(datagrams), c) == Decoding(datagrams, [], None)
  {
    ReaderIsStable(c);
    var f := FrameReader(c);
    forall i | 0 <= i < |datagrams|
      ensures f(KeepFrame(datagrams[i])) == Deliver(datagrams[i], |KeepFrame(datagrams[i])|)
    {
      FrameRoundTrip(datagrams[i], c, []);
      assert KeepFrame(datagrams[i]) + [] == KeepFrame(datagrams[i]);
    }
    FramesDecode(datagrams, f);
  }

  /** What the step says about `b`, in terms of one-shot decoding. */
  ghost function Ending(items: seq<Datagram>, b: Bytes, s: FrameVerdict): (r: Decoding<Datagram, FrameError>)
  {
    match s
    case Need(_) => Decoding(items, b, None)
    case Fail(e) => Decoding(items, b, Some(e))
    case Skip(_) => Decoding(items, [], None)
    case Deliver(d, _) => Decoding(items + [d], [], None)
  }

  lemma AbsorbFrame(whole: Bytes, items: seq<Datagram>, b: Bytes, c: Context)
    requires DecodeFrames(whole, c) == Decoding(items, [], None) && Tight(b, c)
    ensures DecodeFrames(whole + b, c) == Ending(items, b, FrameStep(b, c))
  {
    ReaderIsStable(c);
    Absorb(whole, items, b, FrameReader(c));
    assert items + [] == items;
  }

  /** Learning a remote does not disturb a frame that is still waiting for bytes. */
  lemma NeedSurvives(b: Bytes, c: Context, remote: Destination)
    requires FrameStep(b, c).Need?
    ensures FrameStep(b, c.(remote := Some(remote))) == FrameStep(b, c)
  {
  }

  /** A frame is never blamed for the buffer ceiling or for the stream that carries it. */
  lemma StepErrors(b: Bytes, c: Context)
    ensures var s := FrameStep(b, c);
            s.Fail? ==> s.error != BufferCeiling && s.error != EndOfStream && s.error != Broken
  {
  }

  lemma NothingRead(c: Context)
    ensures DecodeFrames([], c) == Decoding([], [], None)
  {
    ReaderIsStable(c);
  }

  /** The datagrams of the part read are the first datagrams of everything sent. */
  lemma PartDelivers(consumed: Bytes, b: Bytes, pipe: Bytes, c: Context)
    ensures DecodeFrames(consumed + b, c).items <= DecodeFrames(consumed + (b + pipe), c).items
    ensures pipe == [] || DecodeFrames(consumed + b, c).error.Some? ==>
              DecodeFrames(consumed + b, c).items == DecodeFrames(consumed + (b + pipe), c).items
  {
    ReaderIsStable(c);
    ReadPartDelivers(consumed, b, pipe, FrameReader(c));
  }
}
