/**
  The XUDP transport: reads that may be fragmented and dropped at any await,
  writes that may be cut off at any byte, and the state both leave behind.
 */
module Xudp {
  import opened Base
  import opened Destinations
  import opened FrameStream
  import opened XudpFrames
  import opened Runs

  const SCRATCH: nat := 1024

  /** `Dropped`: the caller gave up while the call was waiting. */
  datatype Received = Got(datagram: Datagram) | Failed(error: FrameError) | Dropped | AlreadyClosed

  datatype Filled = Full | Stopped(why: Received)

  /** How far a write gets: all of it, or `n` bytes before an error or before the caller drops it. */
  datatype Fate = Whole | Cut(n: nat)

  datatype Sending = Sent | Rejected | Interrupted | SendClosed

  // ------------------------------------------------------------- what is sent

  const NO_ID: Bytes := [0, 0, 0, 0, 0, 0, 0, 0]

  /** The frame of the `index`-th datagram; only the first opens the association and names it. */
  function FrameFor(globalId: Bytes, index: nat, d: Datagram): (frame: Bytes)
    requires |globalId| == 8 && Encodable(d)
    ensures |frame| > 6 && (frame[4] == STATUS_NEW <==> index == 0)
    ensures index > 0 ==> frame == KeepFrame(d)
  {
    EncodeFrame(d, index == 0, if index == 0 && globalId != NO_ID then Some(globalId) else None).value
  }

  ghost predicate AllEncodable(datagrams: seq<Datagram>)
  {
    forall i :: 0 <= i < |datagrams| ==> Encodable(datagrams[i])
  }

  ghost function Frames(globalId: Bytes, sent: seq<Datagram>): (wire: Bytes)
    requires |globalId| == 8 && AllEncodable(sent)
  {
    if |sent| == 0 then [] else FrameFor(globalId, 0, sent[0]) + KeepFrames(sent[1..])
  }

  lemma KeepSnoc(datagrams: seq<Datagram>, d: Datagram)
    requires AllEncodable(datagrams) && Encodable(d)
    ensures KeepFrames(datagrams + [d]) == KeepFrames(datagrams) + KeepFrame(d)
  {
    assert (datagrams + [d])[..|datagrams|] == datagrams;
  }

  lemma FramesSnoc(globalId: Bytes, sent: seq<Datagram>, d: Datagram)
    requires |globalId| == 8 && AllEncodable(sent) && Encodable(d)
    ensures Frames(globalId, sent + [d]) == Frames(globalId, sent) + FrameFor(globalId, |sent|, d)
  {
    var longer := sent + [d];
    if |sent| > 0 {
      assert longer[1..] == sent[1..] + [d] && longer[0] == sent[0];
      KeepSnoc(sent[1..], d);
      Associate(FrameFor(globalId, 0, sent[0]), KeepFrames(sent[1..]), KeepFrame(d));
    } else {
      assert longer[1..] == [];
      Associate(FrameFor(globalId, 0, d), [], []);
    }
  }

  /** A whole frame behind whole frames. */
  lemma WireSnoc(globalId: Bytes, sent: seq<Datagram>, d: Datagram, wire: Bytes)
    requires OnWire(globalId, sent, [], wire) && Encodable(d)
    ensures wire + FrameFor(globalId, |sent|, d) == Frames(globalId, sent + [d])
  {
    FramesSnoc(globalId, sent, d);
    Associate(Frames(globalId, sent), [], []);
  }

  /** A frame the transport could write next: a datagram's, or the end of the association. */
  ghost predicate NextFrame(globalId: Bytes, index: nat, frame: Bytes)
    requires |globalId| == 8
  {
    frame == END_FRAME || exists d :: Encodable(d) && frame == FrameFor(globalId, index, d)
  }

  ghost predicate Torn(globalId: Bytes, index: nat, tail: Bytes)
    requires |globalId| == 8
  {
    exists frame :: NextFrame(globalId, index, frame) && tail <= frame
  }

  /** Whole frames, one for each datagram sent, then at most part of one more. */
  ghost predicate OnWire(globalId: Bytes, sent: seq<Datagram>, tail: Bytes, wire: Bytes)
  {
    && |globalId| == 8 && AllEncodable(sent)
    && wire == Frames(globalId, sent) + tail
    && Torn(globalId, |sent|, tail)
  }

  /** Part of a next frame behind whole ones. */
  lemma TornWire(globalId: Bytes, sent: seq<Datagram>, wire: Bytes, frame: Bytes, out: Bytes)
    requires OnWire(globalId, sent, [], wire) && NextFrame(globalId, |sent|, frame) && out <= frame
    ensures OnWire(globalId, sent, out, wire + out)
  {
    Associate(Frames(globalId, sent), [], []);
  }

  function LastRemote(sent: seq<Datagram>): (remote: Option<Destination>)
  {
    if |sent| == 0 then None else Some(sent[|sent| - 1].remote)
  }

  /** A peer that has taken the opening frame reads every later datagram back. */
  lemma PeerReadsBack(globalId: Bytes, sent: seq<Datagram>, c: Context)
    requires |globalId| == 8 && AllEncodable(sent) && |sent| > 0
    requires forall i :: 0 <= i < |sent| ==> Transferable(sent[i], c)
    ensures var opening := FrameFor(globalId, 0, sent[0]);
            opening <= Frames(globalId, sent) &&
            DecodeFrames(Frames(globalId, sent)[|opening|..], c) == Decoding(sent[1..], [], None)
  {
    var opening := FrameFor(globalId, 0, sent[0]);
    assert Frames(globalId, sent)[|opening|..] == KeepFrames(sent[1..]);
    StreamRoundTrip(sent[1..], c);
  }

  /** The metadata of the frame in `b` is complete, ends at `at` and announces data. */
  ghost predicate Announced(b: Bytes, at: nat, v: Verdict, c: Context)
  {
    && 2 <= at <= |b| && at == 2 + U16(b[0], b[1]) && 6 <= at <= 2 + MAX_METADATA_LENGTH
    && (v.Padding? || v.Data?) && v == Judge(b[2..at], c)
  }

  lemma StillAnnounced(b: Bytes, longer: Bytes, at: nat, v: Verdict, c: Context)
    requires b <= longer && Announced(b, at, v, c)
    ensures Announced(longer, at, v, c) && FrameStep(longer, c) == PayloadStep(longer, at, v, c)
  {
    assert longer[2..at] == b[2..at];
  }

  /** Between calls the buffer waits for the rest of one frame. */
  ghost predicate Unfinished(b: Bytes, c: Context)
  {
    FrameStep(b, c).Need?
  }

  /** What a call that stops without a datagram has established about its buffer. */
  ghost predicate Leaves(b: Bytes, c: Context, r: Received)
  {
    match r
    case Got(_) => false
    case Dropped => Unfinished(b, c)
    case Failed(e) => FrameStep(b, c) == Fail(e) || (FrameStep(b, c).Need? && (e == EndOfStream || e == Broken))
    case AlreadyClosed => false
  }

  /**
    Why a reading stopped after the polls from `start` to `next`: a dropped call
    has used them all up, a failing stream said so, its end left nothing. Every
    poll of a reading that met neither has taken in at least one byte.
   */
  ghost predicate Paced(r: Filled, pace: seq<nat>, start: nat, next: nat, before: Bytes, after: Bytes)
  {
    && start <= next <= |pace| && |after| <= |before|
    && (r != Stopped(Failed(Broken)) && r != Stopped(Failed(EndOfStream)) ==> next - start <= |before| - |after|)
    && (r == Stopped(Dropped) ==> next == |pace|)
    && (r == Stopped(Failed(Broken)) ==> 0 in pace)
    && (r == Stopped(Failed(EndOfStream)) ==> after == [])
  }

  lemma MoreRead(buffer: Bytes, pipe: Bytes, longer: Bytes, rest: Bytes)
    requires buffer <= longer && longer != buffer && buffer + pipe == longer + rest
    ensures |rest| < |pipe|
  {
    assert |buffer| + |pipe| == |buffer + pipe| == |longer + rest|;
  }

  /**
    Why a receive returned: with a datagram it has read something; a dropped call
    has read at least a byte for each of its polls; a failing stream said so; its
    end left nothing unread.
   */
  ghost predicate Reasoned(r: Received, pace: seq<nat>, before: Bytes, after: Bytes)
  {
    match r
    case Got(_) => |after| < |before|
    case Dropped => |pace| <= |before| - |after|
    case Failed(e) => |after| <= |before| && (e == Broken ==> 0 in pace) && (e == EndOfStream ==> after == [])
    case AlreadyClosed => after == before
  }

  /** The failure of the frames themselves, if that is what `r` reports. */
  function FrameFailure(r: Received): (e: Option<FrameError>)
  {
    if r.Failed? && r.error != EndOfStream && r.error != Broken then Some(r.error) else None
  }

  /** The frame in `b` is complete and delivers `got`. */
  ghost predicate Finishes(b: Bytes, c: Context, got: seq<Datagram>)
  {
    match FrameStep(b, c)
    case Skip(_) => got == []
    case Deliver(d, _) => got == [d]
    case _ => false
  }

  lemma FrameEnds(consumed: Bytes, delivered: seq<Datagram>, b: Bytes, c: Context, got: seq<Datagram>)
    requires DecodeFrames(consumed, c) == Decoding(delivered, [], None) && Tight(b, c) && Finishes(b, c, got)
    ensures DecodeFrames(consumed + b, c) == Decoding(delivered + got, [], None) && Unfinished([], c)
  {
    AbsorbFrame(consumed, delivered, b, c);
    assert delivered + [] == delivered;
  }

  lemma CallEnds(consumed: Bytes, delivered: seq<Datagram>, b: Bytes, c: Context, r: Received)
    requires DecodeFrames(consumed, c) == Decoding(delivered, [], None) && Tight(b, c)
    requires if r.Got? then FrameStep(b, c).Need? else Leaves(b, c, r)
    ensures DecodeFrames(consumed + b, c) == Decoding(delivered, b, FrameFailure(r))
    ensures r != Failed(BufferCeiling)
    ensures !r.Failed? ==> |b| < Ceiling(c)
  {
    AbsorbFrame(consumed, delivered, b, c);
    StepBounds(b, c);
    StepErrors(b, c);
  }

  // ---------------------------------------------------------------- transport

  class Transport {
    const globalId: Bytes
    const maxResponse: nat
    const maxRequest: nat
    const utf8: Text
    var stream: bool
    var closed: bool
    var firstWrite: bool
    var lastRemote: Option<Destination>
    var buffer: Bytes
    /** The peer's bytes not yet read, and ours written so far. */
    var pipe: Bytes
    var wire: Bytes
    /** Since the last send: the finished frames read, and what they delivered. */
    ghost var consumed: Bytes
    ghost var delivered: seq<Datagram>
    ghost var sent: seq<Datagram>
    ghost var tail: Bytes

    ghost function Reading(): (c: Context)
      reads `lastRemote
    {
      Context(lastRemote, maxResponse, utf8)
    }

    ghost predicate Boundary()
      reads `consumed, `delivered, `lastRemote
    {
      DecodeFrames(consumed, Reading()) == Decoding(delivered, [], None)
    }

    ghost predicate Waiting()
      reads `consumed, `delivered, `lastRemote, `buffer
    {
      Boundary() && Unfinished(buffer, Reading())
    }

    ghost predicate Written()
      reads `sent, `tail, `wire, `closed, `firstWrite, `lastRemote
    {
      && OnWire(globalId, sent, tail, wire)
      && (!closed ==> tail == [])
      && (firstWrite <==> |sent| == 0)
      && lastRemote == LastRemote(sent)
    }

    ghost predicate Valid()
      reads this
    {
      && Written()
      && (closed <==> !stream)
      && (!closed ==> Waiting())
    }

    ghost function State(): (s: View)
      reads this
    {
      View(wire, sent, closed, pipe, buffer, consumed, delivered)
    }

    ghost function Limits(): (c: Setting)
    {
      Setting(globalId, maxRequest, maxResponse, utf8)
    }

    constructor (globalId: Bytes, maxRequest: nat, maxResponse: nat, utf8: Text, incoming: Bytes)
      requires |globalId| == 8
      ensures Valid() && !closed && wire == [] && sent == [] && delivered == [] && consumed == [] && pipe == incoming
    {
      this.globalId, this.maxRequest, this.maxResponse, this.utf8 := globalId, maxRequest, maxResponse, utf8;
      stream, closed, firstWrite, lastRemote, buffer := true, false, true, None, [];
      pipe, wire := incoming, [];
      consumed, delivered, sent, tail := [], [], [], [];
      new;
      assert NextFrame(globalId, 0, END_FRAME);
      NothingRead(Reading());
    }

    // ------------------------------------------------------------- receiving

    ghost predicate Concludes(r: Received)
      reads `buffer, `lastRemote
    {
      Leaves(buffer, Reading(), r)
    }

    /**
      Reads until the buffer holds `required` bytes. `pace` says how many bytes
      each poll offers; a zero is a failing stream, and its end a dropped call.
     */
    method Fill(required: nat, pace: seq<nat>, start: nat) returns (r: Filled, next: nat)
      requires start <= |pace| && Tight(buffer, Reading())
      requires |buffer| < required ==> FrameStep(buffer, Reading()) == Need(required)
      modifies `buffer, `pipe
      ensures Paced(r, pace, start, next, old(pipe), pipe)
      ensures old(buffer) <= buffer && buffer + pipe == old(buffer) + old(pipe)
      ensures Tight(buffer, Reading())
      ensures r.Full? ==> |buffer| == Max(old(|buffer|), required)
      ensures r == Stopped(Failed(BufferCeiling)) <==> required > Ceiling(Reading())
      ensures r.Stopped? && required <= Ceiling(Reading()) ==> Concludes(r.why)
    {
      next := start;
      if required > 2 + MAX_METADATA_LENGTH + 2 + maxResponse {
        return Stopped(Failed(BufferCeiling)), next;
      }
      while |buffer| < required
        invariant start <= next <= |pace| && next - start <= |old(pipe)| - |pipe|
        invariant old(buffer) <= buffer && buffer + pipe == old(buffer) + old(pipe)
        invariant Tight(buffer, Reading()) && |buffer| <= Max(old(|buffer|), required)
        invariant |buffer| < required ==> FrameStep(buffer, Reading()) == Need(required)
        decreases required - |buffer|
      {
        if next == |pace| {
          return Stopped(Dropped), next;
        }
        var offered := pace[next];
        next := next + 1;
        if offered == 0 {
          return Stopped(Failed(Broken)), next;
        }
        var ended := ReadChunk(required, offered);
        if ended {
          return Stopped(Failed(EndOfStream)), next;
        }
      }
      r := Full;
    }

    /** One read of at least one byte, unless the stream has ended. */
    method ReadChunk(required: nat, offered: nat) returns (ended: bool)
      requires |buffer| < required && FrameStep(buffer, Reading()) == Need(required) && offered > 0
      modifies `buffer, `pipe
      ensures old(buffer) <= buffer && buffer + pipe == old(buffer) + old(pipe)
      ensures (ended <==> old(pipe) == []) && (ended ==> pipe == [] && buffer == old(buffer))
      ensures !ended ==> |pipe| < |old(pipe)| && |buffer| > |old(buffer)|
      ensures |buffer| <= required && Tight(buffer, Reading())
      ensures |buffer| < required ==> FrameStep(buffer, Reading()) == Need(required)
    {
      var chunk := Min(required - |buffer|, SCRATCH);
      var count := Min(offered, Min(chunk, |pipe|));
      if count == 0 {
        return true;
      }
      ghost var before := buffer;
      buffer, pipe := buffer + pipe[..count], pipe[count..];
      if |buffer| < required {
        StepExtends(before, buffer, Reading());
      } else {
        ExactReadIsTight(before, buffer, Reading());
      }
      return false;
    }

    /** The metadata of the current frame: where it ends and what it says. */
    method ReadMetadata(pace: seq<nat>, start: nat) returns (r: Filled, at: nat, v: Verdict, next: nat)
      requires start <= |pace| && FrameStep(buffer, Reading()).Need?
      modifies `buffer, `pipe
      ensures Paced(r, pace, start, next, old(pipe), pipe)
      ensures old(buffer) <= buffer && buffer + pipe == old(buffer) + old(pipe)
      ensures Tight(buffer, Reading())
      ensures r.Stopped? ==> Concludes(r.why)
      ensures r.Full? ==> 6 <= at <= |buffer| && at <= 2 + MAX_METADATA_LENGTH && !v.Refused?
      ensures r.Full? && v.NoData? ==> FrameStep(buffer, Reading()) == Skip(at)
      ensures r.Full? && !v.NoData? ==> Announced(buffer, at, v, Reading())
    {
      at, v := 0, NoData;
      r, next := Fill(2, pace, start);
      if r.Stopped? {
        return;
      }
      var length := U16(buffer[0], buffer[1]);
      if length < 4 || length > MAX_METADATA_LENGTH {
        return Stopped(Failed(MetadataLength)), at, v, next;
      }
      at := 2 + length;
      r, next := Fill(at, pace, next);
      if r.Stopped? {
        return;
      }
      v := Judge(buffer[2..at], Context(lastRemote, maxResponse, utf8));
      if v.Refused? {
        r := Stopped(Failed(v.error));
      }
    }

    /** The payload length of the current frame. */
    method ReadLength(at: nat, v: Verdict, pace: seq<nat>, start: nat) returns (r: Filled, length: nat, next: nat)
      requires start <= |pace| && Tight(buffer, Reading()) && Announced(buffer, at, v, Reading())
      modifies `buffer, `pipe
      ensures Paced(r, pace, start, next, old(pipe), pipe)
      ensures old(buffer) <= buffer && buffer + pipe == old(buffer) + old(pipe)
      ensures Tight(buffer, Reading()) && Announced(buffer, at, v, Reading())
      ensures r.Stopped? ==> Concludes(r.why)
      ensures r.Full? ==> at + 2 <= |buffer| && length == U16(buffer[at], buffer[at + 1])
    {
      length := 0;
      StillAnnounced(buffer, buffer, at, v, Reading());
      r, next := Fill(at + 2, pace, start);
      StillAnnounced(old(buffer), buffer, at, v, Reading());
      if r.Full? {
        length := U16(buffer[at], buffer[at + 1]);
      }
    }

    /** The payload of the current frame, whose end is returned. */
    method ReadPayload(at: nat, v: Verdict, pace: seq<nat>, start: nat) returns (r: Filled, end: nat, next: nat)
      requires start <= |pace| && Tight(buffer, Reading()) && Announced(buffer, at, v, Reading())
      modifies `buffer, `pipe, `closed
      ensures Paced(r, pace, start, next, old(pipe), pipe)
      ensures old(buffer) <= buffer && buffer + pipe == old(buffer) + old(pipe)
      ensures Tight(buffer, Reading())
      ensures r.Stopped? ==> Concludes(r.why)
      ensures r.Full? ==> at + 2 <= end == |buffer| && closed == old(closed)
      ensures r.Full? ==> FrameStep(buffer, Reading()) ==
                          if v.Padding? then Skip(end) else Deliver(Datagram(v.remote, buffer[at + 2..end]), end)
      ensures r.Stopped? && closed != old(closed) ==> r.why.Failed?
    {
      end := 0;
      var length;
      r, length, next := ReadLength(at, v, pace, start);
      if r.Stopped? {
        return;
      }
      ghost var before := buffer;
      StillAnnounced(before, before, at, v, Reading());
      if length > maxResponse {
        closed := true;
        return Stopped(Failed(PayloadTooLong)), end, next;
      }
      end := at + 2 + length;
      r, next := Fill(end, pace, next);
      StillAnnounced(before, buffer, at, v, Reading());
    }

    /** Everything the peer has sent since the last send, read or not. */
    ghost function Incoming(): (bytes: Bytes)
      reads this
    {
      consumed + (buffer + pipe)
    }

    /** Drops a finished frame from the buffer; `got` is what it delivered. */
    method Clear(ghost got: seq<Datagram>)
      requires Boundary() && Tight(buffer, Reading()) && Finishes(buffer, Reading(), got)
      modifies `buffer, `consumed, `delivered
      ensures Waiting() && buffer == []
      ensures consumed == old(consumed) + old(buffer) && Incoming() == old(Incoming())
      ensures delivered == old(delivered) + got
    {
      FrameEnds(consumed, delivered, buffer, Reading(), got);
      Associate(consumed, buffer, pipe);
      Associate(pipe, [], []);
      consumed, delivered := consumed + buffer, delivered + got;
      buffer := [];
    }

    /** The rest of the current frame, and the datagram it delivers, if any. */
    method ReadWhole(pace: seq<nat>, start: nat) returns (f: Filled, got: seq<Datagram>, next: nat)
      requires start <= |pace| && FrameStep(buffer, Reading()).Need?
      modifies `buffer, `pipe, `closed
      ensures Paced(f, pace, start, next, old(pipe), pipe)
      ensures old(buffer) <= buffer && buffer + pipe == old(buffer) + old(pipe)
      ensures Tight(buffer, Reading())
      ensures f.Stopped? ==> Concludes(f.why)
      ensures f.Full? ==> Finishes(buffer, Reading(), got) && |got| <= 1 && closed == old(closed)
      ensures f.Stopped? && closed != old(closed) ==> f.why.Failed?
    {
      var at, v, i;
      f, at, v, i := ReadMetadata(pace, start);
      got, next := [], i;
      if f.Stopped? || v.NoData? {
        return;
      }
      var end;
      f, end, next := ReadPayload(at, v, pace, i);
      if f.Full? && v.Data? {
        got := [Datagram(v.remote, buffer[at + 2..end])];
      }
    }

    /** One turn of the frame loop: `again` after a frame that carries no datagram. */
    method ReadOne(pace: seq<nat>, start: nat) returns (r: Received, again: bool, next: nat)
      requires start <= |pace| && Waiting()
      modifies `buffer, `pipe, `closed, `consumed, `delivered
      ensures Paced(if again || r.Got? then Full else Stopped(r), pace, start, next, old(pipe), pipe)
      ensures again || r.Got? ==> |pipe| < |old(pipe)|
      ensures Incoming() == old(Incoming()) && old(consumed) <= consumed
      ensures Boundary()
      ensures again ==> Waiting() && |consumed| > |old(consumed)|
      ensures again ==> delivered == old(delivered) && closed == old(closed)
      ensures !again && r.Got? ==> Waiting() && buffer == [] && delivered == old(delivered) + [r.datagram]
      ensures !again && !r.Got? ==> Concludes(r) && Tight(buffer, Reading()) && delivered == old(delivered) && consumed == old(consumed)
      ensures !again && !r.Failed? ==> closed == old(closed)
    {
      var f, got;
      f, got, next := ReadWhole(pace, start);
      if f.Stopped? {
        return f.why, false, next;
      }
      MoreRead(old(buffer), old(pipe), buffer, pipe);
      Clear(got);
      if got == [] {
        return Dropped, true, next;
      }
      return Got(got[0]), false, next;
    }

    method ReadFrame(pace: seq<nat>) returns (r: Received)
      requires Waiting()
      modifies `buffer, `pipe, `closed, `consumed, `delivered
      ensures Reasoned(r, pace, old(pipe), pipe)
      ensures Incoming() == old(Incoming()) && old(consumed) <= consumed && Boundary()
      ensures r.Got? ==> Waiting() && buffer == [] && delivered == old(delivered) + [r.datagram]
      ensures !r.Got? ==> Concludes(r) && Tight(buffer, Reading()) && delivered == old(delivered)
      ensures !r.Failed? ==> closed == old(closed)
    {
      var again, next := true, 0;
      r := Dropped;
      while again
        invariant Paced(if again || r.Got? then Full else Stopped(r), pace, 0, next, old(pipe), pipe)
        invariant !again && r.Got? ==> |pipe| < |old(pipe)|
        invariant Incoming() == old(Incoming()) && old(consumed) <= consumed
        invariant Boundary()
        invariant again ==> Waiting() && delivered == old(delivered) && closed == old(closed)
        invariant !again && r.Got? ==> Waiting() && buffer == [] && delivered == old(delivered) + [r.datagram]
        invariant !again && !r.Got? ==> Concludes(r) && Tight(buffer, Reading()) && delivered == old(delivered)
        invariant !again && !r.Failed? ==> closed == old(closed)
        decreases if again then 1 else 0, |Incoming()| - |consumed|
      {
        r, again, next := ReadOne(pace, next);
      }
    }

    method ReadOrClose(pace: seq<nat>) returns (r: Received)
      requires Waiting() && !closed && stream
      modifies `buffer, `pipe, `closed, `stream, `consumed, `delivered
      ensures Reasoned(r, pace, old(pipe), pipe)
      ensures Incoming() == old(Incoming()) && old(consumed) <= consumed
      ensures !r.AlreadyClosed? && (closed <==> r.Failed?) && (closed <==> !stream)
      ensures !closed ==> Waiting()
      ensures delivered == old(delivered) + if r.Got? then [r.datagram] else []
      ensures DecodeFrames(consumed + buffer, Reading()) == Decoding(delivered, buffer, FrameFailure(r))
      ensures r != Failed(BufferCeiling) && (!r.Failed? ==> |buffer| < Ceiling(Reading()))
    {
      r := ReadFrame(pace);
      CallEnds(consumed, delivered, buffer, Reading(), r);
      if r.Failed? {
        closed := true;
        stream := false;
      }
    }

    /**
      However the reads are fragmented and wherever calls were dropped before,
      the delivered datagrams are those of a one-shot decoding of the bytes read.
     */
    method Receive(pace: seq<nat>) returns (r: Received)
      requires Valid()
      modifies `buffer, `pipe, `closed, `stream, `consumed, `delivered
      ensures Valid() && Incoming() == old(Incoming()) && old(consumed) <= consumed
      ensures Reasoned(r, pace, old(pipe), pipe)
      ensures r.AlreadyClosed? <==> old(closed)
      ensures old(closed) ==> consumed == old(consumed) && buffer == old(buffer) && pipe == old(pipe)
      ensures delivered == old(delivered) + if r.Got? then [r.datagram] else []
      ensures !old(closed) ==> DecodeFrames(consumed + buffer, Reading()) == Decoding(delivered, buffer, FrameFailure(r))
      ensures closed <==> old(closed) || r.Failed?
      ensures r != Failed(BufferCeiling) && (!closed ==> |buffer| < Ceiling(Reading()))
    {
      if closed {
        r := AlreadyClosed;
      } else {
        r := ReadOrClose(pace);
      }
    }

    // --------------------------------------------------------------- sending

    /** Hands the stream to one write; only a write that completes gives it back. */
    method WriteOut(frame: Bytes, fate: Fate) returns (whole: bool)
      requires Written() && !closed && NextFrame(globalId, |sent|, frame)
      modifies `wire, `tail, `closed, `stream
      ensures Written() && closed && !stream && (whole <==> fate.Whole?)
      ensures wire == old(wire) + tail && tail == if whole then frame else frame[..Min(fate.n, |frame|)]
    {
      whole := fate.Whole?;
      var out := if whole then frame else frame[..Min(fate.n, |frame|)];
      TornWire(globalId, sent, wire, frame, out);
      closed, stream := true, false;
      wire := wire + out;
      tail := out;
    }

    /**
      A datagram's frame goes out whole, or the association is closed behind
      whatever part of it went out; a refused datagram writes nothing.
     */
    method Send(d: Datagram, fate: Fate) returns (r: Sending)
      requires Valid()
      modifies `wire, `tail, `closed, `stream, `firstWrite, `lastRemote, `sent, `consumed, `delivered
      ensures Valid()
      ensures r.SendClosed? <==> old(closed)
      ensures r.Rejected? <==> !old(closed) && (|d.payload| > maxRequest || !Encodable(d))
      ensures !r.SendClosed? && !r.Rejected? ==> (r.Sent? <==> fate.Whole?)
      ensures r.Sent? ==> sent == old(sent) + [d] && wire == old(wire) + FrameFor(globalId, |old(sent)|, d)
      ensures r.Sent? ==> !closed && consumed == [] && delivered == []
      ensures r.Interrupted? ==>
                var frame := FrameFor(globalId, |old(sent)|, d);
                && closed && sent == old(sent) && wire == old(wire) + frame[..Min(fate.n, |frame|)]
                && consumed == old(consumed) && delivered == old(delivered)
      ensures r.SendClosed? || r.Rejected? ==>
                && wire == old(wire) && sent == old(sent) && closed == old(closed)
                && consumed == old(consumed) && delivered == old(delivered)
    {
      if closed {
        return SendClosed;
      }
      if |d.payload| > maxRequest {
        return Rejected;
      }
      var encoded := EncodeFrame(d, firstWrite, if firstWrite && globalId != NO_ID then Some(globalId) else None);
      if encoded.Err? {
        return Rejected;
      }
      WireSnoc(globalId, sent, d, wire);
      assert NextFrame(globalId, |sent|, encoded.value);
      var whole := SendFrame(d, encoded.value, fate);
      r := if whole then Sent else Interrupted;
    }

    method SendFrame(d: Datagram, frame: Bytes, fate: Fate) returns (whole: bool)
      requires Written() && !closed && NextFrame(globalId, |sent|, frame) && Encodable(d)
      requires Unfinished(buffer, Reading()) && wire + frame == Frames(globalId, sent + [d])
      modifies `wire, `tail, `closed, `stream, `firstWrite, `lastRemote, `sent, `consumed, `delivered
      ensures Valid() && (whole <==> fate.Whole?)
      ensures whole ==> !closed && sent == old(sent) + [d] && wire == old(wire) + frame && consumed == [] && delivered == []
      ensures !whole ==> closed && sent == old(sent) && wire == old(wire) + frame[..Min(fate.n, |frame|)]
      ensures !whole ==> consumed == old(consumed) && delivered == old(delivered)
    {
      whole := fate.Whole?;
      if whole {
        SendWhole(d, frame);
      } else {
        var cut := WriteOut(frame, fate);
      }
    }

    method SendWhole(d: Datagram, frame: Bytes)
      requires Written() && !closed && NextFrame(globalId, |sent|, frame) && Encodable(d)
      requires Unfinished(buffer, Reading()) && wire + frame == Frames(globalId, sent + [d])
      modifies `wire, `tail, `closed, `stream, `firstWrite, `lastRemote, `sent, `consumed, `delivered
      ensures Valid() && !closed && sent == old(sent) + [d] && consumed == [] && delivered == []
      ensures wire == old(wire) + frame
    {
      var whole := WriteOut(frame, Whole);
      Remember(d);
    }

    /** What a completed send leaves: the stream is back, and its datagram is the last remote. */
    method Remember(d: Datagram)
      requires Encodable(d) && |globalId| == 8 && AllEncodable(sent) && closed && Unfinished(buffer, Reading())
      requires wire == Frames(globalId, sent + [d])
      modifies `tail, `closed, `stream, `firstWrite, `lastRemote, `sent, `consumed, `delivered
      ensures Valid() && !closed && sent == old(sent) + [d] && consumed == [] && delivered == []
    {
      NeedSurvives(buffer, Reading(), d.remote);
      stream, closed, firstWrite, lastRemote := true, false, false, Some(d.remote);
      sent, tail := sent + [d], [];
      consumed, delivered := [], [];
      assert NextFrame(globalId, |sent|, END_FRAME);
      NothingRead(Reading());
    }

    /** Ends the association once; afterwards nothing more is written. */
    method Close(fate: Fate)
      requires Valid()
      modifies `wire, `tail, `closed, `stream
      ensures Valid() && closed
      ensures old(closed) ==> wire == old(wire)
      ensures !old(closed) ==>
                wire == old(wire) + if fate.Whole? then END_FRAME else END_FRAME[..Min(fate.n, |END_FRAME|)]
    {
      if !closed {
        var whole := WriteOut(END_FRAME, fate);
      }
    }
  }

  // --------------------------------------------------------------- whole runs

  datatype Operation = SendOp(datagram: Datagram, fate: Fate) | ReceiveOp(pace: seq<nat>) | CloseOp(fate: Fate)

  datatype Result = SendResult(sending: Sending) | ReceiveResult(received: Received) | CloseResult

  datatype Setting = Setting(globalId: Bytes, maxRequest: nat, maxResponse: nat, utf8: Text)

  /** What one operation can see of an association and change in it. */
  datatype View = View(
    wire: Bytes, sent: seq<Datagram>, closed: bool, pipe: Bytes, buffer: Bytes, consumed: Bytes, delivered: seq<Datagram>)

  /** What a write puts on the wire. */
  function Part(frame: Bytes, fate: Fate): (out: Bytes)
  {
    if fate.Whole? then frame else frame[..Min(fate.n, |frame|)]
  }

  ghost predicate Refused(c: Setting, d: Datagram)
  {
    |d.payload| > c.maxRequest || !Encodable(d)
  }

  ghost predicate SendDone(c: Setting, s: View, d: Datagram, fate: Fate, r: Sending, t: View)
    requires |c.globalId| == 8
  {
    if s.closed then r == SendClosed && t == s
    else if Refused(c, d) then r == Rejected && t == s
    else
      var wire := s.wire + Part(FrameFor(c.globalId, |s.sent|, d), fate);
      if fate.Whole? then r == Sent && t == View(wire, s.sent + [d], false, s.pipe, s.buffer, [], [])
      else r == Interrupted && t == s.(wire := wire, closed := true)
  }

  ghost predicate ReceiveDone(c: Setting, s: View, pace: seq<nat>, r: Received, t: View)
  {
    && t.wire == s.wire && t.sent == s.sent && Reasoned(r, pace, s.pipe, t.pipe)
    && if s.closed then r == AlreadyClosed && t == s
       else
         && !r.AlreadyClosed? && (t.closed <==> r.Failed?)
         && t.consumed + (t.buffer + t.pipe) == s.consumed + (s.buffer + s.pipe) && s.consumed <= t.consumed
         && t.delivered == s.delivered + (if r.Got? then [r.datagram] else [])
         && DecodeFrames(t.consumed + t.buffer, Context(LastRemote(s.sent), c.maxResponse, c.utf8))
            == Decoding(t.delivered, t.buffer, FrameFailure(r))
  }

  ghost predicate CloseDone(s: View, fate: Fate, t: View)
  {
    t == if s.closed then s else s.(wire := s.wire + Part(END_FRAME, fate), closed := true)
  }

  ghost predicate Performed(c: Setting, s: View, operation: Operation, result: Result, t: View)
    requires |c.globalId| == 8
  {
    match operation
    case SendOp(d, fate) => result.SendResult? && SendDone(c, s, d, fate, result.sending, t)
    case ReceiveOp(pace) => result.ReceiveResult? && ReceiveDone(c, s, pace, result.received, t)
    case CloseOp(fate) => result == CloseResult && CloseDone(s, fate, t)
  }

  /** An association and what its operations have returned so far. */
  datatype Run = Run(view: View, results: seq<Result>)

  ghost predicate Turned(c: Setting, s: Run, operation: Operation, t: Run)
  {
    && |t.results| == |s.results| + 1 && t.results[..|s.results|] == s.results && |c.globalId| == 8
    && Performed(c, s.view, operation, t.results[|s.results|], t.view)
  }

  ghost function RunTurn(c: Setting): (turn: Turning<Run, Operation>)
  {
    (s, operation, t) => Turned(c, s, operation, t)
  }

  /** What an operation puts on the wire. */
  ghost function WrittenBy(c: Setting, s: View, operation: Operation): (out: Bytes)
    requires |c.globalId| == 8
  {
    if s.closed then []
    else
      match operation
      case SendOp(d, fate) => if Refused(c, d) then [] else Part(FrameFor(c.globalId, |s.sent|, d), fate)
      case ReceiveOp(_) => []
      case CloseOp(fate) => Part(END_FRAME, fate)
  }

  ghost function Writes(c: Setting): (emits: (Run, Operation) -> Bytes)
    requires |c.globalId| == 8
  {
    (s: Run, operation) => WrittenBy(c, s.view, operation)
  }

  /** The wire grows by exactly what the operations of a run write, in order. */
  lemma RunWrites(c: Setting, start: Run, operations: seq<Operation>, trace: seq<Run>)
    requires RunsOver(start, RunTurn(c), operations, trace) && |c.globalId| == 8
    ensures trace[|trace| - 1].view.wire == start.view.wire + Emitted(Writes(c), operations, trace)
  {
    var turn, emits, total := RunTurn(c), Writes(c), (s: Run) => s.view.wire;
    forall s, operation, t | turn(s, operation, t) ensures Adds(total, emits, s, operation, t) {
      Associate(s.view.wire, [], []);
    }
    RunEmits(start, turn, total, emits, operations, trace);
  }

  /** No operation takes anything off the wire, and a closed association stays as it is on it. */
  lemma PerformedKeeps(c: Setting, s: View, operation: Operation, result: Result, t: View)
    requires |c.globalId| == 8 && Performed(c, s, operation, result, t)
    ensures Onward(s, t)
  {
  }

  ghost predicate Onward(s: View, t: View)
  {
    s.wire <= t.wire && s.sent <= t.sent && (s.closed ==> t.closed && t.wire == s.wire)
  }

  lemma OnwardStill(s: View, t: View, u: View)
    requires Onward(s, t) && Onward(t, u)
    ensures Onward(s, u)
  {
  }

  /**
    Over any run each operation does what it promises and returns what it should,
    so what is on the wire stays, and nothing follows once the association is closed.
   */
  method Drive(t: Transport, operations: seq<Operation>) returns (results: seq<Result>, ghost trace: seq<Run>)
    requires t.Valid()
    modifies t
    ensures t.Valid() && Onward(old(t.State()), t.State())
    ensures RunsOver(Run(old(t.State()), []), RunTurn(t.Limits()), operations, trace) && |trace| == |operations| + 1
    ensures trace[|operations|] == Run(t.State(), results)
  {
    TurnsCovered(t.Limits());
    results, trace := PerformAll(t, operations, RunTurn(t.Limits()));
  }

  lemma TurnsCovered(c: Setting)
    ensures Covers(RunTurn(c), c)
  {
  }

  /** Every turn of an association is one of `turn`. */
  ghost predicate Covers(turn: Turning<Run, Operation>, c: Setting)
  {
    forall s, operation, t :: CoversTurn(turn, c, s, operation, t)
  }

  ghost predicate CoversTurn(turn: Turning<Run, Operation>, c: Setting, s: Run, operation: Operation, t: Run)
  {
    Turned(c, s, operation, t) ==> turn(s, operation, t)
  }

  /** A run has come to `view` after `n` operations. */
  ghost predicate ComesTo(
    start: View, turn: Turning<Run, Operation>, operations: seq<Operation>, n: nat, trace: seq<Run>, view: View, results: seq<Result>)
  {
    && RunsOver(Run(start, []), turn, operations, trace) && |trace| == n + 1 && trace[n] == Run(view, results)
    && Onward(start, view)
  }

  lemma ComesFurther(
    start: View, turn: Turning<Run, Operation>, operations: seq<Operation>, n: nat, trace: seq<Run>, view: View, results: seq<Result>,
    view': View, results': seq<Result>)
    requires ComesTo(start, turn, operations, n, trace, view, results) && n < |operations|
    requires turn(Run(view, results), operations[n], Run(view', results')) && Onward(view, view')
    ensures ComesTo(start, turn, operations, n + 1, trace + [Run(view', results')], view', results')
  {
    OnwardStill(start, view, view');
    RunGoesOn(Run(start, []), turn, operations, trace, Run(view', results'));
  }

  method PerformAll(t: Transport, operations: seq<Operation>, ghost turn: Turning<Run, Operation>)
    returns (results: seq<Result>, ghost trace: seq<Run>)
    requires t.Valid() && Covers(turn, t.Limits())
    modifies t
    ensures t.Valid() && ComesTo(old(t.State()), turn, operations, |operations|, trace, t.State(), results)
  {
    results, trace := [], [Run(t.State(), [])];
    for i := 0 to |operations|
      invariant t.Valid() && ComesTo(old(t.State()), turn, operations, i, trace, t.State(), results)
    {
      ghost var view, before := t.State(), results;
      results := PerformNext(t, operations[i], results, turn);
      ComesFurther(old(t.State()), turn, operations, i, trace, view, before, t.State(), results);
      trace := trace + [Run(t.State(), results)];
    }
  }

  method PerformNext(t: Transport, operation: Operation, results: seq<Result>, ghost turn: Turning<Run, Operation>)
    returns (longer: seq<Result>)
    requires t.Valid() && Covers(turn, t.Limits())
    modifies t
    ensures t.Valid() && turn(Run(old(t.State()), results), operation, Run(t.State(), longer))
    ensures Onward(old(t.State()), t.State())
  {
    var r := Perform(t, operation);
    TakesTurn(t.Limits(), old(t.State()), results, operation, r, t.State());
    PerformedKeeps(t.Limits(), old(t.State()), operation, r, t.State());
    longer := results + [r];
    assert CoversTurn(turn, t.Limits(), Run(old(t.State()), results), operation, Run(t.State(), longer));
  }

  lemma TakesTurn(c: Setting, s: View, results: seq<Result>, operation: Operation, r: Result, t: View)
    requires |c.globalId| == 8 && Performed(c, s, operation, r, t)
    ensures Turned(c, Run(s, results), operation, Run(t, results + [r]))
  {
  }

  method Perform(t: Transport, operation: Operation) returns (result: Result)
    requires t.Valid()
    modifies t
    ensures t.Valid() && |t.globalId| == 8 && Performed(t.Limits(), old(t.State()), operation, result, t.State())
  {
    match operation {
      case SendOp(d, fate) =>
        var r := PerformSend(t, d, fate);
        result := SendResult(r);
      case ReceiveOp(pace) =>
        var r := PerformReceive(t, pace);
        result := ReceiveResult(r);
      case CloseOp(fate) =>
        PerformClose(t, fate);
        result := CloseResult;
    }
  }

  method PerformSend(t: Transport, d: Datagram, fate: Fate) returns (r: Sending)
    requires t.Valid()
    modifies t
    ensures t.Valid() && |t.globalId| == 8 && SendDone(t.Limits(), old(t.State()), d, fate, r, t.State())
  {
    r := t.Send(d, fate);
  }

  method PerformReceive(t: Transport, pace: seq<nat>) returns (r: Received)
    requires t.Valid()
    modifies t
    ensures t.Valid() && |t.globalId| == 8 && ReceiveDone(t.Limits(), old(t.State()), pace, r, t.State())
  {
    r := t.Receive(pace);
  }

  method PerformClose(t: Transport, fate: Fate)
    requires t.Valid()
    modifies t
    ensures t.Valid() && |t.globalId| == 8 && CloseDone(old(t.State()), fate, t.State())
  {
    t.Close(fate);
  }

  /** No receive is dropped before its first poll, and no poll finds the stream failing. */
  ghost predicate Steady(paces: seq<seq<nat>>)
  {
    forall i :: 0 <= i < |paces| ==> paces[i] != [] && 0 !in paces[i]
  }

  /** All that the stream holds has been delivered: it is read to its end, or it has failed. */
  ghost predicate Finished(read: Bytes, pipe: Bytes, c: Context)
  {
    pipe == [] || DecodeFrames(read, c).error.Some?
  }

  /** Over any run of receives, fragmented and dropped at will, the datagrams are those of the stream itself. */
  method Drain(t: Transport, paces: seq<seq<nat>>) returns (received: seq<Datagram>)
    requires t.Valid() && t.delivered == []
    modifies t`buffer, t`pipe, t`closed, t`stream, t`consumed, t`delivered
    ensures t.Valid() && t.Incoming() == old(t.Incoming())
    ensures !old(t.closed) ==> received <= DecodeFrames(old(t.Incoming()), t.Reading()).items
    ensures !old(t.closed) && t.pipe == [] ==> received == DecodeFrames(old(t.Incoming()), t.Reading()).items
    ensures !old(t.closed) && Steady(paces) && |paces| > |old(t.pipe)| ==>
      received == DecodeFrames(old(t.Incoming()), t.Reading()).items
  {
    received := [];
    ghost var c := t.Reading();
    if !t.closed {
      CallEnds(t.consumed, [], t.buffer, c, Dropped);
    }
    for i := 0 to |paces|
      invariant t.Valid() && t.Reading() == c && t.Incoming() == old(t.Incoming()) && received == t.delivered
      invariant !old(t.closed) ==> DecodeFrames(t.consumed + t.buffer, c).items == received
      invariant !old(t.closed) && Steady(paces) ==>
        if t.closed then Finished(t.consumed + t.buffer, t.pipe, c) else i <= |old(t.pipe)| - |t.pipe|
    {
      var r := t.Receive(paces[i]);
      if r.Got? {
        received := received + [r.datagram];
      }
    }
    PartDelivers(t.consumed, t.buffer, t.pipe, c);
  }
}
