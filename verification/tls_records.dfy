/**
  The TLS half of the TCP sniffer: handshake records (section 5.1 of RFC 8446),
  the one-record fast path, and reassembly of a ClientHello over many records.
 */
module TlsRecords {
  import opened Base
  import opened ClientHello

  const HANDSHAKE: nat := 0x16
  const MAJOR_VERSION: nat := 3

  datatype Record = Complete(payload: Bytes, next: nat) | Incomplete | Invalid

  /** `tls_record_payload`: the handshake record at `offset`. */
  function RecordAt(input: Bytes, offset: nat): (r: Record)
    ensures r.Complete? ==> offset + 5 < r.next <= |input| && |r.payload| > 0 && r.payload == input[offset + 5..r.next]
  {
    if |input| < offset + 5 then Incomplete
    else if input[offset] != HANDSHAKE || input[offset + 1] != MAJOR_VERSION then Invalid
    else
      var length := U16(input[offset + 3], input[offset + 4]);
      var end := offset + 5 + length;
      if length == 0 || end > MAX_BYTES then Invalid
      else if |input| < end then Incomplete
      else Complete(input[offset + 5..end], end)
  }

  // ------------------------------------------------------------ description

  datatype Gathered = Have(bytes: Bytes, next: nat) | Wait | Broken

  /** Appends record payloads to `got` until it holds `want` bytes. */
  function Gather(input: Bytes, cursor: nat, got: Bytes, want: nat): (r: Gathered)
    ensures r.Have? ==> |r.bytes| >= want && got <= r.bytes
    decreases if |input| < cursor then 0 else |input| - cursor
  {
    if |got| >= want then Have(got, cursor)
    else match RecordAt(input, cursor)
      case Incomplete => Wait
      case Invalid => Broken
      case Complete(payload, next) => Gather(input, next, got + payload, want)
  }

  datatype Message = Whole(bytes: Bytes) | Unfinished | Refused

  /** The message a gathered header announces. */
  function Announced(input: Bytes, header: Bytes, next: nat): (r: Message)
    requires |header| >= 4
  {
    var total := 4 + U24(header[1], header[2], header[3]);
    if header[0] != TLS_CLIENT_HELLO_TYPE || total > MAX_BYTES then Refused
    else match Gather(input, next, header, total)
      case Wait => Unfinished
      case Broken => Refused
      case Have(message, _) => Whole(message[..total])
  }

  /** The plain reassembler: four header bytes, then the announced message. */
  function Reassembled(input: Bytes): (r: Message)
  {
    if |input| == 0 then Unfinished
    else if input[0] != HANDSHAKE then Refused
    else if |input| < 3 then Unfinished
    else if input[1] != MAJOR_VERSION then Refused
    else match Gather(input, 0, [], 4)
      case Wait => Unfinished
      case Broken => Refused
      case Have(header, next) => Announced(input, header, next)
  }

  function Judged(normalize: Normalizer, message: Message): (r: ParseOutcome)
    ensures r == NeedMoreData <==> message == Unfinished
  {
    match message
    case Whole(bytes) => HelloOutcome(normalize, bytes)
    case Unfinished => NeedMoreData
    case Refused => NotMatched
  }

  function TlsOutcome(normalize: Normalizer, input: Bytes): (r: ParseOutcome)
  {
    Judged(normalize, Reassembled(input))
  }

  // ------------------------------------------- decisions survive more bytes

  lemma RecordStable(shorter: Bytes, longer: Bytes, offset: nat)
    requires shorter <= longer && !RecordAt(shorter, offset).Incomplete?
    ensures RecordAt(longer, offset) == RecordAt(shorter, offset)
  {
  }

  lemma {:induction false} GatherStable(shorter: Bytes, longer: Bytes, cursor: nat, got: Bytes, want: nat)
    requires shorter <= longer && !Gather(shorter, cursor, got, want).Wait?
    ensures Gather(longer, cursor, got, want) == Gather(shorter, cursor, got, want)
    decreases if |shorter| < cursor then 0 else |shorter| - cursor
  {
    if |got| < want {
      RecordStable(shorter, longer, cursor);
      if RecordAt(shorter, cursor).Complete? {
        var r := RecordAt(shorter, cursor);
        GatherStable(shorter, longer, r.next, got + r.payload, want);
      }
    }
  }

  lemma AnnouncedStable(shorter: Bytes, longer: Bytes, header: Bytes, next: nat)
    requires shorter <= longer && |header| >= 4 && Announced(shorter, header, next) != Unfinished
    ensures Announced(longer, header, next) == Announced(shorter, header, next)
  {
    var total := 4 + U24(header[1], header[2], header[3]);
    if header[0] == TLS_CLIENT_HELLO_TYPE && total <= MAX_BYTES {
      GatherStable(shorter, longer, next, header, total);
    }
  }

  lemma ReassembledStable(shorter: Bytes, longer: Bytes)
    requires shorter <= longer && Reassembled(shorter) != Unfinished
    ensures Reassembled(longer) == Reassembled(shorter)
  {
    if |shorter| >= 3 && shorter[0] == HANDSHAKE && shorter[1] == MAJOR_VERSION {
      GatherStable(shorter, longer, 0, [], 4);
      var gathered := Gather(shorter, 0, [], 4);
      if gathered.Have? {
        AnnouncedStable(shorter, longer, gathered.bytes, gathered.next);
      }
    }
  }

  /** A TLS decision never changes when more of the stream arrives. */
  lemma TlsStable(normalize: Normalizer, shorter: Bytes, longer: Bytes)
    requires shorter <= longer && TlsOutcome(normalize, shorter) != NeedMoreData
    ensures TlsOutcome(normalize, longer) == TlsOutcome(normalize, shorter)
  {
    ReassembledStable(shorter, longer);
  }

  // ------------------------------------------------------------ the sniffer

  /** The record loops of `sniff_tls_sni`: reads records until enough is gathered. */
  method GatherRecords(input: Bytes, start: nat, first: Bytes, want: nat) returns (r: Gathered)
    ensures r == Gather(input, start, first, want)
  {
    var handshake, cursor := first, start;
    while |handshake| < want
      invariant Gather(input, start, first, want) == Gather(input, cursor, handshake, want)
      decreases want - |handshake|
    {
      var record := RecordAt(input, cursor);
      match record
      case Incomplete => return Wait;
      case Invalid => return Broken;
      case Complete(payload, next) =>
        handshake, cursor := handshake + payload, next;
    }
    return Have(handshake, cursor);
  }

  /** The message once the first record is complete. */
  function AfterFirst(input: Bytes, payload: Bytes, next: nat): (r: Message)
  {
    match Gather(input, next, payload, 4)
    case Wait => Unfinished
    case Broken => Refused
    case Have(header, after) => Announced(input, header, after)
  }

  lemma FirstRecord(input: Bytes)
    requires |input| >= 3 && input[0] == HANDSHAKE && input[1] == MAJOR_VERSION && RecordAt(input, 0).Complete?
    ensures var record := RecordAt(input, 0);
      Reassembled(input) == AfterFirst(input, record.payload, record.next)
  {
    assert [] + RecordAt(input, 0).payload == RecordAt(input, 0).payload;
  }

  lemma NoFirstRecord(input: Bytes)
    requires |input| >= 3 && input[0] == HANDSHAKE && input[1] == MAJOR_VERSION && !RecordAt(input, 0).Complete?
    ensures Reassembled(input) == if RecordAt(input, 0).Incomplete? then Unfinished else Refused
  {
  }

  /** The announced message, from the records gathered so far and those that follow. */
  method ReadMessage(input: Bytes, header: Bytes, next: nat) returns (message: Message)
    requires |header| >= 4
    ensures message == Announced(input, header, next)
  {
    if header[0] != TLS_CLIENT_HELLO_TYPE {
      return Refused;
    }
    var total := 4 + U24(header[1], header[2], header[3]);
    if total > MAX_BYTES {
      return Refused;
    }
    var gathered := GatherRecords(input, next, header, total);
    match gathered
    case Wait => message := Unfinished;
    case Broken => message := Refused;
    case Have(bytes, _) => message := Whole(bytes[..total]);
  }

  /** The slow path: gathers the header, then the message. */
  method Reassemble(input: Bytes, payload: Bytes, next: nat) returns (message: Message)
    ensures message == AfterFirst(input, payload, next)
  {
    var header := GatherRecords(input, next, payload, 4);
    match header
    case Wait => message := Unfinished;
    case Broken => message := Refused;
    case Have(bytes, after) => message := ReadMessage(input, bytes, after);
  }

  /** A message that lies inside the first record needs no reassembly. */
  lemma FastPath(input: Bytes, payload: Bytes, next: nat)
    requires |payload| >= 4
    ensures var total := 4 + U24(payload[1], payload[2], payload[3]);
      && (payload[0] != TLS_CLIENT_HELLO_TYPE || total > MAX_BYTES ==> AfterFirst(input, payload, next) == Refused)
      && (payload[0] == TLS_CLIENT_HELLO_TYPE && total <= MAX_BYTES && total <= |payload| ==>
            AfterFirst(input, payload, next) == Whole(payload[..total]))
  {
  }

  /** The part of `sniff_tls_sni` after a complete first record: its fast path, then reassembly. */
  method FindMessage(input: Bytes, payload: Bytes, next: nat) returns (message: Message)
    ensures message == AfterFirst(input, payload, next)
  {
    if |payload| >= 4 {
      FastPath(input, payload, next);
      if payload[0] != TLS_CLIENT_HELLO_TYPE {
        return Refused;
      }
      var announced := 4 + U24(payload[1], payload[2], payload[3]);
      if announced > MAX_BYTES {
        return Refused;
      }
      if |payload| >= announced {
        return Whole(payload[..announced]);
      }
    }
    message := Reassemble(input, payload, next);
  }

  method FirstMessage(input: Bytes) returns (message: Message)
    ensures message == Reassembled(input)
  {
    if |input| == 0 {
      return Unfinished;
    }
    if input[0] != HANDSHAKE {
      return Refused;
    }
    if |input| < 3 {
      return Unfinished;
    }
    if input[1] != MAJOR_VERSION {
      return Refused;
    }
    var record := RecordAt(input, 0);
    if !record.Complete? {
      NoFirstRecord(input);
      return if record.Incomplete? then Unfinished else Refused;
    }
    FirstRecord(input);
    message := FindMessage(input, record.payload, record.next);
  }

  /** `sniff_tls_sni`: one complete record decides at once; otherwise records are reassembled. */
  method SniffTlsSni(normalize: Normalizer, input: Bytes) returns (outcome: ParseOutcome)
    ensures outcome == TlsOutcome(normalize, input)
  {
    var message := FirstMessage(input);
    match message
    case Whole(bytes) => outcome := ParseClientHello(normalize, bytes);
    case Unfinished => outcome := NeedMoreData;
    case Refused => outcome := NotMatched;
  }

  // --------------------------------------------------- any split into records

  datatype Piece = Piece(minor: Byte, payload: Bytes)

  function EncodePiece(piece: Piece): (bytes: Bytes)
    requires |piece.payload| < 0x1_0000
  {
    [HANDSHAKE, MAJOR_VERSION, piece.minor] + PutU16(|piece.payload|) + piece.payload
  }

  ghost predicate Pieces(pieces: seq<Piece>)
  {
    forall i :: 0 <= i < |pieces| ==> 0 < |pieces[i].payload| < 0x1_0000
  }

  function Encode(pieces: seq<Piece>): (bytes: Bytes)
    requires Pieces(pieces)
  {
    if |pieces| == 0 then [] else EncodePiece(pieces[0]) + Encode(pieces[1..])
  }

  /** The handshake stream the records carry. */
  function Content(pieces: seq<Piece>): (bytes: Bytes)
  {
    if |pieces| == 0 then [] else pieces[0].payload + Content(pieces[1..])
  }

  lemma PieceAt(before: Bytes, piece: Piece, rest: Bytes)
    requires 0 < |piece.payload| < 0x1_0000
    requires |before| + |EncodePiece(piece)| <= MAX_BYTES
    ensures RecordAt(before + EncodePiece(piece) + rest, |before|)
         == Complete(piece.payload, |before| + |EncodePiece(piece)|)
  {
    var input, offset := before + EncodePiece(piece) + rest, |before|;
    var length := PutU16(|piece.payload|);
    assert input[offset + 3] == length[0] && input[offset + 4] == length[1];
    assert input[offset + 5..offset + 5 + |piece.payload|] == piece.payload;
  }

  lemma GatherPiece(before: Bytes, piece: Piece, rest: Bytes, got: Bytes, want: nat)
    requires 0 < |piece.payload| < 0x1_0000 && |got| < want
    requires |before| + |EncodePiece(piece)| <= MAX_BYTES
    ensures var input := before + EncodePiece(piece) + rest;
      Gather(input, |before|, got, want) == Gather(input, |before + EncodePiece(piece)|, got + piece.payload, want)
  {
    PieceAt(before, piece, rest);
  }

  /**
    Gathering from encoded records stops at a record boundary with an initial
    part of the stream, and what is left there is the rest of the stream.
   */
  lemma {:induction false} GatherEncoded(before: Bytes, pieces: seq<Piece>, got: Bytes, want: nat)
    returns (stop: Bytes, left: seq<Piece>, bytes: Bytes)
    requires Pieces(pieces) && |before + Encode(pieces)| <= MAX_BYTES
    requires |got| + |Content(pieces)| >= want
    ensures Pieces(left) && stop + Encode(left) == before + Encode(pieces)
    ensures bytes + Content(left) == got + Content(pieces)
    ensures Gather(before + Encode(pieces), |before|, got, want) == Have(bytes, |stop|)
    decreases |pieces|
  {
    if |got| >= want {
      return before, pieces, got;
    }
    var piece, rest := pieces[0], pieces[1..];
    GatherPiece(before, piece, Encode(rest), got, want);
    Associate(before, EncodePiece(piece), Encode(rest));
    Associate(got, piece.payload, Content(rest));
    stop, left, bytes := GatherEncoded(before + EncodePiece(piece), rest, got + piece.payload, want);
  }

  lemma StartsAsHandshake(pieces: seq<Piece>)
    requires Pieces(pieces) && |pieces| > 0
    ensures var input := Encode(pieces);
      |input| >= 3 && input[0] == HANDSHAKE && input[1] == MAJOR_VERSION
  {
  }

  /**
    Any split of a handshake stream into non-empty records within the sniffing
    limit is judged as its first message, as if it had come in one piece.
   */
  lemma SplitIsInvisible(normalize: Normalizer, pieces: seq<Piece>, message: Bytes)
    requires Pieces(pieces) && |Encode(pieces)| <= MAX_BYTES
    requires |message| >= 4 && |message| == 4 + U24(message[1], message[2], message[3])
    requires message <= Content(pieces)
    ensures TlsOutcome(normalize, Encode(pieces)) == HelloOutcome(normalize, message)
  {
    var input, stream := Encode(pieces), Content(pieces);
    StartsAsHandshake(pieces);
    assert [] + input == input && [] + stream == stream;
    var stop, left, header := GatherEncoded([], pieces, [], 4);
    SameStart(header, Content(left), message, stream, 4);
    ContentFits(pieces);
    var end, rest, whole := GatherEncoded(stop, left, header, |message|);
    SameStart(whole, Content(rest), message, stream, |message|);
    GatheredOutcome(normalize, input, header, |stop|, whole, |end|, message);
  }

  /** Two initial parts of one stream agree as far as both go. */
  lemma SameStart(a: Bytes, more: Bytes, b: Bytes, stream: Bytes, n: nat)
    requires a + more == stream && b <= stream && n <= |a| && n <= |b|
    ensures a[..n] == b[..n]
  {
    assert a == stream[..|a|];
  }

  lemma GatheredOutcome(
    normalize: Normalizer, input: Bytes, header: Bytes, next: nat, whole: Bytes, end: nat, message: Bytes)
    requires |input| >= 3 && input[0] == HANDSHAKE && input[1] == MAJOR_VERSION
    requires 4 <= |message| <= MAX_BYTES && |message| == 4 + U24(message[1], message[2], message[3])
    requires Gather(input, 0, [], 4) == Have(header, next) && header[..4] == message[..4]
    requires Gather(input, next, header, |message|) == Have(whole, end) && whole[..|message|] == message[..|message|]
    ensures TlsOutcome(normalize, input) == HelloOutcome(normalize, message)
  {
    GatheredMessage(input, header, next, whole, end, message);
    if message[0] != TLS_CLIENT_HELLO_TYPE {
      OtherMessage(normalize, message);
    }
  }

  lemma GatheredMessage(input: Bytes, header: Bytes, next: nat, whole: Bytes, end: nat, message: Bytes)
    requires |input| >= 3 && input[0] == HANDSHAKE && input[1] == MAJOR_VERSION
    requires 4 <= |message| <= MAX_BYTES && |message| == 4 + U24(message[1], message[2], message[3])
    requires Gather(input, 0, [], 4) == Have(header, next) && header[..4] == message[..4]
    requires Gather(input, next, header, |message|) == Have(whole, end) && whole[..|message|] == message[..|message|]
    ensures Reassembled(input) == if message[0] == TLS_CLIENT_HELLO_TYPE then Whole(message) else Refused
  {
    SameFour(header, message);
    assert message[..|message|] == message;
    if message[0] == TLS_CLIENT_HELLO_TYPE {
      AnnouncedWhole(input, header, next, |message|, whole, end);
    }
  }

  lemma SameFour(a: Bytes, b: Bytes)
    requires |a| >= 4 && |b| >= 4 && a[..4] == b[..4]
    ensures a[0] == b[0] && a[1] == b[1] && a[2] == b[2] && a[3] == b[3]
  {
    assert a[..4][0] == b[..4][0] && a[..4][1] == b[..4][1] && a[..4][2] == b[..4][2] && a[..4][3] == b[..4][3];
  }

  lemma AnnouncedWhole(input: Bytes, header: Bytes, next: nat, total: nat, whole: Bytes, end: nat)
    requires |header| >= 4 && header[0] == TLS_CLIENT_HELLO_TYPE
    requires total == 4 + U24(header[1], header[2], header[3]) <= MAX_BYTES
    requires Gather(input, next, header, total) == Have(whole, end)
    ensures Announced(input, header, next) == Whole(whole[..total])
  {
  }

  lemma OtherMessage(normalize: Normalizer, message: Bytes)
    requires |message| >= 4 && message[0] != TLS_CLIENT_HELLO_TYPE
    ensures HelloOutcome(normalize, message) == NotMatched
  {
  }

  lemma {:induction false} ContentFits(pieces: seq<Piece>)
    requires Pieces(pieces)
    ensures |Content(pieces)| <= |Encode(pieces)|
  {
    if |pieces| > 0 { ContentFits(pieces[1..]); }
  }
}
