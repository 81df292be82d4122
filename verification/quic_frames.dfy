/**
  The frames of a decrypted Initial: PADDING, PING, ACK, CRYPTO and
  CONNECTION_CLOSE (section 17.2.2 of RFC 9000); anything else ends sniffing.
 */
module QuicFrames {
  import opened Base
  import opened QuicWire
  import opened CryptoStream

  const MAX_ACK_RANGES: nat := 64

  const PADDING: nat := 0x00
  const PING: nat := 0x01
  const ACK: nat := 0x02
  const ACK_ECN: nat := 0x03
  const CRYPTO: nat := 0x06
  const CONNECTION_CLOSE: nat := 0x1c

  // ------------------------------------------------------------ description

  /** The cursor behind `count` consecutive integers. */
  function SkipVarints(input: Bytes, cursor: nat, count: nat): (r: Option<nat>)
    ensures r.Some? ==> cursor <= r.value && (count > 0 ==> cursor < r.value <= |input|)
    decreases count
  {
    if count == 0 then Some(cursor)
    else match DecodeVarint(input, cursor)
      case None => None
      case Some(v) => SkipVarints(input, v.next, count - 1)
  }

  /** Largest, delay, range count, first range, that many pairs, and three ECN counts. */
  function SkipAck(input: Bytes, cursor: nat, ecn: bool): (r: Option<nat>)
    ensures r.Some? ==> cursor < r.value <= |input|
  {
    match SkipVarints(input, cursor, 2)
    case None => None
    case Some(counted) =>
      match DecodeVarint(input, counted)
      case None => None
      case Some(ranges) =>
        if ranges.value >= MAX_ACK_RANGES then None
        else SkipVarints(input, ranges.next, AckNumbers(ranges.value, ecn))
  }

  /** The numbers after the range count: the first range, a gap and a length for each further one, the ECN counts. */
  function AckNumbers(ranges: nat, ecn: bool): (n: nat)
  {
    1 + 2 * ranges + if ecn then 3 else 0
  }

  /** Error code, frame type, and a reason of announced length. */
  function SkipClose(input: Bytes, cursor: nat): (r: Option<nat>)
    ensures r.Some? ==> cursor < r.value <= |input|
  {
    match SkipVarints(input, cursor, 2)
    case None => None
    case Some(next) =>
      match DecodeSpan(input, next)
      case None => None
      case Some((_, end)) => Some(end)
  }

  datatype CryptoHeader = CryptoHeader(offset: nat, length: nat, next: nat)

  function ReadCryptoHeader(input: Bytes, cursor: nat): (r: Option<CryptoHeader>)
    ensures r.Some? ==> cursor < r.value.next <= |input|
  {
    match DecodeVarint(input, cursor)
    case None => None
    case Some(offset) =>
      match DecodeVarint(input, offset.next)
      case None => None
      case Some(length) => Some(CryptoHeader(offset.value, length.value, length.next))
  }

  datatype Item = Item(fragment: Option<Fragment>, next: nat)
  {
    /** A fragment that is read never reaches past the CRYPTO limit. */
    predicate Bounded()
    {
      fragment.Some? ==> fragment.value.offset + |fragment.value.data| <= MAX_CRYPTO_BYTES
    }
  }

  function CryptoItem(input: Bytes, header: CryptoHeader): (r: Result<Item, Outcome>)
    requires header.next <= |input|
    ensures r.Ok? ==> header.next <= r.value.next <= |input| && r.value.Bounded()
    ensures r.Err? ==> r.error != NeedMoreData
  {
    var end := header.next + header.length;
    if header.offset + header.length > MAX_CRYPTO_BYTES then Err(LimitReached)
    else if end > |input| then Err(NotMatched)
    else Ok(Item(Some(Fragment(header.offset, input[header.next..end])), end))
  }

  /** One frame: the CRYPTO data it carries and where it ends, or the outcome that stops the packet. */
  function ReadFrame(input: Bytes, cursor: nat): (r: Result<Item, Outcome>)
    ensures r.Ok? ==> cursor < r.value.next <= |input| && r.value.Bounded()
    ensures r.Err? ==> r.error != NeedMoreData
  {
    match DecodeVarint(input, cursor)
    case None => Err(NotMatched)
    case Some(kind) =>
      if kind.value == PADDING || kind.value == PING then Ok(Item(None, kind.next))
      else if kind.value == ACK || kind.value == ACK_ECN then
        match SkipAck(input, kind.next, kind.value == ACK_ECN)
        case None => Err(NotMatched)
        case Some(next) => Ok(Item(None, next))
      else if kind.value == CRYPTO then
        match ReadCryptoHeader(input, kind.next)
        case None => Err(NotMatched)
        case Some(header) => CryptoItem(input, header)
      else if kind.value == CONNECTION_CLOSE then
        match SkipClose(input, kind.next)
        case None => Err(NotMatched)
        case Some(next) => Ok(Item(None, next))
      else Err(NotMatched)
  }

  /** The CRYPTO data of a payload up to its end or to the frame that stops it. */
  datatype Payload = Payload(fragments: seq<Fragment>, outcome: Outcome)

  type FrameFunction = (Bytes, nat) -> Result<Item, Outcome>

  ghost predicate Onward(input: Bytes, cursor: nat, r: Result<Item, Outcome>)
  {
    r.Ok? ==> cursor < r.value.next <= |input|
  }

  ghost predicate Advancing(read: FrameFunction)
  {
    forall input, cursor: nat :: Onward(input, cursor, read(input, cursor))
  }

  function WithCarried(carried: Option<Fragment>, rest: Payload): (r: Payload)
  {
    if carried.None? then rest else rest.(fragments := [carried.value] + rest.fragments)
  }

  /** Reads frame after frame, for any way of reading one frame. */
  function ParseFrames(read: FrameFunction, input: Bytes, cursor: nat): (r: Payload)
    requires cursor <= |input| && Advancing(read)
    decreases |input| - cursor
  {
    if cursor == |input| then Payload([], NeedMoreData)
    else
      assert Onward(input, cursor, read(input, cursor));
      match read(input, cursor)
      case Err(outcome) => Payload([], outcome)
      case Ok(item) => WithCarried(item.fragment, ParseFrames(read, input, item.next))
  }

  function ParsePayload(input: Bytes, cursor: nat): (r: Payload)
    requires cursor <= |input|
  {
    assert Advancing(ReadFrame);
    ParseFrames(ReadFrame, input, cursor)
  }

  /** The stream keeps every fragment accepted before a refusal; the refusal is the outcome. */
  ghost function ApplyPayload(view: View, payload: Payload): (r: (View, Outcome))
    decreases |payload.fragments|
  {
    if |payload.fragments| == 0 then (view, payload.outcome)
    else match Insert(view, payload.fragments[0])
      case Err(outcome) => (view, outcome)
      case Ok(next) => ApplyPayload(next, payload.(fragments := payload.fragments[1..]))
  }

  /** Applying a payload never takes a byte of the stream away. */
  lemma {:induction false} ApplyExtends(view: View, payload: Payload)
    ensures Extends(ApplyPayload(view, payload).0, view)
    decreases |payload.fragments|
  {
    if |payload.fragments| > 0 {
      var inserted := Insert(view, payload.fragments[0]);
      InsertExtends(view, payload.fragments[0]);
      if inserted.Ok? {
        var rest := payload.(fragments := payload.fragments[1..]);
        ApplyExtends(inserted.value, rest);
        ExtendsThrough(ApplyPayload(inserted.value, rest).0, inserted.value, view);
      }
    }
  }

  // ------------------------------------------------------------ the readers

  lemma {:induction false} SkipVarintsSplit(input: Bytes, cursor: nat, first: nat, second: nat)
    ensures SkipVarints(input, cursor, first + second)
         == match SkipVarints(input, cursor, first)
              case None => None
              case Some(next) => SkipVarints(input, next, second)
    decreases first
  {
    if first > 0 && DecodeVarint(input, cursor).Some? {
      SkipVarintsSplit(input, DecodeVarint(input, cursor).value.next, first - 1, second);
    }
  }

  /** Reads integers one by one, as the counted loops of the source do. */
  method SkipCounted(input: Bytes, start: nat, count: nat) returns (r: Option<nat>)
    ensures r == SkipVarints(input, start, count)
  {
    var cursor := start;
    for i := 0 to count
      invariant SkipVarints(input, start, i) == Some(cursor)
      invariant SkipVarints(input, start, count) == SkipVarints(input, cursor, count - i)
    {
      SkipVarintsSplit(input, start, i, 1);
      var value, next := ReadVarint(input, cursor);
      if value.None? {
        return None;
      }
      cursor := next;
    }
    return Some(cursor);
  }

  /** `skip_ack_frame`. */
  method SkipAckFrame(input: Bytes, start: nat, ecn: bool) returns (r: Option<nat>)
    ensures r == SkipAck(input, start, ecn)
  {
    var counted := SkipCounted(input, start, 2);
    if counted.None? {
      return None;
    }
    var ranges, cursor := ReadVarint(input, counted.value);
    if ranges.None? || ranges.value >= MAX_ACK_RANGES {
      return None;
    }
    var extra := if ecn then 3 else 0;
    SkipVarintsSplit(input, cursor, 1, 2 * ranges.value + extra);
    var first := SkipCounted(input, cursor, 1);
    if first.None? {
      return None;
    }
    SkipVarintsSplit(input, first.value, 2 * ranges.value, extra);
    var pairs := SkipCounted(input, first.value, 2 * ranges.value);
    if pairs.None? {
      return None;
    }
    r := SkipCounted(input, pairs.value, extra);
  }

  /** `skip_connection_close`. */
  method SkipCloseFrame(input: Bytes, start: nat) returns (r: Option<nat>)
    ensures r == SkipClose(input, start)
  {
    var codes := SkipCounted(input, start, 2);
    if codes.None? {
      return None;
    }
    var length, cursor := ReadVarint(input, codes.value);
    if length.None? || cursor + length.value > |input| {
      return None;
    }
    return Some(cursor + length.value);
  }

  /** The CRYPTO arm of `read_frames`. */
  method ReadCryptoFrame(input: Bytes, start: nat) returns (r: Result<Item, Outcome>)
    ensures r == match ReadCryptoHeader(input, start)
      case None => Err(NotMatched)
      case Some(header) => CryptoItem(input, header)
  {
    var offset, second := ReadVarint(input, start);
    if offset.None? {
      return Err(NotMatched);
    }
    var length, cursor := ReadVarint(input, second);
    if length.None? {
      return Err(NotMatched);
    }
    var end := offset.value + length.value;
    if end > MAX_CRYPTO_BYTES {
      return Err(LimitReached);
    }
    var dataEnd := cursor + length.value;
    if dataEnd > |input| {
      return Err(NotMatched);
    }
    return Ok(Item(Some(Fragment(offset.value, input[cursor..dataEnd])), dataEnd));
  }

  /** One round of the loop of `read_frames`. */
  method ReadOneFrame(input: Bytes, start: nat) returns (r: Result<Item, Outcome>)
    ensures r == ReadFrame(input, start)
  {
    var kind, cursor := ReadVarint(input, start);
    if kind.None? {
      return Err(NotMatched);
    }
    if kind.value == PADDING || kind.value == PING {
      return Ok(Item(None, cursor));
    }
    var skipped: Option<nat> := None;
    if kind.value == ACK || kind.value == ACK_ECN {
      skipped := SkipAckFrame(input, cursor, kind.value == ACK_ECN);
    } else if kind.value == CRYPTO {
      r := ReadCryptoFrame(input, cursor);
      return;
    } else if kind.value == CONNECTION_CLOSE {
      skipped := SkipCloseFrame(input, cursor);
    }
    return if skipped.None? then Err(NotMatched) else Ok(Item(None, skipped.value));
  }

  // ------------------------------------------------------------- round trip

  datatype Number = Number(value: nat, size: nat)
  {
    ghost predicate Valid()
    {
      FitsVarint(value, size)
    }

    function Encode(): (bytes: Bytes)
      requires Valid()
      ensures |bytes| == size
    {
      EncodeVarint(value, size)
    }
  }

  ghost predicate AllNumbers(numbers: seq<Number>)
  {
    |numbers| == 0 || (numbers[0].Valid() && AllNumbers(numbers[1..]))
  }

  function EncodeNumbers(numbers: seq<Number>): (bytes: Bytes)
    requires AllNumbers(numbers)
  {
    if |numbers| == 0 then [] else numbers[0].Encode() + EncodeNumbers(numbers[1..])
  }

  lemma NumberAt(input: Bytes, cursor: nat, number: Number)
    requires number.Valid() && Found(input, cursor, number.Encode())
    ensures DecodeVarint(input, cursor) == Some(Varint(number.value, cursor + number.size))
  {
    VarintRoundTrip(input, cursor, number.value, number.size);
  }

  lemma {:induction false} NumbersAt(input: Bytes, cursor: nat, numbers: seq<Number>)
    requires AllNumbers(numbers)
    requires Found(input, cursor, EncodeNumbers(numbers))
    ensures SkipVarints(input, cursor, |numbers|) == Some(cursor + |EncodeNumbers(numbers)|)
    decreases |numbers|
  {
    if |numbers| > 0 {
      FoundParts(input, cursor, numbers[0].Encode(), EncodeNumbers(numbers[1..]));
      NumberAt(input, cursor, numbers[0]);
      NumbersAt(input, cursor + numbers[0].size, numbers[1..]);
      SkipFirst(input, cursor, |numbers|, Varint(numbers[0].value, cursor + numbers[0].size));
    }
  }

  lemma SkipFirst(input: Bytes, cursor: nat, count: nat, first: Varint)
    requires count > 0 && DecodeVarint(input, cursor) == Some(first)
    ensures SkipVarints(input, cursor, count) == SkipVarints(input, first.next, count - 1)
  {
  }

  /** The frames a client may put into an Initial. With `ecn` the three ECN counts stand at the end of `ranges`. */
  datatype Frame =
    | PaddingFrame
    | PingFrame
    | AckFrame(largestAndDelay: seq<Number>, count: Number, ranges: seq<Number>, ecn: bool)
    | CryptoFrame(offset: Number, length: Number, data: Bytes)
    | CloseFrame(codes: seq<Number>, length: Number, reason: Bytes)
  {
    ghost predicate Valid()
    {
      match this
      case PaddingFrame => true
      case PingFrame => true
      case AckFrame(largestAndDelay, count, ranges, ecn) =>
        && |largestAndDelay| == 2 && count.Valid() && count.value < MAX_ACK_RANGES
        && |ranges| == AckNumbers(count.value, ecn) && AllNumbers(largestAndDelay) && AllNumbers(ranges)
      case CryptoFrame(offset, length, data) =>
        offset.Valid() && length.Valid() && length.value == |data| && offset.value + |data| <= MAX_CRYPTO_BYTES
      case CloseFrame(codes, length, reason) =>
        && |codes| == 2 && AllNumbers(codes)
        && length.Valid() && length.value == |reason|
    }

    function Body(): (bytes: Bytes)
      requires Valid()
    {
      match this
      case PaddingFrame => []
      case PingFrame => []
      case AckFrame(largestAndDelay, count, ranges, _) =>
        EncodeNumbers(largestAndDelay) + (count.Encode() + EncodeNumbers(ranges))
      case CryptoFrame(offset, length, data) => offset.Encode() + (length.Encode() + data)
      case CloseFrame(codes, length, reason) => EncodeNumbers(codes) + (length.Encode() + reason)
    }

    function Type(): (kind: nat)
      ensures kind < 64
    {
      match this
      case PaddingFrame => PADDING
      case PingFrame => PING
      case AckFrame(_, _, _, ecn) => if ecn then ACK_ECN else ACK
      case CryptoFrame(_, _, _) => CRYPTO
      case CloseFrame(_, _, _) => CONNECTION_CLOSE
    }

    function Encode(): (bytes: Bytes)
      requires Valid()
      ensures |bytes| > 0
    {
      [Type()] + Body()
    }

    function Carried(): (r: Option<Fragment>)
    {
      if CryptoFrame? then Some(Fragment(offset.value, data)) else None
    }
  }

  lemma TypeAt(input: Bytes, cursor: nat, kind: nat)
    requires kind < 64 && Found(input, cursor, [kind])
    ensures DecodeVarint(input, cursor) == Some(Varint(kind, cursor + 1))
  {
    assert input[cursor] == input[cursor..cursor + 1][0] == kind;
    assert [input[cursor] % 64] + input[cursor + 1..cursor + 1] == [kind];
    assert [kind][..0] == [];
    assert BigEndian([kind]) == BigEndian([kind][..0]) * 256 + kind;
  }

  lemma AckAt(input: Bytes, cursor: nat, frame: Frame)
    requires frame.AckFrame? && frame.Valid() && Found(input, cursor, frame.Body())
    ensures SkipAck(input, cursor, frame.ecn) == Some(cursor + |frame.Body()|)
  {
    var counted := AckFirst(input, cursor, frame);
    var next := AckCount(input, counted, frame);
    AckRanges(input, cursor, counted, next, frame.largestAndDelay, frame.count.value, frame.ranges, frame.ecn);
    BodySize(frame);
  }

  lemma AckRanges(
    input: Bytes, cursor: nat, counted: nat, next: nat, fixed: seq<Number>, count: nat, ranges: seq<Number>, ecn: bool)
    requires |fixed| == 2 && |ranges| == AckNumbers(count, ecn) && count < MAX_ACK_RANGES && AllNumbers(ranges)
    requires SkipVarints(input, cursor, |fixed|) == Some(counted)
    requires DecodeVarint(input, counted) == Some(Varint(count, next))
    requires Found(input, next, EncodeNumbers(ranges))
    ensures SkipAck(input, cursor, ecn) == Some(next + |EncodeNumbers(ranges)|)
  {
    NumbersAt(input, next, ranges);
    SkipAckParts(input, cursor, |fixed|, counted, Varint(count, next), |ranges|, ecn, next + |EncodeNumbers(ranges)|);
  }

  lemma AckFirst(input: Bytes, cursor: nat, frame: Frame) returns (counted: nat)
    requires frame.AckFrame? && frame.Valid() && Found(input, cursor, frame.Body())
    ensures counted == cursor + |EncodeNumbers(frame.largestAndDelay)|
    ensures SkipVarints(input, cursor, |frame.largestAndDelay|) == Some(counted)
    ensures Found(input, counted, frame.count.Encode() + EncodeNumbers(frame.ranges))
  {
    var first := EncodeNumbers(frame.largestAndDelay);
    FoundParts(input, cursor, first, frame.count.Encode() + EncodeNumbers(frame.ranges));
    NumbersAt(input, cursor, frame.largestAndDelay);
    counted := cursor + |first|;
  }

  lemma AckCount(input: Bytes, counted: nat, frame: Frame) returns (next: nat)
    requires frame.AckFrame? && frame.Valid()
    requires Found(input, counted, frame.count.Encode() + EncodeNumbers(frame.ranges))
    ensures next == counted + |frame.count.Encode()|
    ensures DecodeVarint(input, counted) == Some(Varint(frame.count.value, next))
    ensures Found(input, next, EncodeNumbers(frame.ranges))
  {
    FoundParts(input, counted, frame.count.Encode(), EncodeNumbers(frame.ranges));
    NumberAt(input, counted, frame.count);
    next := counted + |frame.count.Encode()|;
  }

  lemma BodySize(frame: Frame)
    requires frame.AckFrame? && frame.Valid()
    ensures |frame.Body()| ==
      |EncodeNumbers(frame.largestAndDelay)| + |frame.count.Encode()| + |EncodeNumbers(frame.ranges)|
  {
  }

  lemma SkipAckParts(
    input: Bytes, cursor: nat, fixed: nat, counted: nat, count: Varint, ranges: nat, ecn: bool, end: nat)
    requires fixed == 2 && ranges == AckNumbers(count.value, ecn)
    requires SkipVarints(input, cursor, fixed) == Some(counted)
    requires DecodeVarint(input, counted) == Some(count) && count.value < MAX_ACK_RANGES
    requires SkipVarints(input, count.next, ranges) == Some(end)
    ensures SkipAck(input, cursor, ecn) == Some(end)
  {
  }

  lemma CloseAt(input: Bytes, cursor: nat, frame: Frame)
    requires frame.CloseFrame? && frame.Valid() && Found(input, cursor, frame.Body())
    ensures SkipClose(input, cursor) == Some(cursor + |frame.Body()|)
  {
    CloseBody(input, cursor, frame.codes, frame.length, frame.reason);
  }

  lemma CloseBody(input: Bytes, cursor: nat, codes: seq<Number>, length: Number, reason: Bytes)
    requires |codes| == 2 && AllNumbers(codes) && length.Valid() && length.value == |reason|
    requires Found(input, cursor, EncodeNumbers(codes) + (length.Encode() + reason))
    ensures SkipClose(input, cursor) == Some(cursor + |EncodeNumbers(codes) + (length.Encode() + reason)|)
  {
    var coded, next := cursor + |EncodeNumbers(codes)|, cursor + |EncodeNumbers(codes)| + length.size;
    FoundParts(input, cursor, EncodeNumbers(codes), length.Encode() + reason);
    FoundParts(input, coded, length.Encode(), reason);
    NumbersAt(input, cursor, codes);
    NumberAt(input, coded, length);
    CloseParts(input, cursor, coded, Varint(|reason|, next));
  }

  lemma CloseParts(input: Bytes, cursor: nat, coded: nat, length: Varint)
    requires SkipVarints(input, cursor, 2) == Some(coded) && DecodeVarint(input, coded) == Some(length)
    requires length.next + length.value <= |input|
    ensures SkipClose(input, cursor) == Some(length.next + length.value)
  {
  }

  lemma CryptoAt(input: Bytes, cursor: nat, frame: Frame)
    requires frame.CryptoFrame? && frame.Valid() && Found(input, cursor, frame.Body())
    ensures var next := cursor + |frame.Body()| - |frame.data|;
      && ReadCryptoHeader(input, cursor) == Some(CryptoHeader(frame.offset.value, |frame.data|, next))
      && Found(input, next, frame.data)
  {
    CryptoBody(input, cursor, frame.offset, frame.length, frame.data);
  }

  lemma CryptoBody(input: Bytes, cursor: nat, offset: Number, length: Number, data: Bytes)
    requires offset.Valid() && length.Valid() && length.value == |data|
    requires Found(input, cursor, offset.Encode() + (length.Encode() + data))
    ensures var next := cursor + offset.size + length.size;
      && ReadCryptoHeader(input, cursor) == Some(CryptoHeader(offset.value, |data|, next))
      && Found(input, next, data)
  {
    var middle := cursor + offset.size;
    FoundParts(input, cursor, offset.Encode(), length.Encode() + data);
    FoundParts(input, middle, length.Encode(), data);
    NumberAt(input, cursor, offset);
    NumberAt(input, middle, length);
    CryptoParts(input, cursor, Varint(offset.value, middle), Varint(|data|, middle + length.size));
  }

  lemma CryptoParts(input: Bytes, cursor: nat, offset: Varint, length: Varint)
    requires DecodeVarint(input, cursor) == Some(offset) && DecodeVarint(input, offset.next) == Some(length)
    ensures ReadCryptoHeader(input, cursor) == Some(CryptoHeader(offset.value, length.value, length.next))
  {
  }

  lemma ReadAck(input: Bytes, cursor: nat, ecn: bool, end: nat)
    requires DecodeVarint(input, cursor) == Some(Varint(if ecn then ACK_ECN else ACK, cursor + 1))
    requires SkipAck(input, cursor + 1, ecn) == Some(end)
    ensures ReadFrame(input, cursor) == Ok(Item(None, end))
  {
  }

  lemma ReadClose(input: Bytes, cursor: nat, end: nat)
    requires DecodeVarint(input, cursor) == Some(Varint(CONNECTION_CLOSE, cursor + 1))
    requires SkipClose(input, cursor + 1) == Some(end)
    ensures ReadFrame(input, cursor) == Ok(Item(None, end))
  {
  }

  lemma ReadCrypto(input: Bytes, cursor: nat, fragment: Fragment, next: nat)
    requires DecodeVarint(input, cursor) == Some(Varint(CRYPTO, cursor + 1))
    requires ReadCryptoHeader(input, cursor + 1) == Some(CryptoHeader(fragment.offset, |fragment.data|, next))
    requires fragment.offset + |fragment.data| <= MAX_CRYPTO_BYTES && Found(input, next, fragment.data)
    ensures ReadFrame(input, cursor) == Ok(Item(Some(fragment), next + |fragment.data|))
  {
  }

  lemma FrameParts(input: Bytes, cursor: nat, frame: Frame)
    requires frame.Valid() && Found(input, cursor, frame.Encode())
    ensures Found(input, cursor + 1, frame.Body())
    ensures DecodeVarint(input, cursor) == Some(Varint(frame.Type(), cursor + 1))
  {
    FoundParts(input, cursor, [frame.Type()], frame.Body());
    TypeAt(input, cursor, frame.Type());
  }

  lemma AckFrameAt(input: Bytes, cursor: nat, frame: Frame)
    requires frame.AckFrame? && frame.Valid() && Found(input, cursor, frame.Encode())
    ensures ReadFrame(input, cursor) == Ok(Item(None, cursor + |frame.Encode()|))
  {
    FrameParts(input, cursor, frame);
    AckAt(input, cursor + 1, frame);
    ReadAck(input, cursor, frame.ecn, cursor + 1 + |frame.Body()|);
  }

  lemma CloseFrameAt(input: Bytes, cursor: nat, frame: Frame)
    requires frame.CloseFrame? && frame.Valid() && Found(input, cursor, frame.Encode())
    ensures ReadFrame(input, cursor) == Ok(Item(None, cursor + |frame.Encode()|))
  {
    FrameParts(input, cursor, frame);
    CloseAt(input, cursor + 1, frame);
    ReadClose(input, cursor, cursor + 1 + |frame.Body()|);
  }

  lemma CryptoFrameAt(input: Bytes, cursor: nat, frame: Frame)
    requires frame.CryptoFrame? && frame.Valid() && Found(input, cursor, frame.Encode())
    ensures ReadFrame(input, cursor) == Ok(Item(frame.Carried(), cursor + |frame.Encode()|))
  {
    FrameParts(input, cursor, frame);
    CryptoAt(input, cursor + 1, frame);
    ReadCrypto(input, cursor, frame.Carried().value, cursor + 1 + |frame.Body()| - |frame.data|);
  }

  lemma FrameAt(input: Bytes, cursor: nat, frame: Frame)
    requires frame.Valid() && Found(input, cursor, frame.Encode())
    ensures ReadFrame(input, cursor) == Ok(Item(frame.Carried(), cursor + |frame.Encode()|))
  {
    match frame
    case PaddingFrame => FrameParts(input, cursor, frame);
    case PingFrame => FrameParts(input, cursor, frame);
    case AckFrame(_, _, _, _) => AckFrameAt(input, cursor, frame);
    case CryptoFrame(_, _, _) => CryptoFrameAt(input, cursor, frame);
    case CloseFrame(_, _, _) => CloseFrameAt(input, cursor, frame);
  }

  ghost predicate ReadAs(read: FrameFunction, bytes: Bytes, carried: Option<Fragment>)
  {
    forall input: Bytes, cursor: nat :: Found(input, cursor, bytes) ==>
      read(input, cursor) == Ok(Item(carried, cursor + |bytes|))
  }

  /** A stretch of bytes that is read as one frame wherever it stands. */
  datatype Stretch = Stretch(bytes: Bytes, carried: Option<Fragment>)
  {
    ghost predicate ReadBy(read: FrameFunction)
    {
      |bytes| > 0 && ReadAs(read, bytes, carried)
    }

    ghost predicate Reads()
    {
      ReadBy(ReadFrame)
    }
  }

  lemma FrameReadAt(frame: Frame, input: Bytes, cursor: nat)
    requires frame.Valid()
    ensures Found(input, cursor, frame.Encode()) ==>
      ReadFrame(input, cursor) == Ok(Item(frame.Carried(), cursor + |frame.Encode()|))
  {
    if Found(input, cursor, frame.Encode()) { FrameAt(input, cursor, frame); }
  }

  lemma FrameReadAs(frame: Frame)
    requires frame.Valid()
    ensures ReadAs(ReadFrame, frame.Encode(), frame.Carried())
  {
    forall input: Bytes, cursor: nat
      ensures Found(input, cursor, frame.Encode()) ==>
        ReadFrame(input, cursor) == Ok(Item(frame.Carried(), cursor + |frame.Encode()|))
    {
      FrameReadAt(frame, input, cursor);
    }
  }

  /** Every well-formed frame is such a stretch. */
  lemma FrameReads(frame: Frame)
    requires frame.Valid()
    ensures Stretch(frame.Encode(), frame.Carried()).Reads()
  {
    FrameReadAs(frame);
  }

  function Joined(stretches: seq<Stretch>): (bytes: Bytes)
  {
    if |stretches| == 0 then [] else stretches[0].bytes + Joined(stretches[1..])
  }

  function Carried(stretches: seq<Stretch>): (fragments: seq<Fragment>)
  {
    if |stretches| == 0 then []
    else
      var rest := Carried(stretches[1..]);
      if stretches[0].carried.None? then rest else [stretches[0].carried.value] + rest
  }

  ghost predicate AllReadBy(read: FrameFunction, stretches: seq<Stretch>)
  {
    |stretches| == 0 || (stretches[0].ReadBy(read) && AllReadBy(read, stretches[1..]))
  }

  lemma OneReadBy(read: FrameFunction, s: Stretch, input: Bytes, cursor: nat)
    requires s.ReadBy(read) && Found(input, cursor, s.bytes)
    ensures |s.bytes| > 0 && read(input, cursor) == Ok(Item(s.carried, cursor + |s.bytes|))
  {
  }

  lemma SuffixParts(input: Bytes, cursor: nat, left: Bytes, right: Bytes)
    requires cursor <= |input| && input[cursor..] == left + right
    ensures cursor + |left| <= |input| && Found(input, cursor, left) && input[cursor + |left|..] == right
  {
    var both := left + right;
    assert input[cursor..cursor + |left|] == both[..|left|] == left;
    assert input[cursor + |left|..] == both[|left|..] == right;
  }

  lemma {:induction false} FramesSpelled(read: FrameFunction, input: Bytes, cursor: nat, stretches: seq<Stretch>)
    requires Advancing(read) && AllReadBy(read, stretches)
    requires cursor <= |input| && input[cursor..] == Joined(stretches)
    ensures ParseFrames(read, input, cursor) == Payload(Carried(stretches), NeedMoreData)
    decreases |stretches|
  {
    if |stretches| == 0 {
      assert cursor == |input|;
    } else {
      var first, rest := stretches[0], stretches[1..];
      SuffixParts(input, cursor, first.bytes, Joined(rest));
      OneReadBy(read, first, input, cursor);
      var next := cursor + |first.bytes|;
      FramesStep(read, input, cursor, Item(first.carried, next));
      FramesSpelled(read, input, next, rest);
      CarriedStep(stretches);
    }
  }

  lemma FramesStep(read: FrameFunction, input: Bytes, cursor: nat, item: Item)
    requires Advancing(read) && cursor < |input| && item.next <= |input| && read(input, cursor) == Ok(item)
    ensures ParseFrames(read, input, cursor) == WithCarried(item.fragment, ParseFrames(read, input, item.next))
  {
  }

  lemma CarriedStep(stretches: seq<Stretch>)
    requires |stretches| > 0
    ensures Payload(Carried(stretches), NeedMoreData)
         == WithCarried(stretches[0].carried, Payload(Carried(stretches[1..]), NeedMoreData))
  {
  }

  // ------------------------------------------------------- payloads of frames

  ghost predicate AllFrames(frames: seq<Frame>)
  {
    forall i :: 0 <= i < |frames| ==> frames[i].Valid()
  }

  function EncodeFrames(frames: seq<Frame>): (bytes: Bytes)
    requires AllFrames(frames)
  {
    if |frames| == 0 then [] else frames[0].Encode() + EncodeFrames(frames[1..])
  }

  /** The CRYPTO data of the frames, in order. */
  function CarriedBy(frames: seq<Frame>): (fragments: seq<Fragment>)
  {
    if |frames| == 0 then []
    else
      var rest := CarriedBy(frames[1..]);
      if frames[0].Carried().None? then rest else [frames[0].Carried().value] + rest
  }

  function StretchesOf(frames: seq<Frame>): (stretches: seq<Stretch>)
    requires AllFrames(frames)
  {
    if |frames| == 0 then [] else [Stretch(frames[0].Encode(), frames[0].Carried())] + StretchesOf(frames[1..])
  }

  lemma {:induction false} FramesAreStretches(frames: seq<Frame>)
    requires AllFrames(frames)
    ensures Joined(StretchesOf(frames)) == EncodeFrames(frames)
    ensures Carried(StretchesOf(frames)) == CarriedBy(frames)
    ensures AllReadBy(ReadFrame, StretchesOf(frames))
  {
    if |frames| > 0 {
      var first, rest := Stretch(frames[0].Encode(), frames[0].Carried()), StretchesOf(frames[1..]);
      FramesAreStretches(frames[1..]);
      FrameReads(frames[0]);
      StretchCons(first, rest);
    }
  }

  lemma StretchCons(first: Stretch, rest: seq<Stretch>)
    requires first.Reads() && AllReadBy(ReadFrame, rest)
    ensures Joined([first] + rest) == first.bytes + Joined(rest)
    ensures Carried([first] + rest) == if first.carried.None? then Carried(rest) else [first.carried.value] + Carried(rest)
    ensures AllReadBy(ReadFrame, [first] + rest)
  {
    assert ([first] + rest)[1..] == rest;
  }

  /** Every payload built from valid frames yields exactly the CRYPTO data they carry, in order. */
  lemma PayloadRoundTrip(frames: seq<Frame>)
    requires AllFrames(frames)
    ensures ParsePayload(EncodeFrames(frames), 0) == Payload(CarriedBy(frames), NeedMoreData)
  {
    FramesAreStretches(frames);
    var input := EncodeFrames(frames);
    assert input[0..] == input;
    FramesSpelled(ReadFrame, input, 0, StretchesOf(frames));
  }
}
