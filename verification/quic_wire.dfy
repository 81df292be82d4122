/**
  QUIC long headers as the sniffer reads them: variable-length integers
  (section 16 of RFC 9000), Initial and other long headers (section 17.2),
  coalesced packets (section 12.2) and packet-number recovery (Appendix A.3).
 */
module QuicWire {
  import opened Base

  datatype Version = V1 | V2

  const QUIC_V1: nat := 0x0000_0001
  const QUIC_V2: nat := 0x6b33_43cf

  function FromWire(value: nat): (version: Option<Version>)
  {
    if value == QUIC_V1 then Some(V1)
    else if value == QUIC_V2 then Some(V2)
    else None
  }

  function ToWire(version: Version): (value: nat)
    ensures value < 0x1_0000_0000 && FromWire(value) == Some(version)
  {
    match version case V1 => QUIC_V1 case V2 => QUIC_V2
  }

  function InitialType(version: Version): nat
  {
    match version case V1 => 0 case V2 => 1
  }

  function RetryType(version: Version): nat
  {
    match version case V1 => 3 case V2 => 0
  }

  /** Version and destination connection ID of an Initial. */
  datatype ConnectionKey = ConnectionKey(wireVersion: nat, dcid: Bytes)

  ghost predicate ParsedKey(key: ConnectionKey)
  {
    FromWire(key.wireVersion).Some? && 1 <= |key.dcid| <= 20
  }

  // ---------------------------------------------------------------- varints

  function Pow256(n: nat): (p: nat)
    ensures p > 0
  {
    if n == 0 then 1 else 256 * Pow256(n - 1)
  }

  function VarintLength(first: Byte): (length: nat)
    ensures length in {1, 2, 4, 8}
  {
    if first < 64 then 1 else if first < 128 then 2 else if first < 192 then 4 else 8
  }

  datatype Varint = Varint(value: nat, next: nat)

  /** The integer at `cursor`: the length prefix is the two high bits of its first byte. */
  function DecodeVarint(input: Bytes, cursor: nat): (r: Option<Varint>)
    ensures r.Some? ==> cursor < r.value.next <= |input|
  {
    if cursor >= |input| then None
    else
      var end := cursor + VarintLength(input[cursor]);
      if end > |input| then None
      else Some(Varint(BigEndian([input[cursor] % 64] + input[cursor + 1..end]), end))
  }

  lemma {:induction false} BigEndianBound(bytes: Bytes)
    ensures BigEndian(bytes) < Pow256(|bytes|)
  {
    if |bytes| != 0 {
      BigEndianBound(bytes[..|bytes| - 1]);
    }
  }

  lemma ShiftOneByte(high: nat, power: nat, low: nat)
    ensures (high * power + low) * 256 == high * (256 * power) + low * 256
  {
  }

  lemma {:induction false} BigEndianSplit(front: Bytes, back: Bytes)
    ensures BigEndian(front + back) == BigEndian(front) * Pow256(|back|) + BigEndian(back)
  {
    if |back| == 0 {
      assert front + back == front;
    } else {
      var n := |back| - 1;
      BigEndianSplit(front, back[..n]);
      assert (front + back)[..|front + back| - 1] == front + back[..n];
      ShiftOneByte(BigEndian(front), Pow256(n), BigEndian(back[..n]));
    }
  }

  /** `read_varint`: on success the cursor moves past the integer, otherwise it stays. */
  method ReadVarint(input: Bytes, cursor: nat) returns (value: Option<nat>, next: nat)
    ensures match DecodeVarint(input, cursor)
      case None => value == None && next == cursor
      case Some(v) => value == Some(v.value) && next == v.next && v.value < 0x4000_0000_0000_0000
  {
    if cursor >= |input| {
      return None, cursor;
    }
    var end := cursor + VarintLength(input[cursor]);
    if end > |input| {
      return None, cursor;
    }
    var first: Byte := input[cursor] % 64;
    var total: nat := first;
    var i := cursor + 1;
    assert [first] + input[cursor + 1..i] == [first];
    while i < end
      invariant cursor + 1 <= i <= end
      invariant total == BigEndian([first] + input[cursor + 1..i])
    {
      assert ([first] + input[cursor + 1..i + 1])[..i - cursor] == [first] + input[cursor + 1..i];
      total := total * 256 + input[i];
      i := i + 1;
    }
    VarintFitsIn62Bits(first, input[cursor + 1..end]);
    return Some(total), end;
  }

  lemma VarintFitsIn62Bits(first: Byte, rest: Bytes)
    requires first < 64 && |rest| + 1 in {1, 2, 4, 8}
    ensures BigEndian([first] + rest) < 0x4000_0000_0000_0000
  {
    BigEndianSplit([first], rest);
    BigEndianBound(rest);
    assert [first][..0] == [];
    assert BigEndian([first]) == first;
    assert Pow256(1) == 256 && Pow256(3) == 0x100_0000;
    assert Pow256(7) == 256 * 256 * 256 * 256 * Pow256(3);
    ScaledBound(first, Pow256(|rest|), BigEndian(rest));
  }

  lemma ScaledBound(first: nat, p: nat, r: nat)
    requires first < 64 && r < p
    ensures first * p + r < 64 * p
  {
    assert (first + 1) * p <= 64 * p;
  }

  function ToBigEndian(value: nat, n: nat): (bytes: Bytes)
    requires value < Pow256(n)
    ensures |bytes| == n
  {
    if n == 0 then [] else ToBigEndian(value / 256, n - 1) + [value % 256]
  }

  lemma {:induction false} BigEndianInverse(value: nat, n: nat)
    requires value < Pow256(n)
    ensures BigEndian(ToBigEndian(value, n)) == value
  {
    if n != 0 {
      BigEndianInverse(value / 256, n - 1);
      var bytes := ToBigEndian(value, n);
      assert bytes[..n - 1] == ToBigEndian(value / 256, n - 1);
    }
  }

  /** A value that fits the `size`-byte form of section 16. */
  ghost predicate FitsVarint(value: nat, size: nat)
  {
    size in {1, 2, 4, 8} && value < 64 * Pow256(size - 1)
  }

  lemma TopByteFits(value: nat, size: nat)
    requires FitsVarint(value, size)
    ensures value < Pow256(size) && ToBigEndian(value, size)[0] < 64
  {
    var raw := ToBigEndian(value, size);
    var p := Pow256(size - 1);
    BigEndianInverse(value, size);
    BigEndianSplit(raw[..1], raw[1..]);
    assert raw[..1] + raw[1..] == raw;
    assert raw[..1][..0] == [];
    assert BigEndian(raw[..1]) == raw[0];
    CancelFactor(raw[0], 64, p);
  }

  lemma CancelFactor(a: nat, b: nat, factor: nat)
    requires a * factor < b * factor
    ensures a < b
  {
  }

  function EncodeVarint(value: nat, size: nat): (bytes: Bytes)
    requires FitsVarint(value, size)
    ensures |bytes| == size
  {
    TopByteFits(value, size);
    var raw := ToBigEndian(value, size);
    [VarintTag(size) + raw[0]] + raw[1..]
  }

  /** The two high bits that announce an encoded size. */
  function VarintTag(size: nat): (tag: nat)
    ensures tag <= 192
  {
    if size == 1 then 0 else if size == 2 then 64 else if size == 4 then 128 else 192
  }

  lemma VarintTagOf(first: Byte)
    ensures VarintTag(VarintLength(first)) + first % 64 == first
  {
  }

  lemma EncodedAs(value: nat, raw: Bytes)
    requires FitsVarint(value, |raw|) && value < Pow256(|raw|) && ToBigEndian(value, |raw|) == raw && raw[0] < 64
    ensures EncodeVarint(value, |raw|) == [VarintTag(|raw|) + raw[0]] + raw[1..]
  {
  }

  /** Any admissible encoded size reads back the same value, wherever it stands. */
  lemma VarintRoundTrip(input: Bytes, cursor: nat, value: nat, size: nat)
    requires FitsVarint(value, size)
    requires cursor + size <= |input| && input[cursor..cursor + size] == EncodeVarint(value, size)
    ensures DecodeVarint(input, cursor) == Some(Varint(value, cursor + size))
  {
    TopByteFits(value, size);
    BigEndianInverse(value, size);
    var raw, encoded := ToBigEndian(value, size), EncodeVarint(value, size);
    assert input[cursor] == encoded[0];
    assert input[cursor + 1..cursor + size] == encoded[1..] == raw[1..];
    DecodesAs(input, cursor, raw, value);
  }

  lemma DecodesAs(input: Bytes, cursor: nat, raw: Bytes, value: nat)
    requires |raw| in {1, 2, 4, 8} && raw[0] < 64 && BigEndian(raw) == value
    requires cursor + |raw| <= |input|
    requires input[cursor] == VarintTag(|raw|) + raw[0] && input[cursor + 1..cursor + |raw|] == raw[1..]
    ensures DecodeVarint(input, cursor) == Some(Varint(value, cursor + |raw|))
  {
    VarintLengthOf(|raw|, raw[0]);
    assert [raw[0]] + raw[1..] == raw;
  }

  lemma VarintLengthOf(size: nat, low: nat)
    requires size in {1, 2, 4, 8} && low < 64
    ensures VarintLength(VarintTag(size) + low) == size && (VarintTag(size) + low) % 64 == low
  {
  }

  lemma {:induction false} ToBigEndianInverse(bytes: Bytes)
    ensures BigEndian(bytes) < Pow256(|bytes|) && ToBigEndian(BigEndian(bytes), |bytes|) == bytes
  {
    BigEndianBound(bytes);
    if |bytes| != 0 {
      var n := |bytes| - 1;
      ToBigEndianInverse(bytes[..n]);
      LastByte(BigEndian(bytes[..n]), bytes[n]);
      assert bytes == bytes[..n] + [bytes[n]];
    }
  }

  lemma LastByte(high: nat, low: Byte)
    ensures (high * 256 + low) / 256 == high && (high * 256 + low) % 256 == low
  {
  }

  lemma TopByteBounds(first: Byte, rest: Bytes)
    requires first < 64 && |rest| + 1 in {1, 2, 4, 8}
    ensures FitsVarint(BigEndian([first] + rest), |rest| + 1)
  {
    BigEndianSplit([first], rest);
    BigEndianBound(rest);
    assert [first][..0] == [];
    assert BigEndian([first]) == first;
    ScaledBound(first, Pow256(|rest|), BigEndian(rest));
  }

  lemma Reencoded(first: Byte, raw: Bytes, value: nat)
    requires BigEndian(raw) == value && FitsVarint(value, |raw|)
    requires raw[0] < 64 && VarintTag(|raw|) + raw[0] == first
    ensures EncodeVarint(value, |raw|) == [first] + raw[1..]
  {
    ToBigEndianInverse(raw);
    EncodedAs(value, raw);
  }

  /** Whatever decodes is an encoding of the value it decodes to. */
  lemma VarintReencodes(input: Bytes, cursor: nat)
    requires DecodeVarint(input, cursor).Some?
    ensures var v := DecodeVarint(input, cursor).value;
      && FitsVarint(v.value, v.next - cursor)
      && input[cursor..v.next] == EncodeVarint(v.value, v.next - cursor)
  {
    var v, first := DecodeVarint(input, cursor).value, input[cursor];
    var low: Byte := first % 64;
    var rest := input[cursor + 1..v.next];
    VarintTagOf(first);
    TopByteBounds(low, rest);
    Reencoded(first, [low] + rest, v.value);
    assert input[cursor..v.next] == [first] + rest;
  }

  /** Decoding at `cursor` gives a value and a size exactly when that encoding stands there. */
  lemma VarintExact(input: Bytes, cursor: nat, value: nat, size: nat)
    ensures DecodeVarint(input, cursor) == Some(Varint(value, cursor + size)) <==>
      && FitsVarint(value, size) && cursor + size <= |input|
      && input[cursor..cursor + size] == EncodeVarint(value, size)
  {
    if DecodeVarint(input, cursor) == Some(Varint(value, cursor + size)) {
      VarintReencodes(input, cursor);
    }
    if FitsVarint(value, size) && cursor + size <= |input| && input[cursor..cursor + size] == EncodeVarint(value, size) {
      VarintRoundTrip(input, cursor, value, size);
    }
  }

  // ------------------------------------------------------------ long headers

  datatype InitialPacket = InitialPacket(packetNumberOffset: nat, packetEnd: nat)

  datatype LongHeader = LongHeader(
    wireVersion: nat,
    version: Version,
    dcid: Bytes,
    packetType: nat,
    initial: Option<InitialPacket>,
    packetEnd: Option<nat>)
  {
    function Key(): ConnectionKey
    {
      ConnectionKey(wireVersion, dcid)
    }
  }

  const LONG_HEADER_WITH_FIXED_BIT: nat := 0xc0
  const MINIMUM_PROTECTED_LENGTH: nat := 17

  /** A length prefix at `cursor` and the end of the bytes it announces, if they are all present. */
  function DecodeSpan(packet: Bytes, cursor: nat): (r: Option<(nat, nat)>)
    ensures r.Some? ==> cursor < r.value.0 <= r.value.1 <= |packet|
  {
    match DecodeVarint(packet, cursor)
    case None => None
    case Some(v) => if v.next + v.value <= |packet| then Some((v.next, v.next + v.value)) else None
  }

  /** `parse_long_header`; every malformed or truncated header is the one error. */
  function ParseLongHeader(packet: Bytes): (r: Option<LongHeader>)
    ensures r.Some? ==>
      && FromWire(r.value.wireVersion) == Some(r.value.version)
      && ParsedKey(r.value.Key())
      && (r.value.packetEnd.Some? ==> 0 < r.value.packetEnd.value <= |packet|)
      && (r.value.packetEnd.None? <==> r.value.packetType == RetryType(r.value.version))
      && (r.value.initial.Some? <==> r.value.packetType == InitialType(r.value.version))
      && (r.value.initial.Some? ==>
           && r.value.packetEnd == Some(r.value.initial.value.packetEnd)
           && 0 < r.value.initial.value.packetNumberOffset
           && r.value.initial.value.packetNumberOffset + MINIMUM_PROTECTED_LENGTH
                <= r.value.initial.value.packetEnd)
  {
    match ParseIds(packet)
    case None => None
    case Some(ids) => ParseLengths(packet, ids)
  }

  datatype Ids = Ids(wireVersion: nat, version: Version, dcid: Bytes, kind: nat, next: nat)

  function ParseIds(packet: Bytes): (r: Option<Ids>)
    ensures r.Some? ==>
      && FromWire(r.value.wireVersion) == Some(r.value.version)
      && 1 <= |r.value.dcid| <= 20 && r.value.kind < 4 && 0 < r.value.next <= |packet|
  {
    if |packet| < 6 || packet[0] < LONG_HEADER_WITH_FIXED_BIT then None
    else
      var wireVersion := BigEndian(packet[1..5]);
      var dcidLength: nat := packet[5];
      var dcidEnd := 6 + dcidLength;
      if FromWire(wireVersion).None? || !(1 <= packet[5] <= 20) || |packet| <= dcidEnd then None
      else
        var scidLength: nat := packet[dcidEnd];
        var next := dcidEnd + 1 + scidLength;
        if packet[dcidEnd] > 20 || next > |packet| then None
        else Some(Ids(wireVersion, FromWire(wireVersion).value, packet[6..dcidEnd], packet[0] / 16 % 4, next))
  }

  function ParseLengths(packet: Bytes, ids: Ids): (r: Option<LongHeader>)
    ensures r.Some? ==>
      && r.value.wireVersion == ids.wireVersion && r.value.version == ids.version
      && r.value.dcid == ids.dcid && r.value.packetType == ids.kind
  {
    if ids.kind == RetryType(ids.version) then
      Some(LongHeader(ids.wireVersion, ids.version, ids.dcid, ids.kind, None, None))
    else if ids.kind != InitialType(ids.version) then
      match DecodeSpan(packet, ids.next)
      case None => None
      case Some((_, end)) =>
        Some(LongHeader(ids.wireVersion, ids.version, ids.dcid, ids.kind, None, Some(end)))
    else
      match DecodeSpan(packet, ids.next)
      case None => None
      case Some((_, tokenEnd)) =>
        match DecodeSpan(packet, tokenEnd)
        case None => None
        case Some((offset, end)) =>
          if end - offset < MINIMUM_PROTECTED_LENGTH then None
          else Some(LongHeader(ids.wireVersion, ids.version, ids.dcid, ids.kind,
                               Some(InitialPacket(offset, end)), Some(end)))
  }

  /** A long-header packet other than Retry, as a peer builds it. */
  datatype Packet = Packet(
    version: Version,
    kind: nat,
    lowBits: nat,
    dcid: Bytes,
    scid: Bytes,
    token: Bytes,
    tokenSize: nat,
    body: Bytes,
    bodySize: nat)
  {
    ghost predicate WellFormed()
    {
      && kind < 4 && kind != RetryType(version) && lowBits < 16
      && 1 <= |dcid| <= 20 && |scid| <= 20
      && FitsVarint(|token|, tokenSize) && FitsVarint(|body|, bodySize)
      && (IsInitial() ==> |body| >= MINIMUM_PROTECTED_LENGTH)
    }

    predicate IsInitial()
    {
      kind == InitialType(version)
    }

    function TokenLength(): (n: nat)
    {
      if IsInitial() then tokenSize + |token| else 0
    }

    /** How long everything behind the connection IDs is. */
    function TailLength(): (n: nat)
    {
      TokenLength() + bodySize + |body|
    }
  }

  function EncodeIds(p: Packet): (bytes: Bytes)
    requires p.WellFormed()
    ensures |bytes| == 7 + |p.dcid| + |p.scid|
  {
    [LONG_HEADER_WITH_FIXED_BIT + p.kind * 16 + p.lowBits]
    + ToBigEndian(ToWire(p.version), 4)
    + [|p.dcid|] + p.dcid + [|p.scid|] + p.scid
  }

  function EncodeToken(p: Packet): (bytes: Bytes)
    requires p.WellFormed()
    ensures |bytes| == p.TokenLength()
  {
    if p.IsInitial() then EncodeVarint(|p.token|, p.tokenSize) + p.token else []
  }

  function EncodePacket(p: Packet): (bytes: Bytes)
    requires p.WellFormed()
  {
    EncodeIds(p) + EncodeTail(p)
  }

  function HeaderOf(p: Packet): (header: LongHeader)
    requires p.WellFormed()
  {
    HeaderEnding(IdsOf(p), p.IsInitial(), |p.body|, IdsOf(p).next + p.TailLength())
  }

  function HeaderEnding(ids: Ids, initial: bool, body: nat, end: nat): (header: LongHeader)
    requires body <= end
  {
    LongHeader(ids.wireVersion, ids.version, ids.dcid, ids.kind,
               if initial then Some(InitialPacket(end - body, end)) else None, Some(end))
  }

  /** `bytes` stand at `cursor`. */
  ghost predicate Found(input: Bytes, cursor: nat, bytes: Bytes)
  {
    cursor + |bytes| <= |input| && input[cursor..cursor + |bytes|] == bytes
  }

  lemma FoundParts(input: Bytes, cursor: nat, left: Bytes, right: Bytes)
    requires Found(input, cursor, left + right)
    ensures Found(input, cursor, left) && Found(input, cursor + |left|, right)
  {
    var both := left + right;
    assert input[cursor..cursor + |left|] == both[..|left|] == left;
    assert input[cursor + |left|..cursor + |both|] == both[|left|..] == right;
  }

  lemma SpanAt(input: Bytes, cursor: nat, content: Bytes, size: nat)
    requires FitsVarint(|content|, size) && Found(input, cursor, EncodeVarint(|content|, size) + content)
    ensures DecodeSpan(input, cursor) == Some((cursor + size, cursor + size + |content|))
  {
    FoundParts(input, cursor, EncodeVarint(|content|, size), content);
    VarintRoundTrip(input, cursor, |content|, size);
    SpanFrom(input, cursor, Varint(|content|, cursor + size));
  }

  lemma SpanFrom(input: Bytes, cursor: nat, v: Varint)
    requires DecodeVarint(input, cursor) == Some(v) && v.next + v.value <= |input|
    ensures DecodeSpan(input, cursor) == Some((v.next, v.next + v.value))
  {
  }

  lemma IdsRoundTrip(p: Packet, rest: Bytes)
    requires p.WellFormed()
    ensures ParseIds(EncodeIds(p) + rest)
         == Some(Ids(ToWire(p.version), p.version, p.dcid, p.kind, |EncodeIds(p)|))
  {
    var input := EncodeIds(p) + rest;
    var wire := ToBigEndian(ToWire(p.version), 4);
    WindowSizes();
    BigEndianInverse(ToWire(p.version), 4);
    assert input[1..5] == wire;
    assert input[5] == |p.dcid| && input[6 + |p.dcid|] == |p.scid|;
    assert input[6..6 + |p.dcid|] == p.dcid;
  }

  function EncodeTail(p: Packet): (bytes: Bytes)
    requires p.WellFormed()
    ensures |bytes| == p.TailLength()
  {
    EncodeToken(p) + (EncodeVarint(|p.body|, p.bodySize) + p.body)
  }

  /** The lengths of a packet are read back behind `cursor`. */
  ghost predicate TailSpans(p: Packet, input: Bytes, cursor: nat)
  {
    var end := cursor + p.TailLength();
    && (p.IsInitial() ==> DecodeSpan(input, cursor) == Some((cursor + p.tokenSize, cursor + p.TokenLength())))
    && DecodeSpan(input, cursor + p.TokenLength()) == Some((end - |p.body|, end))
  }

  lemma TailFound(p: Packet, input: Bytes, cursor: nat)
    requires p.WellFormed() && Found(input, cursor, EncodeTail(p))
    ensures TailSpans(p, input, cursor)
  {
    FoundParts(input, cursor, EncodeToken(p), EncodeVarint(|p.body|, p.bodySize) + p.body);
    TokenFound(p, input, cursor);
    BodyFound(p, input, cursor + p.TokenLength());
    SpansJoin(p, input, cursor);
  }

  lemma SpansJoin(p: Packet, input: Bytes, cursor: nat)
    requires p.IsInitial() ==> DecodeSpan(input, cursor) == Some((cursor + p.tokenSize, cursor + p.TokenLength()))
    requires var next := cursor + p.TokenLength();
      DecodeSpan(input, next) == Some((next + p.bodySize, next + p.bodySize + |p.body|))
    ensures TailSpans(p, input, cursor)
  {
  }

  lemma BodyFound(p: Packet, input: Bytes, cursor: nat)
    requires p.WellFormed() && Found(input, cursor, EncodeVarint(|p.body|, p.bodySize) + p.body)
    ensures DecodeSpan(input, cursor) == Some((cursor + p.bodySize, cursor + p.bodySize + |p.body|))
  {
    SpanAt(input, cursor, p.body, p.bodySize);
  }

  lemma TokenFound(p: Packet, input: Bytes, cursor: nat)
    requires p.WellFormed() && Found(input, cursor, EncodeToken(p))
    ensures p.IsInitial() ==> DecodeSpan(input, cursor) == Some((cursor + p.tokenSize, cursor + p.TokenLength()))
  {
    if p.IsInitial() {
      SpanAt(input, cursor, p.token, p.tokenSize);
    }
  }

  lemma LengthsRoundTrip(p: Packet, input: Bytes, ids: Ids)
    requires p.WellFormed() && ids.version == p.version && ids.kind == p.kind && TailSpans(p, input, ids.next)
    ensures ParseLengths(input, ids) == Some(HeaderEnding(ids, p.IsInitial(), |p.body|, ids.next + p.TailLength()))
  {
    LengthsAt(input, ids, p.IsInitial(), |p.body|, ids.next + p.tokenSize, p.TokenLength(), p.TailLength());
  }

  /** What two length prefixes make of a header; a packet that is no Initial has no token. */
  lemma LengthsAt(input: Bytes, ids: Ids, initial: bool, body: nat, tokenStart: nat, token: nat, tail: nat)
    requires ids.kind != RetryType(ids.version) && (initial <==> ids.kind == InitialType(ids.version))
    requires initial ==> DecodeSpan(input, ids.next) == Some((tokenStart, ids.next + token)) && body >= MINIMUM_PROTECTED_LENGTH
    requires !initial ==> token == 0
    requires body <= tail && DecodeSpan(input, ids.next + token) == Some((ids.next + tail - body, ids.next + tail))
    ensures ParseLengths(input, ids) == Some(HeaderEnding(ids, initial, body, ids.next + tail))
  {
  }

  lemma Middle(front: Bytes, middle: Bytes, back: Bytes)
    ensures (front + middle + back)[|front|..|front| + |middle|] == middle
  {
  }

  function IdsOf(p: Packet): (ids: Ids)
    requires p.WellFormed()
  {
    Ids(ToWire(p.version), p.version, p.dcid, p.kind, |EncodeIds(p)|)
  }

  lemma PacketIds(p: Packet, rest: Bytes)
    requires p.WellFormed()
    ensures ParseIds(EncodePacket(p) + rest) == Some(IdsOf(p))
  {
    var ids, tail := EncodeIds(p), EncodeTail(p);
    Regroup(ids, tail, rest, []);
    IdsRoundTrip(p, tail + rest);
  }

  lemma PacketTail(p: Packet, rest: Bytes)
    requires p.WellFormed()
    ensures Found(EncodePacket(p) + rest, IdsOf(p).next, EncodeTail(p))
  {
    Middle(EncodeIds(p), EncodeTail(p), rest);
  }

  lemma PacketSpans(p: Packet, rest: Bytes)
    requires p.WellFormed()
    ensures TailSpans(p, EncodePacket(p) + rest, IdsOf(p).next)
  {
    PacketTail(p, rest);
    TailFound(p, EncodePacket(p) + rest, IdsOf(p).next);
  }

  lemma PacketParsed(p: Packet, input: Bytes)
    requires p.WellFormed() && ParseIds(input) == Some(IdsOf(p)) && TailSpans(p, input, IdsOf(p).next)
    ensures ParseLongHeader(input) == Some(HeaderOf(p))
  {
    LengthsRoundTrip(p, input, IdsOf(p));
    HeaderParsed(input, IdsOf(p), HeaderOf(p));
  }

  /** Reading back an encoded packet, whatever is coalesced behind it. */
  lemma LongHeaderRoundTrip(p: Packet, rest: Bytes)
    requires p.WellFormed()
    ensures ParseLongHeader(EncodePacket(p) + rest) == Some(HeaderOf(p))
  {
    PacketIds(p, rest);
    PacketSpans(p, rest);
    PacketParsed(p, EncodePacket(p) + rest);
  }

  lemma HeaderParsed(input: Bytes, ids: Ids, header: LongHeader)
    requires ParseIds(input) == Some(ids) && ParseLengths(input, ids) == Some(header)
    ensures ParseLongHeader(input) == Some(header)
  {
  }

  // ------------------------------------------------------------- observation

  datatype Observation = Initial(key: ConnectionKey) | UnsupportedVersion | NoConnection

  /** A long header of a non-zero version the sniffer does not know, with a complete DCID. */
  predicate UnknownVersionHeader(packet: Bytes)
  {
    && |packet| >= 6
    && packet[0] >= LONG_HEADER_WITH_FIXED_BIT
    && BigEndian(packet[1..5]) != 0
    && FromWire(BigEndian(packet[1..5])).None?
    && 1 <= packet[5] <= 20
    && 6 + packet[5] <= |packet|
  }

  /** What one packet settles, or where the next one starts. */
  datatype Glance = Settled(observation: Observation) | Onward(length: nat)

  function Look(packet: Bytes): (g: Glance)
    ensures g.Onward? ==> 0 < g.length <= |packet|
    ensures g.Settled? && g.observation.Initial? ==> ParsedKey(g.observation.key)
  {
    if UnknownVersionHeader(packet) then Settled(UnsupportedVersion)
    else match ParseLongHeader(packet)
      case None => Settled(NoConnection)
      case Some(header) =>
        if header.initial.Some? then Settled(Initial(header.Key()))
        else if header.packetEnd.None? then Settled(NoConnection)
        else Onward(header.packetEnd.value)
  }

  ghost predicate Proper(look: Bytes -> Glance)
  {
    forall packet :: Sensible(packet, look(packet))
  }

  ghost predicate Sensible(packet: Bytes, g: Glance)
  {
    match g
    case Onward(length) => 0 < length <= |packet|
    case Settled(observation) => observation.Initial? ==> ParsedKey(observation.key)
  }

  /** Goes from packet to packet until one of them settles the question. */
  function Walk(datagram: Bytes, offset: nat, look: Bytes -> Glance): (r: Observation)
    requires offset <= |datagram| && Proper(look)
    ensures r.Initial? ==> ParsedKey(r.key)
    decreases |datagram| - offset
  {
    if offset == |datagram| then NoConnection
    else
      assert Sensible(datagram[offset..], look(datagram[offset..]));
      match look(datagram[offset..])
      case Settled(observation) => observation
      case Onward(length) => Walk(datagram, offset + length, look)
  }

  /** What the packets coalesced from `offset` on identify: the first Initial decides. */
  function Observe(datagram: Bytes, offset: nat): (r: Observation)
    requires offset <= |datagram|
    ensures r.Initial? ==> ParsedKey(r.key)
  {
    assert Proper(Look);
    Walk(datagram, offset, Look)
  }

  /** One round of the walk of `quic_connection_observation`. */
  method LookAt(packet: Bytes) returns (g: Glance)
    requires |packet| > 0
    ensures g == Look(packet)
  {
    if packet[0] < LONG_HEADER_WITH_FIXED_BIT || |packet| < 5 {
      return Settled(NoConnection);
    }
    var wireVersion := BigEndian(packet[1..5]);
    if wireVersion != 0 && FromWire(wireVersion).None? {
      if |packet| < 6 || !(1 <= packet[5] <= 20) || |packet| < 6 + packet[5] {
        return Settled(NoConnection);
      }
      return Settled(UnsupportedVersion);
    }
    var header := ParseLongHeader(packet);
    if header.None? {
      return Settled(NoConnection);
    }
    if header.value.initial.Some? {
      return Settled(Initial(header.value.Key()));
    }
    if header.value.packetEnd.None? || header.value.packetEnd.value == 0 {
      return Settled(NoConnection);
    }
    return Onward(header.value.packetEnd.value);
  }

  /** `quic_connection_observation`. */
  method ConnectionObservation(datagram: Bytes) returns (r: Observation)
    ensures r == Observe(datagram, 0)
  {
    var offset := 0;
    while offset < |datagram|
      invariant offset <= |datagram|
      invariant Observe(datagram, 0) == Observe(datagram, offset)
      decreases |datagram| - offset
    {
      var g := LookAt(datagram[offset..]);
      match g
      case Settled(observation) => return observation;
      case Onward(length) => offset := offset + length;
    }
    return NoConnection;
  }

  function ObservedKey(datagram: Bytes): (key: Option<ConnectionKey>)
    ensures key.Some? ==> ParsedKey(key.value)
  {
    match Observe(datagram, 0) case Initial(key) => Some(key) case _ => None
  }

  predicate HasUnsupportedVersion(datagram: Bytes)
  {
    Observe(datagram, 0).UnsupportedVersion?
  }

  function EncodeDatagram(packets: seq<Packet>): (bytes: Bytes)
    requires forall i :: 0 <= i < |packets| ==> packets[i].WellFormed()
  {
    if |packets| == 0 then [] else EncodePacket(packets[0]) + EncodeDatagram(packets[1..])
  }

  /** One step of the walk over an encoded packet. */
  lemma ObservePacket(before: Bytes, p: Packet, rest: Bytes)
    requires p.WellFormed()
    ensures var datagram := before + EncodePacket(p) + rest;
      Observe(datagram, |before|)
      == if p.IsInitial() then Initial(ConnectionKey(ToWire(p.version), p.dcid))
         else Observe(datagram, |before + EncodePacket(p)|)
  {
    LongHeaderRoundTrip(p, rest);
    LookAtHeader(EncodePacket(p) + rest, HeaderOf(p));
    WalkNext(before, EncodePacket(p), rest, Look);
  }

  lemma WalkNext(before: Bytes, packet: Bytes, rest: Bytes, look: Bytes -> Glance)
    requires Proper(look) && |packet| > 0
    requires look(packet + rest).Onward? ==> look(packet + rest).length == |packet|
    ensures var datagram := before + packet + rest;
      Walk(datagram, |before|, look) ==
        match look(packet + rest)
        case Settled(observation) => observation
        case Onward(_) => Walk(datagram, |before + packet|, look)
  {
    var datagram := before + packet + rest;
    assert datagram[|before|..] == packet + rest;
  }

  lemma LookAtHeader(packet: Bytes, header: LongHeader)
    requires ParseLongHeader(packet) == Some(header) && header.packetEnd.Some?
    ensures Look(packet) == if header.initial.Some? then Settled(Initial(header.Key())) else Onward(header.packetEnd.value)
  {
  }

  /** What a look at a packet with this header must say. */
  ghost predicate Mirrored(header: LongHeader, g: Glance)
  {
    header.packetEnd.Some? ==>
      g == if header.initial.Some? then Settled(Initial(header.Key())) else Onward(header.packetEnd.value)
  }

  ghost predicate Mirrors(look: Bytes -> Glance)
  {
    && Proper(look)
    && forall packet, header :: ParseLongHeader(packet) == Some(header) ==> Mirrored(header, look(packet))
  }

  lemma LookMirrors()
    ensures Mirrors(Look)
  {
    forall packet, header | ParseLongHeader(packet) == Some(header) ensures Mirrored(header, Look(packet)) {
      if header.packetEnd.Some? {
        LookAtHeader(packet, header);
      }
    }
  }

  /** 0-RTT and Handshake packets in front of an Initial never hide its identity. */
  lemma {:induction false} CoalescedInitialObserved(before: Bytes, skipped: seq<Packet>, initial: Packet, rest: Bytes)
    requires forall i :: 0 <= i < |skipped| ==> skipped[i].WellFormed() && !skipped[i].IsInitial()
    requires initial.WellFormed() && initial.IsInitial()
    ensures Observe(before + EncodeDatagram(skipped) + (EncodePacket(initial) + rest), |before|)
         == Initial(ConnectionKey(ToWire(initial.version), initial.dcid))
    decreases |skipped|
  {
    var last := EncodePacket(initial) + rest;
    var datagram := before + EncodeDatagram(skipped) + last;
    if |skipped| == 0 {
      Regroup(before, [], EncodePacket(initial), rest);
      ObservePacket(before, initial, rest);
    } else {
      var first, others := EncodePacket(skipped[0]), EncodeDatagram(skipped[1..]);
      Regroup(before, first, others, last);
      ObservePacket(before, skipped[0], others + last);
      CoalescedInitialObserved(before + first, skipped[1..], initial, rest);
    }
  }

  // -------------------------------------------------------- routing identity

  /** `routing_identity`: version, explicit DCID length, DCID, zero padding to 25 bytes. */
  function RoutingIdentity(key: ConnectionKey): (identity: Bytes)
    requires ParsedKey(key)
    ensures |identity| == 25
  {
    ToBigEndian(WireInRange(key), 4) + [|key.dcid|] + key.dcid + seq(20 - |key.dcid|, _ => 0)
  }

  function WireInRange(key: ConnectionKey): (wire: nat)
    requires ParsedKey(key)
    ensures wire == key.wireVersion && wire < Pow256(4)
  {
    assert Pow256(2) == 65536;
    key.wireVersion
  }

  lemma RoutingIdentityInjective(a: ConnectionKey, b: ConnectionKey)
    requires ParsedKey(a) && ParsedKey(b) && RoutingIdentity(a) == RoutingIdentity(b)
    ensures a == b
  {
    var left, right := RoutingIdentity(a), RoutingIdentity(b);
    assert left[4] == |a.dcid| && right[4] == |b.dcid|;
    assert left[5..5 + |a.dcid|] == a.dcid && right[5..5 + |b.dcid|] == b.dcid;
    assert left[..4] == ToBigEndian(WireInRange(a), 4) && right[..4] == ToBigEndian(WireInRange(b), 4);
    BigEndianInverse(WireInRange(a), 4);
    BigEndianInverse(WireInRange(b), 4);
  }

  // ---------------------------------------------------------- packet numbers

  const U64_MAX: nat := 0xffff_ffff_ffff_ffff
  const PACKET_NUMBER_LIMIT: nat := 0x4000_0000_0000_0000

  function SaturatingAdd(a: nat, b: nat): (sum: nat)
    ensures sum == Min(a + b, U64_MAX)
  {
    if a + b > U64_MAX then U64_MAX else a + b
  }

  function Expected(largest: Option<nat>): (expected: nat)
  {
    match largest case None => 0 case Some(value) => SaturatingAdd(value, 1)
  }

  /** The candidate next to `expected` that carries the truncated bits. */
  function Recover(expected: nat, truncated: nat, window: nat): (number: nat)
    requires truncated < window
  {
    // `expected & !mask` clears the low bits of `expected`.
    var candidate := expected - expected % window + truncated;
    if SaturatingAdd(candidate, window / 2) <= expected && candidate < PACKET_NUMBER_LIMIT - window then
      candidate + window
    else if candidate > SaturatingAdd(expected, window / 2) && candidate >= window then
      candidate - window
    else
      candidate
  }

  /** `reconstruct_packet_number`. */
  function ReconstructPacketNumber(largest: Option<nat>, truncated: nat, encodedLength: nat): (number: nat)
    requires 1 <= encodedLength <= 4 && truncated < Pow256(encodedLength)
  {
    Recover(Expected(largest), truncated, Pow256(encodedLength))
  }

  lemma WindowSizes()
    ensures Pow256(1) == 0x100 && Pow256(2) == 0x1_0000
    ensures Pow256(3) == 0x100_0000 && Pow256(4) == 0x1_0000_0000
  {
    assert Pow256(4) == 256 * Pow256(3) && Pow256(3) == 256 * Pow256(2);
  }

  lemma WithinOneWindow(k: int, window: nat)
    requires -2 * window < k * window < 2 * window
    ensures k in {-1, 0, 1}
  {
  }

  lemma RecoverExact(expected: nat, number: nat, window: nat)
    requires 0 < window <= 0x1_0000_0000 && window % 2 == 0
    requires expected <= U64_MAX && number < PACKET_NUMBER_LIMIT
    requires expected - window / 2 < number <= expected + window / 2
    ensures Recover(expected, number % window, window) == number
  {
    var candidate := expected - expected % window + number % window;
    var k := number / window - expected / window;
    assert expected == expected / window * window + expected % window;
    assert number == number / window * window + number % window;
    assert number - candidate == k * window by {
      assert k * window == number / window * window - expected / window * window;
    }
    WithinOneWindow(k, window);
    assert number == candidate - window || number == candidate || number == candidate + window;
  }

  /** Appendix A.3: the truncation of any number in the half-window around the expected one. */
  lemma PacketNumberExact(largest: Option<nat>, number: nat, encodedLength: nat)
    requires 1 <= encodedLength <= 4 && number < PACKET_NUMBER_LIMIT
    requires Expected(largest) - Pow256(encodedLength) / 2 < number
    requires number <= Expected(largest) + Pow256(encodedLength) / 2
    ensures ReconstructPacketNumber(largest, number % Pow256(encodedLength), encodedLength) == number
  {
    WindowSizes();
    RecoverExact(Expected(largest), number, Pow256(encodedLength));
  }
}
