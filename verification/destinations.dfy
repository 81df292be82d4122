/** Datagram destinations and their port-first wire form. */
module Destinations {
  import opened Base

  type Port = p: nat | p < 0x1_0000
  type Octets4 = o: Bytes | |o| == 4 witness [0, 0, 0, 0]
  type Octets16 = o: Bytes | |o| == 16 witness [0, 0, 0, 0, 0, 0, 0, 0, 0, 0, 0, 0, 0, 0, 0, 0]

  datatype Destination =
    | V4(octets: Octets4, port: Port)
    | V6(wide: Octets16, port: Port)
    | Domain(host: Bytes, port: Port)

  const KIND_V4: Byte := 1
  const KIND_DOMAIN: Byte := 2
  const KIND_V6: Byte := 3

  /** Which byte strings are UTF-8 text. */
  type Text = Bytes -> bool

  predicate Control(b: Byte)
  {
    b < 32 || b == 127
  }

  /** The checks on a domain destination. */
  predicate ValidDomain(host: Bytes, port: Port)
  {
    0 < |host| <= 255 && port != 0 && forall i :: 0 <= i < |host| ==> !Control(host[i])
  }

  datatype Decoded = Decoded(destination: Destination, consumed: nat)

  function DomainAt(input: Bytes, port: Port, utf8: Text): (r: Option<Decoded>)
    ensures r.Some? ==> r.value.consumed <= |input|
  {
    if |input| < 4 then None
    else
      var length: nat := input[3];
      if |input| < 4 + length then None
      else
        var host := input[4..4 + length];
        if utf8(host) && ValidDomain(host, port) then Some(Decoded(Domain(host, port), 4 + length)) else None
  }

  /** `None` where the bytes are truncated, the port is zero, or the domain is refused. */
  function DecodeDestination(input: Bytes, utf8: Text): (r: Option<Decoded>)
    ensures r.Some? ==> r.value.consumed <= |input|
  {
    if |input| < 3 then None
    else
      var port := U16(input[0], input[1]);
      if port == 0 then None
      else if input[2] == KIND_V4 then
        if |input| < 7 then None else Some(Decoded(V4(input[3..7], port), 7))
      else if input[2] == KIND_DOMAIN then
        DomainAt(input, port, utf8)
      else if input[2] == KIND_V6 then
        if |input| < 19 then None else Some(Decoded(V6(input[3..19], port), 19))
      else None
  }

  /** Only a domain longer than its one-byte length can say is refused. */
  function EncodeDestination(d: Destination): (r: Option<Bytes>)
    ensures r.None? <==> d.Domain? && |d.host| > 255
    ensures r.Some? ==> 4 <= |r.value| <= 259
  {
    match d
    case V4(octets, port) => Some(PutU16(port) + [KIND_V4] + octets)
    case Domain(host, port) =>
      if |host| > 255 then None
      else
        var length: Byte := |host|;
        Some(PutU16(port) + [KIND_DOMAIN, length] + host)
    case V6(octets, port) => Some(PutU16(port) + [KIND_V6] + octets)
  }

  /** Exactly the destinations that decoding produces. */
  predicate Reachable(d: Destination, utf8: Text)
  {
    d.port != 0 && (d.Domain? ==> utf8(d.host) && ValidDomain(d.host, d.port))
  }

  lemma DestinationRoundTrip(d: Destination, utf8: Text, rest: Bytes)
    requires Reachable(d, utf8)
    ensures EncodeDestination(d).Some?
    ensures var wire := EncodeDestination(d).value;
            DecodeDestination(wire + rest, utf8) == Some(Decoded(d, |wire|))
  {
    var wire := EncodeDestination(d).value;
    var input := wire + rest;
    var head := PutU16(d.port);
    assert input[0] == head[0] && input[1] == head[1];
    match d {
      case V4(octets, _) => assert input[3..7] == octets;
      case V6(octets, _) => assert input[3..19] == octets;
      case Domain(host, _) => assert input[4..4 + |host|] == host;
    }
  }

  /** Decoding yields only such destinations, and re-encoding one gives back the bytes it was read from. */
  lemma DecodedReencodes(input: Bytes, utf8: Text)
    requires DecodeDestination(input, utf8).Some?
    ensures var r := DecodeDestination(input, utf8).value;
            Reachable(r.destination, utf8) && EncodeDestination(r.destination) == Some(input[..r.consumed])
  {
    var r := DecodeDestination(input, utf8).value;
    PortBytes(input[0], input[1]);
    assert input[..2] == PutU16(r.destination.port);
    match r.destination {
      case V4(octets, _) => assert input[..7] == input[..2] + [KIND_V4] + octets;
      case V6(octets, _) => assert input[..19] == input[..2] + [KIND_V6] + octets;
      case Domain(host, _) =>
        var length: nat := input[3];
        assert host == input[4..4 + length];
        assert input[..4 + length] == input[..2] + [KIND_DOMAIN, input[3]] + host;
    }
  }

  /** Decoding gives a destination and a length exactly when the wire form of that destination stands in front. */
  lemma DecodesExactly(input: Bytes, utf8: Text, d: Destination, n: nat)
    ensures DecodeDestination(input, utf8) == Some(Decoded(d, n)) <==>
      Reachable(d, utf8) && n <= |input| && EncodeDestination(d) == Some(input[..n])
  {
    if DecodeDestination(input, utf8) == Some(Decoded(d, n)) {
      DecodedReencodes(input, utf8);
    }
    if Reachable(d, utf8) && n <= |input| && EncodeDestination(d) == Some(input[..n]) {
      DestinationRoundTrip(d, utf8, input[n..]);
      assert input[..n] + input[n..] == input;
    }
  }

  lemma PortBytes(high: Byte, low: Byte)
    ensures PutU16(U16(high, low)) == [high, low]
  {
  }
}
