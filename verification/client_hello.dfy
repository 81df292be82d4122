/**
  The TLS ClientHello parser shared by the TCP and QUIC sniffers. A hello is
  described by its decoded extension list; the cursor-moving parser is proved
  to agree with that description.
 */
module ClientHello {
  import opened Base

  type Domain = string

  datatype ParseOutcome = Matched(domain: Domain) | EchExtensionPresent | NeedMoreData | NotMatched

  /** UTF-8 decoding, IP-literal rejection and domain normalisation of a host name. */
  type Normalizer = Bytes -> Option<Domain>

  const TLS_CLIENT_HELLO_TYPE: nat := 0x01
  const TLS_SERVER_NAME_EXTENSION: nat := 0
  const TLS_ENCRYPTED_CLIENT_HELLO_EXTENSION: nat := 0xfe0d
  const HOST_NAME_TYPE: nat := 0
  const DOT: nat := 0x2e

  // -------------------------------------------------------- description

  datatype Extension = Extension(kind: nat, content: Bytes)

  /** The extension block as a list; a truncated item makes the whole block invalid. */
  function ParseExtensions(block: Bytes): (r: Option<seq<Extension>>)
  {
    if |block| == 0 then Some([])
    else if |block| < 4 then None
    else
      var end := 4 + U16(block[2], block[3]);
      if end > |block| then None
      else match ParseExtensions(block[end..])
        case None => None
        case Some(rest) => Some([Extension(U16(block[0], block[1]), block[4..end])] + rest)
  }

  datatype ServerName = ServerName(kind: nat, name: Bytes)

  function ParseNames(list: Bytes): (r: Option<seq<ServerName>>)
  {
    if |list| == 0 then Some([])
    else if |list| < 3 then None
    else
      var end := 3 + U16(list[1], list[2]);
      if end > |list| then None
      else match ParseNames(list[end..])
        case None => None
        case Some(rest) => Some([ServerName(list[0], list[3..end])] + rest)
  }

  function HostNames(names: seq<ServerName>): (hosts: seq<Bytes>)
  {
    if |names| == 0 then []
    else (if names[0].kind == HOST_NAME_TYPE then [names[0].name] else []) + HostNames(names[1..])
  }

  function OfKind(kind: nat, extensions: seq<Extension>): (contents: seq<Bytes>)
  {
    if |extensions| == 0 then []
    else
      (if extensions[0].kind == kind then [extensions[0].content] else [])
      + OfKind(kind, extensions[1..])
  }

  /** A usable host name: no trailing root dot, and a domain after normalisation. */
  function HostDomain(normalize: Normalizer, host: Bytes): (r: Option<Domain>)
  {
    if |host| > 0 && host[|host| - 1] == DOT then None else normalize(host)
  }

  /** The domain of a server_name extension: exactly one host name, and a usable one. */
  function SniDomain(normalize: Normalizer, content: Bytes): (r: Option<Domain>)
  {
    if |content| < 2 || U16(content[0], content[1]) != |content| - 2 then None
    else NamesDomain(normalize, ParseNames(content[2..]))
  }

  function NamesDomain(normalize: Normalizer, names: Option<seq<ServerName>>): (r: Option<Domain>)
  {
    match names
    case None => None
    case Some(list) =>
      if |HostNames(list)| == 1 then HostDomain(normalize, HostNames(list)[0]) else None
  }

  /** At most one server_name, a usable one, and no encrypted hello that would make it untrusted. */
  function Judge(normalize: Normalizer, sni: seq<Bytes>, ech: bool): (r: ParseOutcome)
    ensures !r.NeedMoreData?
  {
    if |sni| > 1 || (|sni| == 1 && SniDomain(normalize, sni[0]).None?) then NotMatched
    else if ech then EchExtensionPresent
    else if |sni| == 1 then Matched(SniDomain(normalize, sni[0]).value)
    else NotMatched
  }

  /** What a decoded extension list says about routing. */
  function Verdict(normalize: Normalizer, extensions: seq<Extension>): (r: ParseOutcome)
    ensures !r.NeedMoreData?
  {
    Judge(normalize, OfKind(TLS_SERVER_NAME_EXTENSION, extensions),
          |OfKind(TLS_ENCRYPTED_CLIENT_HELLO_EXTENSION, extensions)| > 0)
  }

  function BlockOutcome(normalize: Normalizer, block: Bytes): (r: ParseOutcome)
    ensures !r.NeedMoreData?
  {
    match ParseExtensions(block)
    case None => NotMatched
    case Some(extensions) => Verdict(normalize, extensions)
  }

  /** The end of the legacy fields that precede the extensions, when they are well formed. */
  function LegacyFieldsEnd(body: Bytes): (r: Option<nat>)
    ensures r.Some? ==> r.value + 2 <= |body|
  {
    if |body| < 35 || body[34] > 32 then None
    else
      var sessionId: nat := body[34];
      var suites := 35 + sessionId;
      if suites + 2 > |body| then None
      else
        var suitesLength := U16(body[suites], body[suites + 1]);
        var compression := suites + 2 + suitesLength;
        if suitesLength == 0 || suitesLength % 2 != 0 || compression >= |body| then None
        else
          var compressionLength: nat := body[compression];
          var end := compression + 1 + compressionLength;
          if compressionLength == 0 || end + 2 > |body| then None else Some(end)
  }

  function ExtensionBlock(handshake: Bytes): (r: Option<Bytes>)
  {
    if |handshake| < 4 || handshake[0] != TLS_CLIENT_HELLO_TYPE
      || U24(handshake[1], handshake[2], handshake[3]) != |handshake| - 4 then None
    else
      var body := handshake[4..];
      match LegacyFieldsEnd(body)
      case None => None
      case Some(end) =>
        if end + 2 + U16(body[end], body[end + 1]) != |body| then None else Some(body[end + 2..])
  }

  function HelloOutcome(normalize: Normalizer, handshake: Bytes): (r: ParseOutcome)
    ensures !r.NeedMoreData?
  {
    match ExtensionBlock(handshake)
    case None => NotMatched
    case Some(block) => BlockOutcome(normalize, block)
  }

  // -------------------------------------------------------- the parsers

  /** The answer of the name loop once `found` hosts have been seen and `rest` remains. */
  ghost function NamesAnswer(normalize: Normalizer, found: seq<Bytes>, rest: Option<seq<ServerName>>): Option<Domain>
  {
    match rest
    case None => None
    case Some(names) =>
      var hosts := found + HostNames(names);
      if |hosts| == 1 then HostDomain(normalize, hosts[0]) else None
  }

  lemma NamesAnswerStep(normalize: Normalizer, found: seq<Bytes>, item: ServerName, rest: Option<seq<ServerName>>)
    ensures NamesAnswer(normalize, found, if rest.None? then None else Some([item] + rest.value))
         == NamesAnswer(normalize, if item.kind == HOST_NAME_TYPE then found + [item.name] else found, rest)
  {
    if rest.Some? {
      var names := [item] + rest.value;
      assert names[1..] == rest.value;
      if item.kind == HOST_NAME_TYPE {
        Associate(found, [item.name], HostNames(rest.value));
      } else {
        Associate(HostNames(rest.value), [], []);
      }
    }
  }

  /** The name loop as a recursion: `found` hosts so far, `list` to come. */
  ghost function RestOfNames(normalize: Normalizer, found: seq<Bytes>, list: Bytes): (r: Option<Domain>)
    decreases |list|
  {
    if |list| == 0 then
      if |found| == 1 then HostDomain(normalize, found[0]) else None
    else if |list| < 3 || 3 + U16(list[1], list[2]) > |list| then None
    else
      var end := 3 + U16(list[1], list[2]);
      RestOfNames(normalize, WithHost(found, list[0], list[3..end]), list[end..])
  }

  lemma {:induction false} RestOfNamesAnswers(normalize: Normalizer, found: seq<Bytes>, list: Bytes)
    ensures RestOfNames(normalize, found, list) == NamesAnswer(normalize, found, ParseNames(list))
    decreases |list|
  {
    if |list| == 0 {
      Associate(found, [], []);
    } else if |list| >= 3 && 3 + U16(list[1], list[2]) <= |list| {
      var end := 3 + U16(list[1], list[2]);
      var host, rest := list[3..end], list[end..];
      NamesAnswerStep(normalize, found, ServerName(list[0], host), ParseNames(rest));
      RestOfNamesAnswers(normalize, WithHost(found, list[0], host), rest);
    }
  }

  lemma AllNames(normalize: Normalizer, list: Bytes)
    ensures RestOfNames(normalize, [], list) == NamesDomain(normalize, ParseNames(list))
  {
    RestOfNamesAnswers(normalize, [], list);
    if ParseNames(list).Some? { Associate(HostNames(ParseNames(list).value), [], []); }
  }

  lemma UselessNames(normalize: Normalizer, found: seq<Bytes>, list: Bytes)
    requires |found| > 1 || (|found| == 1 && HostDomain(normalize, found[0]).None?)
    ensures RestOfNames(normalize, found, list) == None
  {
    RestOfNamesAnswers(normalize, found, list);
  }

  /** `parse_server_name_extension`. */
  method ParseServerName(normalize: Normalizer, extension: Bytes) returns (domain: Option<Domain>)
    ensures domain == SniDomain(normalize, extension)
  {
    if |extension| < 2 {
      return None;
    }
    if U16(extension[0], extension[1]) != |extension| - 2 {
      return None;
    }
    AllNames(normalize, extension[2..]);
    domain := WalkNames(normalize, extension[2..]);
  }

  ghost function WithHost(found: seq<Bytes>, kind: nat, host: Bytes): (r: seq<Bytes>)
  {
    if kind == HOST_NAME_TYPE then found + [host] else found
  }

  /** The usable host among those found so far. */
  ghost predicate HostOf(normalize: Normalizer, found: seq<Bytes>, domain: Option<Domain>)
  {
    if domain.None? then |found| == 0 else |found| == 1 && domain == HostDomain(normalize, found[0])
  }

  lemma OneName(normalize: Normalizer, found: seq<Bytes>, list: Bytes, end: nat)
    requires |list| >= 3 && end == 3 + U16(list[1], list[2]) <= |list|
    ensures RestOfNames(normalize, found, list)
         == RestOfNames(normalize, WithHost(found, list[0], list[3..end]), list[end..])
  {
  }

  /** One turn of the name loop: it rules the list out or moves the cursor on. */
  method StepName(normalize: Normalizer, list: Bytes, cursor: nat, domain: Option<Domain>, ghost found: seq<Bytes>)
    returns (ruledOut: bool, next: nat, host: Option<Domain>, ghost hosts: seq<Bytes>)
    requires cursor < |list| && HostOf(normalize, found, domain)
    ensures ruledOut ==> RestOfNames(normalize, found, list[cursor..]) == None
    ensures !ruledOut ==> cursor < next <= |list| && HostOf(normalize, hosts, host)
    ensures !ruledOut ==> RestOfNames(normalize, found, list[cursor..]) == RestOfNames(normalize, hosts, list[next..])
  {
    ruledOut, next, host, hosts := true, cursor, domain, found;
    var here := list[cursor..];
    if |here| < 3 {
      return;
    }
    var end := 3 + U16(here[1], here[2]);
    if end > |here| {
      return;
    }
    OneName(normalize, found, here, end);
    var name := here[3..end];
    hosts := WithHost(found, here[0], name);
    if here[0] == HOST_NAME_TYPE {
      host := if |name| > 0 && name[|name| - 1] == DOT then None else normalize(name);
      if domain.Some? || host.None? {
        UselessNames(normalize, hosts, here[end..]);
        return;
      }
    }
    ruledOut, next := false, cursor + end;
    assert here[end..] == list[next..];
  }

  method WalkNames(normalize: Normalizer, list: Bytes) returns (domain: Option<Domain>)
    ensures domain == RestOfNames(normalize, [], list)
  {
    var cursor := 0;
    domain := None;
    ghost var found: seq<Bytes> := [];
    ghost var answer := RestOfNames(normalize, [], list);
    assert list[0..] == list;
    while cursor < |list|
      invariant cursor <= |list|
      invariant answer == RestOfNames(normalize, found, list[cursor..])
      invariant HostOf(normalize, found, domain)
    {
      var ruledOut;
      ruledOut, cursor, domain, found := StepName(normalize, list, cursor, domain, found);
      if ruledOut {
        return None;
      }
    }
    assert list[cursor..] == [];
  }

  /** The answer of the extension loop after `sni` and `ech` have been seen. */
  ghost function ExtensionsAnswer(normalize: Normalizer, sni: seq<Bytes>, ech: bool, rest: Option<seq<Extension>>): ParseOutcome
  {
    match rest
    case None => NotMatched
    case Some(extensions) =>
      Judge(normalize, sni + OfKind(TLS_SERVER_NAME_EXTENSION, extensions),
            ech || |OfKind(TLS_ENCRYPTED_CLIENT_HELLO_EXTENSION, extensions)| > 0)
  }

  lemma ExtensionsAnswerStep(normalize: Normalizer, sni: seq<Bytes>, ech: bool, item: Extension, rest: Option<seq<Extension>>)
    ensures ExtensionsAnswer(normalize, sni, ech, if rest.None? then None else Some([item] + rest.value))
         == ExtensionsAnswer(normalize,
              if item.kind == TLS_SERVER_NAME_EXTENSION then sni + [item.content] else sni,
              ech || item.kind == TLS_ENCRYPTED_CLIENT_HELLO_EXTENSION, rest)
  {
    if rest.Some? {
      var extensions := [item] + rest.value;
      assert extensions[1..] == rest.value;
      var more := OfKind(TLS_SERVER_NAME_EXTENSION, rest.value);
      Associate(more, [], []);
      Associate(sni, [item.content], more);
    }
  }

  /** The extension loop as a recursion: `sni` and `ech` so far, `items` to come. */
  ghost function RestOfExtensions(normalize: Normalizer, sni: seq<Bytes>, ech: bool, items: Bytes): (r: ParseOutcome)
    decreases |items|
  {
    if |items| == 0 then Judge(normalize, sni, ech)
    else if |items| < 4 || 4 + U16(items[2], items[3]) > |items| then NotMatched
    else
      var kind, end := U16(items[0], items[1]), 4 + U16(items[2], items[3]);
      RestOfExtensions(normalize, WithName(sni, kind, items[4..end]),
                       ech || kind == TLS_ENCRYPTED_CLIENT_HELLO_EXTENSION, items[end..])
  }

  lemma {:induction false} RestOfExtensionsAnswers(normalize: Normalizer, sni: seq<Bytes>, ech: bool, items: Bytes)
    ensures RestOfExtensions(normalize, sni, ech, items) == ExtensionsAnswer(normalize, sni, ech, ParseExtensions(items))
    decreases |items|
  {
    if |items| == 0 {
      Associate(sni, [], []);
    } else if |items| >= 4 && 4 + U16(items[2], items[3]) <= |items| {
      var kind, end := U16(items[0], items[1]), 4 + U16(items[2], items[3]);
      var content, rest := items[4..end], items[end..];
      ExtensionsAnswerStep(normalize, sni, ech, Extension(kind, content), ParseExtensions(rest));
      RestOfExtensionsAnswers(normalize, WithName(sni, kind, content),
                              ech || kind == TLS_ENCRYPTED_CLIENT_HELLO_EXTENSION, rest);
    }
  }

  lemma AllExtensions(normalize: Normalizer, block: Bytes)
    ensures RestOfExtensions(normalize, [], false, block) == BlockOutcome(normalize, block)
  {
    RestOfExtensionsAnswers(normalize, [], false, block);
    if ParseExtensions(block).Some? {
      Associate(OfKind(TLS_SERVER_NAME_EXTENSION, ParseExtensions(block).value), [], []);
    }
  }

  lemma UnusableName(normalize: Normalizer, sni: seq<Bytes>, ech: bool, items: Bytes)
    requires Spoiled(normalize, sni)
    ensures RestOfExtensions(normalize, sni, ech, items) == NotMatched
  {
    RestOfExtensionsAnswers(normalize, sni, ech, items);
  }

  ghost function WithName(sni: seq<Bytes>, kind: nat, content: Bytes): (r: seq<Bytes>)
  {
    if kind == TLS_SERVER_NAME_EXTENSION then sni + [content] else sni
  }

  /** The usable server name of the extensions seen so far. */
  ghost predicate NameOf(normalize: Normalizer, sni: seq<Bytes>, serverName: Option<Domain>)
  {
    if serverName.None? then |sni| == 0 else |sni| == 1 && serverName == SniDomain(normalize, sni[0])
  }

  ghost predicate Spoiled(normalize: Normalizer, sni: seq<Bytes>)
  {
    |sni| > 1 || (|sni| == 1 && SniDomain(normalize, sni[0]).None?)
  }

  /** One extension: a second or unusable server name settles the hello, an encrypted hello is noted. */
  method TakeExtension(normalize: Normalizer, kind: nat, content: Bytes, serverName: Option<Domain>, ech: bool, ghost sni: seq<Bytes>)
    returns (settled: bool, name: Option<Domain>, sawEncryptedHello: bool)
    requires NameOf(normalize, sni, serverName)
    ensures settled ==> Spoiled(normalize, WithName(sni, kind, content))
    ensures !settled ==> NameOf(normalize, WithName(sni, kind, content), name)
    ensures sawEncryptedHello == (ech || kind == TLS_ENCRYPTED_CLIENT_HELLO_EXTENSION)
  {
    settled, name, sawEncryptedHello := false, serverName, ech;
    if kind == TLS_SERVER_NAME_EXTENSION {
      if serverName.Some? {
        return true, name, ech;
      }
      name := ParseServerName(normalize, content);
      settled := name.None?;
    } else if kind == TLS_ENCRYPTED_CLIENT_HELLO_EXTENSION {
      sawEncryptedHello := true;
    }
  }

  lemma OneExtension(normalize: Normalizer, sni: seq<Bytes>, ech: bool, items: Bytes, kind: nat, end: nat)
    requires |items| >= 4 && kind == U16(items[0], items[1]) && end == 4 + U16(items[2], items[3]) <= |items|
    ensures RestOfExtensions(normalize, sni, ech, items)
         == RestOfExtensions(normalize, WithName(sni, kind, items[4..end]),
                             ech || kind == TLS_ENCRYPTED_CLIENT_HELLO_EXTENSION, items[end..])
  {
  }

  /** One turn of the extension loop: it settles the hello or moves the cursor on. */
  method StepExtension(normalize: Normalizer, block: Bytes, cursor: nat, serverName: Option<Domain>, ech: bool, ghost sni: seq<Bytes>)
    returns (settled: bool, next: nat, name: Option<Domain>, sawEncryptedHello: bool, ghost names: seq<Bytes>)
    requires cursor < |block| && NameOf(normalize, sni, serverName)
    ensures settled ==> RestOfExtensions(normalize, sni, ech, block[cursor..]) == NotMatched
    ensures !settled ==> cursor < next <= |block| && NameOf(normalize, names, name)
    ensures !settled ==>
      RestOfExtensions(normalize, sni, ech, block[cursor..]) == RestOfExtensions(normalize, names, sawEncryptedHello, block[next..])
  {
    settled, next, name, sawEncryptedHello, names := true, cursor, serverName, ech, sni;
    var items := block[cursor..];
    if |items| < 4 {
      return;
    }
    var kind, end := U16(items[0], items[1]), 4 + U16(items[2], items[3]);
    if end > |items| {
      return;
    }
    OneExtension(normalize, sni, ech, items, kind, end);
    names := WithName(sni, kind, items[4..end]);
    settled, name, sawEncryptedHello := TakeExtension(normalize, kind, items[4..end], serverName, ech, sni);
    if settled {
      UnusableName(normalize, names, sawEncryptedHello, items[end..]);
    }
    next := cursor + end;
    assert items[end..] == block[next..];
  }

  /** The extension loop of `parse_client_hello`. */
  method WalkExtensions(normalize: Normalizer, block: Bytes) returns (outcome: ParseOutcome)
    ensures outcome == BlockOutcome(normalize, block)
  {
    var cursor := 0;
    var serverName: Option<Domain>, sawEncryptedHello := None, false;
    ghost var sni: seq<Bytes> := [];
    ghost var answer := BlockOutcome(normalize, block);
    assert block[0..] == block;
    AllExtensions(normalize, block);
    while cursor < |block|
      invariant cursor <= |block|
      invariant answer == RestOfExtensions(normalize, sni, sawEncryptedHello, block[cursor..])
      invariant NameOf(normalize, sni, serverName)
    {
      var settled;
      settled, cursor, serverName, sawEncryptedHello, sni :=
        StepExtension(normalize, block, cursor, serverName, sawEncryptedHello, sni);
      if settled {
        return NotMatched;
      }
    }
    assert block[cursor..] == [];
    if sawEncryptedHello {
      return EchExtensionPresent;
    }
    return if serverName.Some? then Matched(serverName.value) else NotMatched;
  }

  /** `parse_client_hello`. */
  method ParseClientHello(normalize: Normalizer, handshake: Bytes) returns (outcome: ParseOutcome)
    ensures outcome == HelloOutcome(normalize, handshake)
  {
    if |handshake| < 4 || handshake[0] != TLS_CLIENT_HELLO_TYPE {
      return NotMatched;
    }
    if U24(handshake[1], handshake[2], handshake[3]) != |handshake| - 4 {
      return NotMatched;
    }
    var body := handshake[4..];
    var end := LegacyFieldsEnd(body);
    if end.None? {
      return NotMatched;
    }
    var cursor := end.value;
    if cursor + 2 + U16(body[cursor], body[cursor + 1]) != |body| {
      return NotMatched;
    }
    outcome := WalkExtensions(normalize, body[cursor + 2..]);
  }

  // -------------------------------------------------------- round trip

  function EncodeExtension(e: Extension): (bytes: Bytes)
    requires e.kind < 0x1_0000 && |e.content| < 0x1_0000
  {
    PutU16(e.kind) + PutU16(|e.content|) + e.content
  }

  ghost predicate Encodable(extensions: seq<Extension>)
  {
    forall i :: 0 <= i < |extensions| ==>
      extensions[i].kind < 0x1_0000 && |extensions[i].content| < 0x1_0000
  }

  function EncodeExtensions(extensions: seq<Extension>): (bytes: Bytes)
    requires Encodable(extensions)
  {
    if |extensions| == 0 then []
    else EncodeExtension(extensions[0]) + EncodeExtensions(extensions[1..])
  }

  lemma ExtensionAt(e: Extension, rest: Bytes)
    requires e.kind < 0x1_0000 && |e.content| < 0x1_0000
    ensures var block := EncodeExtension(e) + rest;
      var end := 4 + |e.content|;
      && |block| >= end && block[4..end] == e.content && block[end..] == rest
      && U16(block[0], block[1]) == e.kind && U16(block[2], block[3]) == |e.content|
  {
    var block := EncodeExtension(e) + rest;
    var kind, length := PutU16(e.kind), PutU16(|e.content|);
    assert block[0] == kind[0] && block[1] == kind[1] && block[2] == length[0] && block[3] == length[1];
  }

  lemma {:induction false} ExtensionsRoundTrip(extensions: seq<Extension>)
    requires Encodable(extensions)
    ensures ParseExtensions(EncodeExtensions(extensions)) == Some(extensions)
  {
    if |extensions| > 0 {
      ExtensionAt(extensions[0], EncodeExtensions(extensions[1..]));
      ExtensionsRoundTrip(extensions[1..]);
      assert extensions == [extensions[0]] + extensions[1..];
    }
  }

  /** The fields of a ClientHello, section 4.1.2 of RFC 8446. */
  datatype Hello = Hello(
    versionAndRandom: Bytes,
    sessionId: Bytes,
    cipherSuites: Bytes,
    compressionMethods: Bytes,
    extensions: seq<Extension>)
  {
    ghost predicate WellFormed()
    {
      && |versionAndRandom| == 34 && |sessionId| <= 32
      && 0 < |cipherSuites| < 0x1_0000 && |cipherSuites| % 2 == 0
      && 0 < |compressionMethods| < 0x100
      && Encodable(extensions) && |EncodeExtensions(extensions)| < 0x1_0000
    }
  }

  function EncodeLegacy(h: Hello): (bytes: Bytes)
    requires h.WellFormed()
    ensures |bytes| < 0x2_0000
  {
    h.versionAndRandom + [|h.sessionId|] + h.sessionId
    + PutU16(|h.cipherSuites|) + h.cipherSuites
    + [|h.compressionMethods|] + h.compressionMethods
  }

  function EncodeBody(h: Hello): (bytes: Bytes)
    requires h.WellFormed()
    ensures |bytes| < 0x100_0000
  {
    var block := EncodeExtensions(h.extensions);
    EncodeLegacy(h) + PutU16(|block|) + block
  }

  function EncodeHello(h: Hello): (bytes: Bytes)
    requires h.WellFormed()
    ensures |bytes| > 4
  {
    var body := EncodeBody(h);
    [TLS_CLIENT_HELLO_TYPE] + PutU24(|body|) + body
  }

  lemma LegacyRoundTrip(h: Hello, rest: Bytes)
    requires h.WellFormed() && |rest| >= 2
    ensures LegacyFieldsEnd(EncodeLegacy(h) + rest) == Some(|EncodeLegacy(h)|)
  {
    var body := EncodeLegacy(h) + rest;
    var suites := 35 + |h.sessionId|;
    assert body[34] == |h.sessionId|;
    assert body[suites..suites + 2] == PutU16(|h.cipherSuites|);
    assert body[suites + 2 + |h.cipherSuites|] == |h.compressionMethods|;
  }

  lemma AfterLength(front: Bytes, block: Bytes)
    requires |block| < 0x1_0000
    ensures var body := front + (PutU16(|block|) + block);
      U16(body[|front|], body[|front| + 1]) == |block| && body[|front| + 2..] == block
  {
  }

  lemma BodyRoundTrip(h: Hello)
    requires h.WellFormed()
    ensures var body, block, end := EncodeBody(h), EncodeExtensions(h.extensions), |EncodeLegacy(h)|;
      && LegacyFieldsEnd(body) == Some(end)
      && end + 2 + U16(body[end], body[end + 1]) == |body| && body[end + 2..] == block
  {
    var block := EncodeExtensions(h.extensions);
    Associate(EncodeLegacy(h), PutU16(|block|), block);
    LegacyRoundTrip(h, PutU16(|block|) + block);
    AfterLength(EncodeLegacy(h), block);
  }

  lemma BlockRoundTrip(h: Hello)
    requires h.WellFormed()
    ensures ExtensionBlock(EncodeHello(h)) == Some(EncodeExtensions(h.extensions))
  {
    BodyRoundTrip(h);
    var body, handshake := EncodeBody(h), EncodeHello(h);
    var length := PutU24(|body|);
    assert handshake[1] == length[0] && handshake[2] == length[1] && handshake[3] == length[2];
    assert handshake[4..] == body;
  }

  /** The length field of a hello at the front of a stream says where it ends. */
  lemma HelloLength(h: Hello, stream: Bytes)
    requires h.WellFormed() && EncodeHello(h) <= stream
    ensures |EncodeHello(h)| == 4 + U24(stream[1], stream[2], stream[3])
    ensures stream[..|EncodeHello(h)|] == EncodeHello(h)
  {
    var body, handshake := EncodeBody(h), EncodeHello(h);
    var length := PutU24(|body|);
    assert handshake[1] == length[0] && handshake[2] == length[1] && handshake[3] == length[2];
    assert stream[1] == handshake[1] && stream[2] == handshake[2] && stream[3] == handshake[3];
  }

  /** Any well-formed hello is judged by its extension list alone. */
  lemma HelloRoundTrip(normalize: Normalizer, h: Hello)
    requires h.WellFormed()
    ensures HelloOutcome(normalize, EncodeHello(h)) == Verdict(normalize, h.extensions)
  {
    BlockRoundTrip(h);
    ExtensionsRoundTrip(h.extensions);
  }
}
