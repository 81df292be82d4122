/**
  The sniffer as it is stored: one CRYPTO buffer with zero-filled gaps and the
  list of ranges that hold real data. Every method is proved against the
  partial-map meaning of `QuicSniffer`.
 */
module QuicObserver {
  import opened Base
  import opened Ranges
  import opened QuicWire
  import opened CryptoStream
  import opened QuicFrames
  import opened QuicSniffer
  import Hello = ClientHello

  function LastEnd(ranges: seq<Range>): nat
  {
    if |ranges| == 0 then 0 else ranges[|ranges| - 1].end
  }

  /** Canonical ranges, a buffer that ends with the last of them, and zeros in the gaps. */
  ghost predicate Stores(crypto: Bytes, ranges: seq<Range>)
  {
    && Canonical(ranges)
    && |crypto| == LastEnd(ranges)
    && forall x: nat :: x < |crypto| && !Covers(ranges, x) ==> crypto[x] == 0
  }

  /** The stream a buffer stands for: gaps are not part of it. */
  ghost function Stored(crypto: Bytes, ranges: seq<Range>): (view: View)
  {
    map x: nat | x < |crypto| && Covers(ranges, x) :: crypto[x]
  }

  lemma CoveredInBounds(crypto: Bytes, ranges: seq<Range>)
    requires Stores(crypto, ranges)
    ensures forall x: nat :: Covers(ranges, x) ==> x < |crypto|
    ensures CoversExactly(ranges, Stored(crypto, ranges).Keys)
  {
    forall x: nat | Covers(ranges, x) ensures x < |crypto| {
      var i :| 0 <= i < |ranges| && ranges[i].start <= x < ranges[i].end;
      assert i == |ranges| - 1 || ranges[i].end < ranges[|ranges| - 1].start;
    }
  }

  /** Equal streams are stored identically, buffer and ranges alike. */
  lemma StoredIdentically(crypto: Bytes, ranges: seq<Range>, crypto': Bytes, ranges': seq<Range>)
    requires Stores(crypto, ranges) && Stores(crypto', ranges')
    requires Stored(crypto, ranges) == Stored(crypto', ranges')
    ensures crypto == crypto' && ranges == ranges'
  {
    CoveredInBounds(crypto, ranges);
    CoveredInBounds(crypto', ranges');
    CanonicalUnique(ranges, ranges', Stored(crypto, ranges).Keys);
    forall x: nat | x < |crypto| ensures crypto[x] == crypto'[x] {
      assert Covers(ranges, x) ==> crypto[x] == Stored(crypto, ranges)[x] && crypto'[x] == Stored(crypto', ranges')[x];
    }
  }

  function Overlaid(crypto: Bytes, fragment: Fragment, x: nat): Byte
  {
    if fragment.Holds(x) then fragment.At(x) else if x < |crypto| then crypto[x] else 0
  }

  /** The buffer after a fragment has been copied in. */
  function Write(crypto: Bytes, fragment: Fragment): (written: Bytes)
    ensures |written| == Max(|crypto|, fragment.offset + |fragment.data|)
    ensures forall x: nat :: x < |written| ==> written[x] == Overlaid(crypto, fragment, x)
  {
    var end := fragment.offset + |fragment.data|;
    var padded := if |crypto| < end then crypto + seq(end - |crypto|, _ => 0) else crypto;
    padded[..fragment.offset] + fragment.data + padded[end..]
  }

  ghost predicate Widened(ranges: seq<Range>, fragment: Fragment, merged: seq<Range>)
  {
    forall x: nat :: Covers(merged, x) <==> Covers(ranges, x) || fragment.Holds(x)
  }

  lemma LastEndIsBound(ranges: seq<Range>, bound: nat)
    requires Canonical(ranges) && (bound == 0 || Covers(ranges, bound - 1))
    requires forall x: nat :: Covers(ranges, x) ==> x < bound
    ensures LastEnd(ranges) == bound
  {
    if |ranges| > 0 {
      var last := ranges[|ranges| - 1];
      assert Covers(ranges, last.end - 1);
      assert forall i :: 0 <= i < |ranges| ==> ranges[i].end <= last.end;
    }
  }

  lemma MergedEnd(crypto: Bytes, ranges: seq<Range>, fragment: Fragment, merged: seq<Range>)
    requires Stores(crypto, ranges) && |fragment.data| > 0
    requires Canonical(merged) && Widened(ranges, fragment, merged)
    ensures LastEnd(merged) == Max(|crypto|, fragment.offset + |fragment.data|)
  {
    var end := fragment.offset + |fragment.data|;
    CoveredInBounds(crypto, ranges);
    if |crypto| > end {
      var last := ranges[|ranges| - 1];
      assert last.start <= last.end - 1 < last.end;
      assert Covers(ranges, |crypto| - 1);
      assert Covers(merged, |crypto| - 1);
    } else {
      assert fragment.Holds(end - 1);
      assert Covers(merged, end - 1);
    }
    LastEndIsBound(merged, Max(|crypto|, end));
  }

  /** Storing a fitting fragment adds exactly its bytes to the stream. */
  lemma WriteStores(crypto: Bytes, ranges: seq<Range>, fragment: Fragment, merged: seq<Range>)
    requires Stores(crypto, ranges) && |fragment.data| > 0
    requires Canonical(merged) && Widened(ranges, fragment, merged)
    ensures Stores(Write(crypto, fragment), merged)
    ensures Stored(Write(crypto, fragment), merged) == Stored(crypto, ranges) + fragment.View()
  {
    MergedEnd(crypto, ranges, fragment, merged);
    CoveredInBounds(crypto, ranges);
    var written := Write(crypto, fragment);
    var before, after := Stored(crypto, ranges), Stored(written, merged);
    forall x: nat ensures x in after <==> x in before + fragment.View() {
      assert Covers(merged, x) <==> Covers(ranges, x) || fragment.Holds(x);
    }
    forall x: nat | x in after ensures after[x] == (before + fragment.View())[x] {
      assert Covers(merged, x);
    }
    assert after == before + fragment.View();
  }

  /** The contiguous prefix of the stream is the first range, when it starts at zero. */
  lemma HaveIff(crypto: Bytes, ranges: seq<Range>, n: nat)
    requires Stores(crypto, ranges) && n > 0
    ensures Have(Stored(crypto, ranges), n) <==> |ranges| > 0 && ranges[0].start == 0 && n <= ranges[0].end
    ensures Have(Stored(crypto, ranges), n) ==> n <= |crypto| && Prefix(Stored(crypto, ranges), n) == crypto[..n]
  {
    var view := Stored(crypto, ranges);
    CoveredInBounds(crypto, ranges);
    if Have(view, n) {
      assert 0 in view && n - 1 in view;
      assert Covers(ranges, 0);
      FirstRange(ranges, view.Keys);
      assert ranges[0].end >= n;
    }
    if |ranges| > 0 && ranges[0].start == 0 && n <= ranges[0].end {
      forall x: nat | x < n ensures x in view { assert Covers(ranges, x); }
    }
  }

  /** The fragment and the buffer hold the same bytes inside `range`. */
  ghost predicate FitsRange(crypto: Bytes, range: Range, fragment: Fragment)
    requires range.end <= |crypto|
  {
    forall x: nat :: range.start <= x < range.end && fragment.Holds(x) ==> crypto[x] == fragment.At(x)
  }

  /** How many bytes from the start of the stream are known. */
  function Contiguous(ranges: seq<Range>): (n: nat)
  {
    if |ranges| > 0 && ranges[0].start == 0 then ranges[0].end else 0
  }

  /** What a buffer known up to `contiguous` decides. */
  function BufferHello(judge: Bytes -> Outcome, crypto: Bytes, contiguous: nat): (r: Outcome)
    requires contiguous <= |crypto|
  {
    if contiguous < 4 then NeedMoreData
    else if crypto[0] != Hello.TLS_CLIENT_HELLO_TYPE then NotMatched
    else
      var total := 4 + U24(crypto[1], crypto[2], crypto[3]);
      if total > MAX_CRYPTO_BYTES then LimitReached
      else if contiguous < total then NeedMoreData
      else judge(crypto[..total])
  }

  lemma KnownPrefixHello(judge: Bytes -> Outcome, view: View, crypto: Bytes, contiguous: nat)
    requires contiguous <= |crypto|
    requires forall n: nat :: n > 0 ==> (Have(view, n) <==> n <= contiguous)
    requires forall x: nat :: x < contiguous ==> x in view && view[x] == crypto[x]
    ensures TryWith(judge, view) == BufferHello(judge, crypto, contiguous)
  {
    assert Have(view, 4) <==> 4 <= contiguous;
    if contiguous >= 4 {
      var total := 4 + U24(crypto[1], crypto[2], crypto[3]);
      assert Have(view, total) <==> total <= contiguous;
      if total <= contiguous {
        PrefixOf(view, crypto, total);
      }
    }
  }

  lemma StoredHello(normalize: Hello.Normalizer, crypto: Bytes, ranges: seq<Range>)
    requires Stores(crypto, ranges)
    ensures Contiguous(ranges) <= |crypto|
    ensures TryHello(normalize, Stored(crypto, ranges)) == BufferHello(Judge(normalize), crypto, Contiguous(ranges))
  {
    var view, contiguous := Stored(crypto, ranges), Contiguous(ranges);
    forall n: nat | n > 0 ensures Have(view, n) <==> n <= contiguous {
      HaveIff(crypto, ranges, n);
    }
    if contiguous > 0 {
      HaveIff(crypto, ranges, contiguous);
      PrefixBytes(view, crypto, contiguous);
    }
    KnownPrefixHello(Judge(normalize), view, crypto, contiguous);
  }

  lemma RangesInBounds(crypto: Bytes, ranges: seq<Range>)
    requires Stores(crypto, ranges)
    ensures forall i :: 0 <= i < |ranges| ==> ranges[i].end <= |crypto|
  {
    forall i | 0 <= i < |ranges| ensures ranges[i].end <= |crypto| {
      assert i == |ranges| - 1 || ranges[i].end < ranges[|ranges| - 1].start;
    }
  }

  lemma EqualSlicesFit(crypto: Bytes, range: Range, fragment: Fragment, start: nat, stop: nat)
    requires range.end <= |crypto|
    requires start == Max(fragment.offset, range.start) && stop == Min(fragment.offset + |fragment.data|, range.end)
    requires start < stop
    requires crypto[start..stop] == fragment.data[start - fragment.offset..stop - fragment.offset]
    ensures FitsRange(crypto, range, fragment)
  {
    var stored, given := crypto[start..stop], fragment.data[start - fragment.offset..stop - fragment.offset];
    forall x: nat | start <= x < stop ensures crypto[x] == fragment.At(x) {
      assert stored[x - start] == given[x - start];
    }
  }

  lemma FitsEverywhere(crypto: Bytes, ranges: seq<Range>, fragment: Fragment)
    requires Stores(crypto, ranges)
    requires forall i :: 0 <= i < |ranges| ==> ranges[i].end <= |crypto| && FitsRange(crypto, ranges[i], fragment)
    ensures fragment.Fits(Stored(crypto, ranges))
  {
    forall x: nat | fragment.Holds(x) && x in Stored(crypto, ranges)
      ensures Stored(crypto, ranges)[x] == fragment.At(x)
    {
      assert Covers(ranges, x);
      var k :| 0 <= k < |ranges| && ranges[k].start <= x < ranges[k].end;
      assert FitsRange(crypto, ranges[k], fragment);
    }
  }

  class Observer<K(!new)> {
    const protection: Protection<K>
    const normalize: Hello.Normalizer
    var initial: Option<Context<K>>
    var authenticated: bool
    var largest: Option<nat>
    var crypto: Bytes
    var ranges: seq<Range>

    ghost predicate Valid()
      reads this
    {
      Stores(crypto, ranges) && |ranges| <= MAX_RANGES && |crypto| <= MAX_CRYPTO_BYTES
    }

    ghost function Meaning(): Sniffer<K>
      reads this
    {
      Sniffer(initial, largest, Stored(crypto, ranges))
    }

    constructor (protection: Protection<K>, normalize: Hello.Normalizer)
      ensures Valid() && Meaning() == Fresh() && !authenticated
      ensures this.protection == protection && this.normalize == normalize
    {
      this.protection, this.normalize := protection, normalize;
      initial, authenticated, largest := None, false, None;
      crypto, ranges := [], [];
    }

    /** The overlap scan of `insert_crypto`. */
    method Conflicts(fragment: Fragment) returns (conflict: bool)
      requires Valid()
      ensures conflict <==> !fragment.Fits(Stored(crypto, ranges))
    {
      RangesInBounds(crypto, ranges);
      var end := fragment.offset + |fragment.data|;
      for i := 0 to |ranges|
        invariant forall k :: 0 <= k < i ==> FitsRange(crypto, ranges[k], fragment)
      {
        var start, stop := Max(fragment.offset, ranges[i].start), Min(end, ranges[i].end);
        if start < stop {
          var old', new' := crypto[start..stop], fragment.data[start - fragment.offset..stop - fragment.offset];
          if old' != new' {
            DifferentSlices(crypto, ranges, fragment, i, start, stop);
            return true;
          }
          EqualSlicesFit(crypto, ranges[i], fragment, start, stop);
        }
      }
      FitsEverywhere(crypto, ranges, fragment);
      return false;
    }

    /** `insert_crypto`. */
    method InsertCrypto(fragment: Fragment) returns (refusal: Option<Outcome>)
      requires Valid() && fragment.offset + |fragment.data| <= MAX_CRYPTO_BYTES
      modifies this`crypto, this`ranges
      ensures Valid()
      ensures match Insert(old(Stored(crypto, ranges)), fragment)
        case Ok(view) => refusal == None && Stored(crypto, ranges) == view
        case Err(outcome) => refusal == Some(outcome) && crypto == old(crypto) && ranges == old(ranges)
    {
      if |fragment.data| == 0 {
        return None;
      }
      var conflict := Conflicts(fragment);
      if conflict {
        return Some(NotMatched);
      }
      var added := Range(fragment.offset, fragment.offset + |fragment.data|);
      var merged := MergeRanges(ranges + [added]);
      MergedWidens(ranges, fragment, merged);
      WriteStores(crypto, ranges, fragment, merged);
      var written := Write(crypto, fragment);
      CoveredInBounds(written, merged);
      CanonicalLength(merged, Stored(written, merged).Keys);
      if |merged| > MAX_RANGES {
        return Some(LimitReached);
      }
      crypto := written;
      ranges := merged;
      return None;
    }

    /** `try_client_hello`. */
    method TryClientHello() returns (outcome: Outcome)
      requires Valid()
      ensures outcome == TryHello(normalize, Stored(crypto, ranges))
    {
      StoredHello(normalize, crypto, ranges);
      if |ranges| == 0 || ranges[0].start != 0 || ranges[0].end < 4 {
        return NeedMoreData;
      }
      var contiguous := ranges[0].end;
      if crypto[0] != Hello.TLS_CLIENT_HELLO_TYPE {
        return NotMatched;
      }
      var total := 4 + U24(crypto[1], crypto[2], crypto[3]);
      if total > MAX_CRYPTO_BYTES {
        return LimitReached;
      }
      if contiguous < total {
        return NeedMoreData;
      }
      var parsed := Hello.ParseClientHello(normalize, crypto[..total]);
      return FromHello(parsed);
    }

    /** `read_frames`. */
    method ReadFrames(plaintext: Bytes) returns (outcome: Outcome)
      requires Valid()
      modifies this`crypto, this`ranges
      ensures Valid()
      ensures (Stored(crypto, ranges), outcome) == ApplyPayload(old(Stored(crypto, ranges)), ParsePayload(plaintext, 0))
    {
      var cursor := 0;
      while cursor < |plaintext|
        invariant cursor <= |plaintext| && Valid()
        invariant ApplyPayload(old(Stored(crypto, ranges)), ParsePayload(plaintext, 0))
               == ApplyPayload(Stored(crypto, ranges), ParsePayload(plaintext, cursor))
        decreases |plaintext| - cursor
      {
        var item := ReadOneFrame(plaintext, cursor);
        if item.Err? {
          return item.error;
        }
        ApplyItem(Stored(crypto, ranges), plaintext, cursor, item.value);
        if item.value.fragment.Some? {
          var refusal := InsertCrypto(item.value.fragment.value);
          if refusal.Some? {
            return refusal.value;
          }
        }
        cursor := item.value.next;
      }
      return NeedMoreData;
    }

    /** `ingest_initial`. */
    method IngestInitialPacket(packet: Bytes, header: LongHeader) returns (outcome: Outcome)
      requires Valid() && header.initial.Some?
      requires var i := header.initial.value;
        0 < i.packetNumberOffset && i.packetNumberOffset + 17 <= i.packetEnd <= |packet|
      modifies this
      ensures Valid()
      ensures var r := IngestInitial(protection, normalize, old(Meaning()), packet, header);
        Meaning() == r.sniffer && outcome == r.outcome && authenticated == (old(authenticated) || r.authenticated)
    {
      var context := initial;
      if initial.Some? {
        if initial.value.wireVersion != header.wireVersion {
          return NotMatched;
        }
      } else {
        context := Some(Context(header.wireVersion, protection.derive(header.dcid, header.version)));
      }
      var decrypted := DecryptInitial(protection, packet, header.initial.value, context.value.keys, largest);
      if decrypted.None? {
        return NotMatched;
      }
      initial := context;
      largest := MaxNumber(largest, decrypted.value.packetNumber);
      authenticated := true;
      outcome := ReadFrames(decrypted.value.plaintext);
      if outcome == NeedMoreData {
        outcome := TryClientHello();
      }
    }

    /** One round of the loop of `ingest`: a verdict, or the offset of the next packet. */
    method IngestOne(datagram: Bytes, offset: nat, connection: Option<ConnectionKey>)
      returns (verdict: Option<Outcome>, next: nat, key: Option<ConnectionKey>)
      requires Valid() && offset < |datagram| && (connection.None? ==> offset == 0)
      modifies this
      ensures Valid()
      ensures match IngestPacket(protection, normalize, old(Meaning()), datagram[offset..], offset, connection, old(authenticated))
        case Stop(r) => verdict == Some(r.outcome) && Meaning() == r.sniffer && authenticated == r.authenticated
        case Continue(sniffer, end, observed, flag) =>
          && verdict == None && Meaning() == sniffer && authenticated == flag
          && next == end && key == Some(observed)
    {
      next, key := offset, connection;
      var packet := datagram[offset..];
      var parsed := ParseLongHeader(packet);
      if parsed.None? && connection.None? {
        return Some(NotMatched), next, key;
      }
      if parsed.None? || (connection.Some? && connection.value != parsed.value.Key()) {
        var stopped := TryClientHello();
        return Some(stopped), next, key;
      }
      var header := parsed.value;
      if header.packetType == RetryType(header.version) {
        var stopped := TryClientHello();
        return Some(if offset == 0 then NotMatched else stopped), next, key;
      }
      if header.initial.Some? {
        var outcome := IngestInitialPacket(packet, header);
        if outcome != NeedMoreData {
          return Some(outcome), next, key;
        }
      }
      return None, offset + header.packetEnd.value, Some(header.Key());
    }

    /** `ingest`: every long-header packet coalesced into one datagram. */
    method IngestDatagram(datagram: Bytes) returns (outcome: Outcome)
      requires Valid()
      modifies this
      ensures Valid()
      ensures Ingested(Meaning(), outcome, authenticated) == Ingest(protection, normalize, old(Meaning()), datagram)
    {
      authenticated := false;
      var offset := 0;
      var connection: Option<ConnectionKey> := None;
      while offset < |datagram|
        invariant offset <= |datagram| && Valid()
        invariant Ingest(protection, normalize, old(Meaning()), datagram)
               == IngestWith(
                    TakePacket(protection, normalize), normalize, Meaning(), datagram, offset, connection, authenticated)
        invariant connection.None? ==> offset == 0
        decreases |datagram| - offset
      {
        var verdict;
        verdict, offset, connection := IngestOne(datagram, offset, connection);
        if verdict.Some? {
          return verdict.value;
        }
      }
      outcome := TryClientHello();
    }
  }

  lemma ApplyItem(view: View, input: Bytes, cursor: nat, item: Item)
    requires cursor < |input| && ReadFrame(input, cursor) == Ok(item)
    ensures ApplyPayload(view, ParsePayload(input, cursor))
         == if item.fragment.None? then ApplyPayload(view, ParsePayload(input, item.next))
            else
              var inserted := Insert(view, item.fragment.value);
              if inserted.Err? then (view, inserted.error)
              else ApplyPayload(inserted.value, ParsePayload(input, item.next))
  {
    if item.fragment.Some? {
      var rest := ParsePayload(input, item.next);
      var whole := ParsePayload(input, cursor);
      assert whole.fragments[1..] == rest.fragments;
      assert whole.(fragments := rest.fragments) == rest;
    }
  }

  lemma PrefixBytes(view: View, crypto: Bytes, n: nat)
    requires Have(view, n) && n <= |crypto| && Prefix(view, n) == crypto[..n]
    ensures forall x: nat :: x < n ==> view[x] == crypto[x]
  {
    forall x: nat | x < n ensures view[x] == crypto[x] {
      assert Prefix(view, n)[x] == crypto[..n][x];
    }
  }

  lemma DifferentSlices(crypto: Bytes, ranges: seq<Range>, fragment: Fragment, i: nat, start: nat, stop: nat)
    requires Stores(crypto, ranges) && i < |ranges|
    requires fragment.offset <= start < stop <= fragment.offset + |fragment.data|
    requires ranges[i].start <= start && stop <= ranges[i].end && stop <= |crypto|
    requires crypto[start..stop] != fragment.data[start - fragment.offset..stop - fragment.offset]
    ensures !fragment.Fits(Stored(crypto, ranges))
  {
    var old', new' := crypto[start..stop], fragment.data[start - fragment.offset..stop - fragment.offset];
    var k :| 0 <= k < |old'| && old'[k] != new'[k];
    var x := start + k;
    assert Covers(ranges, x) && fragment.Holds(x);
    assert crypto[x] != fragment.At(x);
  }

  lemma MergedWidens(ranges: seq<Range>, fragment: Fragment, merged: seq<Range>)
    requires Canonical(merged)
    requires forall x: nat :: Covers(merged, x) <==>
      Covers(ranges + [Range(fragment.offset, fragment.offset + |fragment.data|)], x)
    ensures Widened(ranges, fragment, merged)
  {
    var added := ranges + [Range(fragment.offset, fragment.offset + |fragment.data|)];
    CoversSplit(added, |ranges|);
    assert added[..|ranges|] == ranges && added[..|ranges| + 1] == added;
  }
}
