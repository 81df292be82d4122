/** Sniffer port sets: merging, overlap, lookup, and the protocol chosen for a port. */
module PortRanges {
  import opened Base
  import opened Ranges

  const PORT_MAX: nat := 65535

  /** The inclusive range first..=last. */
  datatype PortRange = PortRange(first: nat, last: nat)
  {
    function Span(): Range
    {
      Range(first, last + 1)
    }
  }

  /** What configuration parsing produces: ports are never zero and ranges never inverted. */
  predicate Parsed(r: PortRange)
  {
    1 <= r.first <= r.last <= PORT_MAX
  }

  ghost predicate AllParsed(ranges: seq<PortRange>)
  {
    forall i :: 0 <= i < |ranges| ==> Parsed(ranges[i])
  }

  function Spans(ranges: seq<PortRange>): (r: seq<Range>)
    ensures |r| == |ranges| && forall i :: 0 <= i < |r| ==> r[i] == ranges[i].Span()
  {
    seq(|ranges|, i requires 0 <= i < |ranges| => ranges[i].Span())
  }

  ghost predicate Contains(ranges: seq<PortRange>, port: nat)
  {
    exists i :: 0 <= i < |ranges| && ranges[i].first <= port <= ranges[i].last
  }

  lemma ContainsIsCovers(ranges: seq<PortRange>, port: nat)
    ensures Contains(ranges, port) <==> Covers(Spans(ranges), port)
  {
    var spans := Spans(ranges);
    if Contains(ranges, port) {
      var i :| 0 <= i < |ranges| && ranges[i].first <= port <= ranges[i].last;
      assert spans[i].start <= port < spans[i].end;
    }
  }

  /** Sorted, and with at least one port missing between neighbours. */
  ghost predicate Merged(ranges: seq<PortRange>)
  {
    && AllParsed(ranges)
    && forall i, j :: 0 <= i < j < |ranges| ==> ranges[i].last + 1 < ranges[j].first
  }

  /** Back from a list of spans. */
  function Ports(spans: seq<Range>): (r: seq<PortRange>)
    requires AllNonEmpty(spans)
    ensures |r| == |spans| && forall i :: 0 <= i < |r| ==> r[i].Span() == spans[i]
  {
    seq(|spans|, i requires 0 <= i < |spans| => PortRange(spans[i].start, spans[i].end - 1))
  }

  /** Sorts by first port, then by last. */
  function SortPorts(ranges: seq<PortRange>): (sorted: seq<PortRange>)
    requires AllParsed(ranges)
    ensures |sorted| == |ranges| && Spans(sorted) == Sort(Spans(ranges)) && AllParsed(sorted)
  {
    var spans := Sort(Spans(ranges));
    SameElementsCoverTheSame(Spans(ranges), spans);
    assert |multiset(spans)| == |multiset(Spans(ranges))|;
    var sorted := Ports(spans);
    assert Spans(sorted) == spans;
    assert forall i :: 0 <= i < |spans| ==> spans[i] in multiset(Spans(ranges));
    sorted
  }

  /** A 16-bit port plus one, stopping at the largest port. */
  function NextPort(port: nat): (r: nat)
  {
    if port >= PORT_MAX then PORT_MAX else port + 1
  }

  ghost predicate CoverTheSame(left: seq<Range>, right: seq<Range>)
  {
    forall x: nat :: Covers(left, x) <==> Covers(right, x)
  }

  ghost predicate AddsRange(before: seq<Range>, range: Range, after: seq<Range>)
  {
    forall x: nat :: Covers(after, x) <==> Covers(before, x) || range.start <= x < range.end
  }

  lemma CoverNext(before: seq<Range>, spans: seq<Range>, k: nat, after: seq<Range>)
    requires k < |spans| && CoverTheSame(before, spans[..k]) && AddsRange(before, spans[k], after)
    ensures CoverTheSame(after, spans[..k + 1])
  {
    CoversSplit(spans, k);
    forall x: nat ensures Covers(after, x) <==> Covers(spans[..k + 1], x) {
      assert Covers(before, x) <==> Covers(spans[..k], x);
    }
  }

  lemma WidenAdds(before: seq<Range>, range: Range, after: seq<Range>)
    requires |before| > 0 && Canonical(before) && range.start < range.end
    requires var last := before[|before| - 1];
      last.start <= range.start <= last.end &&
      after == before[..|before| - 1] + [Range(last.start, Max(last.end, range.end))]
    ensures Canonical(after) && AddsRange(before, range, after)
  {
    WidenLast(before, range, after);
  }

  lemma WidenPorts(merged: seq<PortRange>, range: PortRange, next: seq<PortRange>)
    requires |merged| > 0 && AllParsed(merged) && Canonical(Spans(merged)) && Parsed(range)
    requires var last := merged[|merged| - 1];
      last.first <= range.first <= last.last + 1 &&
      next == merged[..|merged| - 1] + [PortRange(last.first, Max(last.last, range.last))]
    ensures AllParsed(next) && Canonical(Spans(next)) && AddsRange(Spans(merged), range.Span(), Spans(next))
  {
    var n, last := |merged| - 1, merged[|merged| - 1];
    assert Spans(next) == Spans(merged)[..n] + [Range(last.first, Max(last.last + 1, range.last + 1))];
    WidenAdds(Spans(merged), range.Span(), Spans(next));
  }

  lemma AppendPort(merged: seq<PortRange>, range: PortRange)
    requires AllParsed(merged) && Canonical(Spans(merged)) && Parsed(range)
    requires |merged| > 0 ==> merged[|merged| - 1].last + 1 < range.first
    ensures Canonical(Spans(merged + [range])) && AddsRange(Spans(merged), range.Span(), Spans(merged + [range]))
  {
    AppendSeparate(Spans(merged), range.Span());
    assert Spans(merged + [range]) == Spans(merged) + [range.Span()];
  }

  /** Takes in the next range of the sorted list: it widens the last merged range or starts a new one. */
  method MergeNext(merged: seq<PortRange>, range: PortRange) returns (next: seq<PortRange>)
    requires AllParsed(merged) && Canonical(Spans(merged)) && Parsed(range)
    requires |merged| > 0 ==> merged[|merged| - 1].first <= range.first
    ensures AllParsed(next) && Canonical(Spans(next))
    ensures |next| > 0 && next[|next| - 1].first <= range.first
    ensures AddsRange(Spans(merged), range.Span(), Spans(next))
  {
    var n := |merged|;
    if n > 0 && range.first <= NextPort(merged[n - 1].last) {
      var last := merged[n - 1];
      next := merged[..n - 1] + [PortRange(last.first, Max(last.last, range.last))];
      WidenPorts(merged, range, next);
    } else {
      next := merged + [range];
      AppendPort(merged, range);
    }
  }

  /** The canonical form of the same set of ports. */
  method MergePortRanges(ranges: seq<PortRange>) returns (merged: seq<PortRange>)
    requires AllParsed(ranges)
    ensures Merged(merged)
    ensures forall port: nat :: Contains(merged, port) <==> Contains(ranges, port)
  {
    var sorted := SortPorts(ranges);
    ghost var spans := Spans(sorted);
    SortSorts(Spans(ranges));
    merged := [];
    for k := 0 to |sorted|
      invariant AllParsed(merged) && Canonical(Spans(merged))
      invariant CoverTheSame(Spans(merged), spans[..k])
      invariant |merged| > 0 ==> k > 0 && merged[|merged| - 1].first <= sorted[k - 1].first
    {
      assert k > 0 ==> AtMost(spans[k - 1], spans[k]);
      var next := MergeNext(merged, sorted[k]);
      CoverNext(Spans(merged), spans, k, Spans(next));
      merged := next;
    }
    assert spans[..|spans|] == spans;
    SpansMerged(ranges, merged);
  }

  lemma SpansMerged(ranges: seq<PortRange>, merged: seq<PortRange>)
    requires AllParsed(ranges) && AllParsed(merged) && Canonical(Spans(merged))
    requires forall x: nat :: Covers(Spans(merged), x) <==> Covers(Sort(Spans(ranges)), x)
    ensures Merged(merged)
    ensures forall port: nat :: Contains(merged, port) <==> Contains(ranges, port)
  {
    forall i, j | 0 <= i < j < |merged| ensures merged[i].last + 1 < merged[j].first {
      assert Spans(merged)[i].end < Spans(merged)[j].start;
    }
    SameElementsCoverTheSame(Spans(ranges), Sort(Spans(ranges)));
    forall port: nat ensures Contains(merged, port) <==> Contains(ranges, port) {
      ContainsIsCovers(merged, port);
      ContainsIsCovers(ranges, port);
    }
  }

  ghost predicate Disjoint(a: PortRange, b: PortRange)
  {
    a.last < b.first || b.last < a.first
  }

  /** Two cursors find a port in both sets exactly when there is one. */
  method Overlap(left: seq<PortRange>, right: seq<PortRange>) returns (overlap: bool)
    requires Merged(left) && Merged(right)
    ensures overlap <==> exists port: nat :: Contains(left, port) && Contains(right, port)
  {
    var i, j := 0, 0;
    while i < |left| && j < |right|
      invariant i <= |left| && j <= |right|
      invariant forall a, b :: 0 <= a < |left| && 0 <= b < |right| && (a < i || b < j) ==> Disjoint(left[a], right[b])
      decreases |left| - i + |right| - j
    {
      if left[i].last < right[j].first {
        i := i + 1;
      } else if right[j].last < left[i].first {
        j := j + 1;
      } else {
        var port := Max(left[i].first, right[j].first);
        assert left[i].first <= port <= left[i].last && right[j].first <= port <= right[j].last;
        assert Contains(left, port) && Contains(right, port);
        return true;
      }
    }
    return false;
  }

  /** Bisection over the sorted ranges is plain membership. */
  method PortRangesContain(ranges: seq<PortRange>, port: nat) returns (found: bool)
    requires Merged(ranges)
    ensures found <==> Contains(ranges, port)
  {
    var low, high := 0, |ranges|;
    while low < high
      invariant 0 <= low <= high <= |ranges|
      invariant forall i :: 0 <= i < low ==> ranges[i].last < port
      invariant forall i :: high <= i < |ranges| ==> port < ranges[i].first
      decreases high - low
    {
      var mid := (low + high) / 2;
      if port < ranges[mid].first {
        high := mid;
      } else if port > ranges[mid].last {
        low := mid + 1;
      } else {
        return true;
      }
    }
    return false;
  }

  datatype Protocol = Http | Tls

  datatype SnifferConfig = SnifferConfig(http: seq<PortRange>, tls: seq<PortRange>, quic: seq<PortRange>)

  datatype ConfigError = NothingToSniff | Overlapping

  ghost predicate Separate(left: seq<PortRange>, right: seq<PortRange>)
  {
    forall port: nat :: !(Contains(left, port) && Contains(right, port))
  }

  ghost predicate ValidConfig(config: SnifferConfig)
  {
    Merged(config.http) && Merged(config.tls) && Merged(config.quic) && Separate(config.http, config.tls)
  }

  method MergeOptional(ranges: Option<seq<PortRange>>) returns (merged: seq<PortRange>)
    requires ranges.Some? ==> AllParsed(ranges.value)
    ensures Merged(merged)
    ensures forall port: nat :: Contains(merged, port) <==> ranges.Some? && Contains(ranges.value, port)
  {
    if ranges.Some? {
      merged := MergePortRanges(ranges.value);
    } else {
      merged := [];
    }
  }

  /** Accepts exactly the enabled-with-something configurations whose HTTP and TLS sets share no port. */
  method NormalizeSniffer(enable: bool, http: Option<seq<PortRange>>, tls: Option<seq<PortRange>>, quic: Option<seq<PortRange>>)
    returns (r: Result<SnifferConfig, ConfigError>)
    requires http.Some? ==> AllParsed(http.value)
    requires tls.Some? ==> AllParsed(tls.value)
    requires quic.Some? ==> AllParsed(quic.value)
    ensures r == Err(NothingToSniff) <==> enable && http.None? && tls.None? && quic.None?
    ensures r == Err(Overlapping) <==>
              http.Some? && tls.Some? && !Separate(http.value, tls.value)
    ensures r.Ok? ==> ValidConfig(r.value)
    ensures r.Ok? ==> forall port: nat :: Contains(r.value.http, port) <==> http.Some? && Contains(http.value, port)
    ensures r.Ok? ==> forall port: nat :: Contains(r.value.tls, port) <==> tls.Some? && Contains(tls.value, port)
    ensures r.Ok? ==> forall port: nat :: Contains(r.value.quic, port) <==> quic.Some? && Contains(quic.value, port)
  {
    if enable && http.None? && tls.None? && quic.None? {
      return Err(NothingToSniff);
    }
    var httpPorts := MergeOptional(http);
    var tlsPorts := MergeOptional(tls);
    var quicPorts := MergeOptional(quic);
    var overlap := Overlap(httpPorts, tlsPorts);
    if overlap {
      r := Err(Overlapping);
    } else {
      r := Ok(SnifferConfig(httpPorts, tlsPorts, quicPorts));
    }
  }

  /** HTTP is asked first, yet each protocol is chosen exactly on its own ports. */
  method ConfiguredProtocol(config: SnifferConfig, port: nat) returns (p: Option<Protocol>)
    requires ValidConfig(config)
    ensures p == Some(Http) <==> Contains(config.http, port)
    ensures p == Some(Tls) <==> Contains(config.tls, port)
  {
    var http := PortRangesContain(config.http, port);
    if http {
      return Some(Http);
    }
    var tls := PortRangesContain(config.tls, port);
    p := if tls then Some(Tls) else None;
  }
}
