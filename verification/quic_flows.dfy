/**
  The per-association QUIC sniff scheduler as a state machine. The state is only
  the table of flows: the shared budgets are sums over it. Eviction ties and
  hash-map iteration order are choices carried by the events.
 */
module QuicFlows {
  import opened Base
  import opened QuicWire
  import opened CryptoStream

  const FLOW_MAX: nat := 4
  const PENDING_DATAGRAM_MAX: nat := 8
  const PENDING_BYTES_MAX: nat := 32 * 1024
  const SNIFF_TIMEOUT: nat := 500

  datatype Datagram = Datagram(destination: SocketAddr, payload: Bytes)

  /** A datagram with its routing metadata; `flowId` is carried once per authenticated flow. */
  datatype Prepared = Prepared(datagram: Datagram, domain: Option<string>, flowId: Option<ConnectionKey>)

  datatype Observed<S> = Observed(sniffer: S, outcome: Outcome, authenticated: bool)

  /** A sniffer engine: what a fresh one is, and what feeding it a payload does. */
  datatype Engine<!S> = Engine(blank: S, ingest: (S, Bytes) -> Observed<S>)

  datatype Flow<S> =
    | Pending(sniffer: S, key: Option<ConnectionKey>, datagrams: seq<Prepared>, bufferedBytes: nat, deadline: nat)
    | Matched(domain: string, key: Option<ConnectionKey>, lastUsed: nat)
    | NoDomain(key: Option<ConnectionKey>, lastUsed: nat)

  type Table<S> = map<SocketAddr, Flow<S>>

  function Plain(d: Datagram): Prepared
  {
    Prepared(d, None, None)
  }

  // ------------------------------------------------------------ the budgets

  /** The two shared budgets: how many datagrams are pending, and how many bytes. */
  datatype Measure = Count | Octets

  function LoadOf<S>(flow: Flow<S>, m: Measure): nat
  {
    if !flow.Pending? then 0 else if m == Count then |flow.datagrams| else flow.bufferedBytes
  }

  ghost function Pick(keys: set<SocketAddr>): (a: SocketAddr)
    requires keys != {}
    ensures a in keys
  {
    var a :| a in keys; a
  }

  ghost function LoadOver<S>(t: Table<S>, keys: set<SocketAddr>, m: Measure): (load: nat)
    requires keys <= t.Keys
  {
    if keys == {} then 0
    else LoadOf(t[Pick(keys)], m) + LoadOver(t, keys - {Pick(keys)}, m)
  }

  /** What all pending flows of the table hold together. */
  ghost function TableLoad<S>(t: Table<S>, m: Measure): (load: nat)
  {
    LoadOver(t, t.Keys, m)
  }

  lemma {:induction false} LoadOverWithout<S>(t: Table<S>, keys: set<SocketAddr>, a: SocketAddr, m: Measure)
    requires keys <= t.Keys && a in keys
    ensures LoadOver(t, keys, m) == LoadOf(t[a], m) + LoadOver(t, keys - {a}, m)
    decreases keys
  {
    var b := Pick(keys);
    if a != b {
      var rest, other := keys - {b}, keys - {a};
      LoadOverWithout(t, rest, a, m);
      LoadOverWithout(t, other, b, m);
      assert rest - {a} == other - {b};
      assert LoadOver(t, keys, m) == LoadOf(t[b], m) + LoadOver(t, rest, m);
    }
  }

  lemma {:induction false} LoadOverSame<S>(t: Table<S>, t': Table<S>, keys: set<SocketAddr>, m: Measure)
    requires keys <= t.Keys && keys <= t'.Keys
    requires forall a :: a in keys ==> t[a] == t'[a]
    ensures LoadOver(t, keys, m) == LoadOver(t', keys, m)
    decreases keys
  {
    if keys != {} {
      LoadOverSame(t, t', keys - {Pick(keys)}, m);
    }
  }

  /** The table's load is its load without `a` plus what `a` holds. */
  lemma LoadSplit<S>(t: Table<S>, rest: Table<S>, a: SocketAddr, m: Measure)
    requires a in t && rest.Keys == t.Keys - {a}
    requires forall b :: b in rest ==> t[b] == rest[b]
    ensures TableLoad(t, m) == LoadOf(t[a], m) + TableLoad(rest, m)
  {
    LoadOverWithout(t, t.Keys, a, m);
    LoadOverSame(t, rest, rest.Keys, m);
  }

  lemma LoadInserted<S>(kept: Table<S>, a: SocketAddr, flow: Flow<S>, m: Measure)
    requires a !in kept
    ensures TableLoad(kept[a := flow], m) == LoadOf(flow, m) + TableLoad(kept, m)
  {
    LoadSplit(kept[a := flow], kept, a, m);
  }

  lemma EvictionKeepsLoad<S>(others: Table<S>, victim: SocketAddr, m: Measure)
    requires victim in others && !others[victim].Pending?
    ensures TableLoad(others - {victim}, m) == TableLoad(others, m)
  {
    LoadSplit(others, others - {victim}, victim, m);
  }

  lemma EmptyLoad<S>(t: Table<S>, m: Measure)
    requires t == map[]
    ensures TableLoad(t, m) == 0
  {
    assert t.Keys == {};
  }

  /** `can_buffer`. */
  ghost predicate CanBuffer<S>(t: Table<S>, bytes: nat)
  {
    TableLoad(t, Count) < PENDING_DATAGRAM_MAX && TableLoad(t, Octets) + bytes <= PENDING_BYTES_MAX
  }

  ghost predicate WithinBudget<S>(t: Table<S>)
  {
    TableLoad(t, Count) <= PENDING_DATAGRAM_MAX && TableLoad(t, Octets) <= PENDING_BYTES_MAX
  }

  // ---------------------------------------------------- one flow's decision

  /** The flow kept for the destination, if any, and the datagrams released now. */
  datatype Decision<S> = Decision(flow: Option<Flow<S>>, released: seq<Prepared>)

  /** `starts_new_quic_connection`. */
  predicate Foreign(current: Option<ConnectionKey>, seen: Option<ConnectionKey>)
  {
    seen.Some? && current != seen
  }

  function Held<S>(flow: Option<Flow<S>>): (datagrams: seq<Prepared>)
  {
    if flow.Some? && flow.value.Pending? then flow.value.datagrams else []
  }

  function WithDomain(datagrams: seq<Prepared>, domain: string): (r: seq<Prepared>)
    ensures |r| == |datagrams|
    ensures forall i :: 0 <= i < |r| ==> r[i] == datagrams[i].(domain := Some(domain))
  {
    seq(|datagrams|, i requires 0 <= i < |datagrams| => datagrams[i].(domain := Some(domain)))
  }

  /** `commit_started_flow`: only an authenticated Initial may claim an identity. */
  function Start<S>(o: Observed<S>, seen: Option<ConnectionKey>, d: Datagram, now: nat, fits: bool): (r: Decision<S>)
  {
    var key := if o.authenticated then seen else None;
    match o.outcome
    case Matched(domain) => Decision(Some(Flow.Matched(domain, key, now)), [Prepared(d, Some(domain), key)])
    case _ =>
      if o.outcome == NeedMoreData && fits then
        Decision(Some(Pending(o.sniffer, key, [Prepared(d, None, key)], |d.payload|, now + SNIFF_TIMEOUT)), [])
      else
        Decision(Some(NoDomain(key, now)), [Prepared(d, None, key)])
  }

  /** `apply_pending_outcome` and `finish_pending`. */
  function Advance<S>(p: Flow<S>, o: Observed<S>, d: Datagram, now: nat, fits: bool): (r: Decision<S>)
    requires p.Pending?
  {
    var all := p.datagrams + [Plain(d)];
    match o.outcome
    case Matched(domain) => Decision(Some(Flow.Matched(domain, p.key, now)), WithDomain(all, domain))
    case _ =>
      if o.outcome == NeedMoreData && fits then
        Decision(Some(Pending(o.sniffer, p.key, all, p.bufferedBytes + |d.payload|, p.deadline)), [])
      else
        Decision(Some(NoDomain(p.key, now)), all)
  }

  /** The first authenticated identity of a flow that began without one goes on its first datagram. */
  function Adopt<S>(p: Flow<S>, seen: Option<ConnectionKey>): (r: Flow<S>)
    requires p.Pending?
    ensures r.Pending? && r.sniffer == p.sniffer && |r.datagrams| == |p.datagrams|
    ensures r.bufferedBytes == p.bufferedBytes && r.deadline == p.deadline
  {
    if p.key.Some? then p
    else Pending(p.sniffer, seen, MarkFirst(p.datagrams, seen), p.bufferedBytes, p.deadline)
  }

  function MarkFirst(datagrams: seq<Prepared>, id: Option<ConnectionKey>): (r: seq<Prepared>)
    ensures |r| == |datagrams|
    ensures |r| > 0 ==> r[0] == datagrams[0].(flowId := id)
    ensures forall i :: 0 < i < |r| ==> r[i] == datagrams[i]
  {
    if |datagrams| == 0 then [] else [datagrams[0].(flowId := id)] + datagrams[1..]
  }

  /** The decision once the payload has been looked at for a connection and for an unknown version. */
  function DecideSeen<S>(
    engine: Engine<S>, current: Option<Flow<S>>, seen: Option<ConnectionKey>, unsupported: bool, d: Datagram, now: nat,
    room: bool, fits: bool, fitsAfterRelease: bool)
    : (r: Decision<S>)
  {
    if seen.None? && unsupported then
      Decision(if current.Some? || room then Some(NoDomain(None, now)) else None, Held(current) + [Plain(d)])
    else
      match current
      case None =>
        if room then Start(engine.ingest(engine.blank, d.payload), seen, d, now, fits)
        else Decision(None, [Plain(d)])
      case Some(flow) =>
        if flow.Pending? then DecidePending(engine, flow, seen, d, now, fits, fitsAfterRelease)
        else DecideCompleted(engine, flow, seen, d, now, fits)
  }

  /**
    `ingest_datagram` for one destination. `fits` counts all pending data,
    `fitsAfterRelease` all but this destination's own.
   */
  function Decide<S>(
    engine: Engine<S>, current: Option<Flow<S>>, d: Datagram, now: nat,
    room: bool, fits: bool, fitsAfterRelease: bool)
    : (r: Decision<S>)
  {
    DecideSeen(engine, current, ObservedKey(d.payload), HasUnsupportedVersion(d.payload), d, now, room, fits, fitsAfterRelease)
  }

  /** A completed flow gives way only to an authenticated Initial of another connection. */
  function DecideCompleted<S>(
    engine: Engine<S>, c: Flow<S>, seen: Option<ConnectionKey>, d: Datagram, now: nat, fits: bool)
    : (r: Decision<S>)
    requires !c.Pending?
  {
    var candidate := engine.ingest(engine.blank, d.payload);
    if Foreign(c.key, seen) && candidate.authenticated then Start(candidate, seen, d, now, fits)
    else if c.Matched? then
      Decision(Some(Flow.Matched(c.domain, c.key, now)), [Prepared(d, Some(c.domain), None)])
    else Decision(Some(NoDomain(c.key, now)), [Plain(d)])
  }

  function DecidePending<S>(
    engine: Engine<S>, p: Flow<S>, seen: Option<ConnectionKey>, d: Datagram, now: nat,
    fits: bool, fitsAfterRelease: bool)
    : (r: Decision<S>)
    requires p.Pending?
  {
    var own := engine.ingest(p.sniffer, d.payload);
    if !Foreign(p.key, seen) then Advance(p, own, d, now, fits)
    else if own.authenticated then Advance(Adopt(p, seen), own, d, now, fits)
    else
      var candidate := engine.ingest(engine.blank, d.payload);
      if candidate.authenticated then
        var started := Start(candidate, seen, d, now, fitsAfterRelease);
        Decision(started.flow, p.datagrams + started.released)
      else
        Decision(Some(Pending(own.sniffer, p.key, p.datagrams, p.bufferedBytes, p.deadline)), [Plain(d)])
  }

  // -------------------------------------------------------- the whole table

  datatype Event =
    | Arrival(datagram: Datagram, now: nat, victim: Option<SocketAddr>)
    | Expiry(now: nat, order: seq<SocketAddr>)

  predicate Live<S>(flow: Flow<S>, now: nat, idle: nat)
  {
    flow.Pending? || (if now <= flow.lastUsed then 0 else now - flow.lastUsed) < idle
  }

  function Current<S>(t: Table<S>, a: SocketAddr, now: nat, idle: nat): (r: Option<Flow<S>>)
  {
    if a in t && Live(t[a], now, idle) then Some(t[a]) else None
  }

  /** `make_room_for_flow` must evict: the destination is new and the table is full. */
  predicate NeedsRoom<S>(t: Table<S>, a: SocketAddr, now: nat, idle: nat)
  {
    Current(t, a, now, idle).None? && |t - {a}| >= FLOW_MAX
  }

  /** The least recently used completed flow; ties are free. */
  ghost predicate Oldest<S>(t: Table<S>, a: SocketAddr)
  {
    && a in t && !t[a].Pending?
    && forall b :: b in t && !t[b].Pending? ==> t[a].lastUsed <= t[b].lastUsed
  }

  ghost predicate Expired<S>(t: Table<S>, a: SocketAddr, now: nat)
  {
    a in t && t[a].Pending? && t[a].deadline <= now
  }

  /** The choices of an event are ones the code can make. */
  ghost predicate Allowed<S>(t: Table<S>, e: Event, idle: nat)
  {
    match e
    case Arrival(d, now, victim) =>
      var others := t - {d.destination};
      if NeedsRoom(t, d.destination, now, idle) then
        if victim.Some? then Oldest(others, victim.value)
        else forall b :: b in others ==> others[b].Pending?
      else victim.None?
    case Expiry(now, order) =>
      Distinct(order) && forall a :: a in order <==> Expired(t, a, now)
  }

  datatype Moved<S> = Moved(table: Table<S>, released: seq<Prepared>)

  /** The decision for an arrival, with the room and the budgets the table offers. */
  ghost function DecisionFor<S>(engine: Engine<S>, idle: nat, t: Table<S>, d: Datagram, now: nat, victim: Option<SocketAddr>): (r: Decision<S>)
  {
    Decide(engine, Current(t, d.destination, now, idle), d, now,
           !NeedsRoom(t, d.destination, now, idle) || victim.Some?,
           CanBuffer(t, |d.payload|), CanBuffer(t - {d.destination}, |d.payload|))
  }

  /** The table once the victim is gone and the destination has its new flow. */
  function TableAfter<S>(t: Table<S>, a: SocketAddr, victim: Option<SocketAddr>, flow: Option<Flow<S>>): (r: Table<S>)
  {
    var others := t - {a};
    var kept := if victim.Some? then others - {victim.value} else others;
    if flow.Some? then kept[a := flow.value] else kept
  }

  ghost function Arrive<S>(engine: Engine<S>, idle: nat, t: Table<S>, d: Datagram, now: nat, victim: Option<SocketAddr>): (r: Moved<S>)
  {
    var decision := DecisionFor(engine, idle, t, d, now, victim);
    Moved(TableAfter(t, d.destination, victim, decision.flow), decision.released)
  }

  ghost function ExpireAll<S>(t: Table<S>, order: seq<SocketAddr>, now: nat): (r: Moved<S>)
  {
    if |order| == 0 then Moved(t, [])
    else
      var n := |order| - 1;
      var before := ExpireAll(t, order[..n], now);
      var a := order[n];
      if a in before.table && before.table[a].Pending? then
        var p := before.table[a];
        Moved(before.table[a := NoDomain(p.key, now)], before.released + p.datagrams)
      else before
  }

  ghost function Step<S>(engine: Engine<S>, idle: nat, t: Table<S>, e: Event): (r: Moved<S>)
  {
    match e
    case Arrival(d, now, victim) => Arrive(engine, idle, t, d, now, victim)
    case Expiry(now, order) => ExpireAll(t, order, now)
  }

  // ------------------------------------------------------------- invariants

  ghost function Bytes(datagrams: seq<Prepared>): (n: nat)
  {
    if |datagrams| == 0 then 0
    else Bytes(datagrams[..|datagrams| - 1]) + |datagrams[|datagrams| - 1].datagram.payload|
  }

  /** A pending flow: its own datagrams only, its identity on the first of them and nowhere else. */
  ghost predicate PendingOk<S>(a: SocketAddr, p: Flow<S>)
    requires p.Pending?
  {
    && |p.datagrams| > 0
    && p.datagrams[0].flowId == p.key
    && p.bufferedBytes == Bytes(p.datagrams)
    && (forall i :: 0 < i < |p.datagrams| ==> p.datagrams[i].flowId == None)
    && (forall i :: 0 <= i < |p.datagrams| ==>
          p.datagrams[i].datagram.destination == a && p.datagrams[i].domain == None)
  }

  ghost predicate TableOk<S>(t: Table<S>)
  {
    && |t| <= FLOW_MAX
    && WithinBudget(t)
    && forall a :: a in t && t[a].Pending? ==> PendingOk(a, t[a])
  }

  lemma BytesAppend(datagrams: seq<Prepared>, d: Prepared)
    ensures Bytes(datagrams + [d]) == Bytes(datagrams) + |d.datagram.payload|
  {
    assert (datagrams + [d])[..|datagrams|] == datagrams;
  }

  lemma {:induction false} BytesSamePayloads(left: seq<Prepared>, right: seq<Prepared>)
    requires |left| == |right|
    requires forall i :: 0 <= i < |left| ==> left[i].datagram == right[i].datagram
    ensures Bytes(left) == Bytes(right)
  {
    if |left| > 0 {
      BytesSamePayloads(left[..|left| - 1], right[..|right| - 1]);
    }
  }

  lemma MarkedBytes(datagrams: seq<Prepared>, id: Option<ConnectionKey>)
    ensures Bytes(MarkFirst(datagrams, id)) == Bytes(datagrams)
  {
    BytesSamePayloads(MarkFirst(datagrams, id), datagrams);
  }

  lemma AdoptOk<S>(a: SocketAddr, p: Flow<S>, seen: Option<ConnectionKey>)
    requires p.Pending? && PendingOk(a, p)
    ensures PendingOk(a, Adopt(p, seen)) && Adopt(p, seen).deadline == p.deadline
    ensures Adopt(p, seen).bufferedBytes == p.bufferedBytes && |Adopt(p, seen).datagrams| == |p.datagrams|
    ensures forall i :: 0 <= i < |p.datagrams| ==> Adopt(p, seen).datagrams[i].datagram == p.datagrams[i].datagram
  {
    MarkedBytes(p.datagrams, seen);
  }

  ghost predicate FlowOk<S>(a: SocketAddr, flow: Option<Flow<S>>)
  {
    flow.Some? && flow.value.Pending? ==> PendingOk(a, flow.value)
  }

  lemma StartOk<S>(o: Observed<S>, seen: Option<ConnectionKey>, d: Datagram, now: nat, fits: bool)
    ensures FlowOk(d.destination, Start(o, seen, d, now, fits).flow)
  {
    var key := if o.authenticated then seen else None;
    BytesAppend([], Prepared(d, None, key));
    assert [] + [Prepared(d, None, key)] == [Prepared(d, None, key)];
  }

  lemma AdvanceOk<S>(p: Flow<S>, o: Observed<S>, d: Datagram, now: nat, fits: bool)
    requires p.Pending? && PendingOk(d.destination, p)
    ensures FlowOk(d.destination, Advance(p, o, d, now, fits).flow)
  {
    BytesAppend(p.datagrams, Plain(d));
  }

  lemma DecideOk<S>(
    engine: Engine<S>, current: Option<Flow<S>>, seen: Option<ConnectionKey>, unsupported: bool, d: Datagram, now: nat,
    room: bool, fits: bool, fitsAfterRelease: bool)
    requires FlowOk(d.destination, current)
    ensures FlowOk(d.destination, DecideSeen(engine, current, seen, unsupported, d, now, room, fits, fitsAfterRelease).flow)
  {
    if current.Some? && current.value.Pending? {
      PendingDecideOk(engine, current.value, seen, d, now, fits, fitsAfterRelease);
    } else {
      StartOk(engine.ingest(engine.blank, d.payload), seen, d, now, fits);
    }
  }

  lemma PendingDecideOk<S>(
    engine: Engine<S>, p: Flow<S>, seen: Option<ConnectionKey>, d: Datagram, now: nat,
    fits: bool, fitsAfterRelease: bool)
    requires p.Pending? && PendingOk(d.destination, p)
    ensures FlowOk(d.destination, DecidePending(engine, p, seen, d, now, fits, fitsAfterRelease).flow)
  {
    var own := engine.ingest(p.sniffer, d.payload);
    if !Foreign(p.key, seen) {
      AdvanceOk(p, own, d, now, fits);
    } else if own.authenticated {
      AdoptOk(d.destination, p, seen);
      AdvanceOk(Adopt(p, seen), own, d, now, fits);
    } else {
      StartOk(engine.ingest(engine.blank, d.payload), seen, d, now, fitsAfterRelease);
    }
  }

  // ---------------------------------------------- every step keeps the table

  function OptLoad<S>(flow: Option<Flow<S>>, m: Measure): nat
  {
    if flow.Some? then LoadOf(flow.value, m) else 0
  }

  /** A decision adds at most this one datagram, and only within the budget it was shown. */
  ghost predicate Grows<S>(before: Option<Flow<S>>, after: Option<Flow<S>>, bytes: nat, fits: bool, fitsAfterRelease: bool)
  {
    || (OptLoad(after, Count) == 0 && OptLoad(after, Octets) == 0)
    || (OptLoad(after, Count) == OptLoad(before, Count) && OptLoad(after, Octets) == OptLoad(before, Octets))
    || (fits && OptLoad(after, Count) == OptLoad(before, Count) + 1
             && OptLoad(after, Octets) == OptLoad(before, Octets) + bytes)
    || (fitsAfterRelease && OptLoad(after, Count) == 1 && OptLoad(after, Octets) == bytes)
  }

  /** Every datagram is released or pending, and the pending part grows only as shown. */
  ghost predicate Accounts<S>(before: Option<Flow<S>>, r: Decision<S>, bytes: nat, fits: bool, fitsAfterRelease: bool)
  {
    && |r.released| + OptLoad(r.flow, Count) == OptLoad(before, Count) + 1
    && Grows(before, r.flow, bytes, fits, fitsAfterRelease)
  }

  lemma StartAccounts<S>(before: Option<Flow<S>>, o: Observed<S>, seen: Option<ConnectionKey>, d: Datagram, now: nat, fits: bool)
    requires OptLoad(before, Count) == 0 && OptLoad(before, Octets) == 0
    ensures Accounts(before, Start(o, seen, d, now, fits), |d.payload|, fits, fits)
  {
  }

  lemma AdvanceAccounts<S>(p: Flow<S>, o: Observed<S>, d: Datagram, now: nat, fits: bool, fitsAfterRelease: bool)
    requires p.Pending?
    ensures Accounts(Some(p), Advance(p, o, d, now, fits), |d.payload|, fits, fitsAfterRelease)
  {
  }

  lemma PendingAccounts<S>(
    engine: Engine<S>, p: Flow<S>, seen: Option<ConnectionKey>, d: Datagram, now: nat,
    fits: bool, fitsAfterRelease: bool)
    requires p.Pending?
    ensures Accounts(Some(p), DecidePending(engine, p, seen, d, now, fits, fitsAfterRelease),
                     |d.payload|, fits, fitsAfterRelease)
  {
    var own := engine.ingest(p.sniffer, d.payload);
    AdvanceAccounts(p, own, d, now, fits, fitsAfterRelease);
    AdvanceAccounts(Adopt(p, seen), own, d, now, fits, fitsAfterRelease);
    StartAccounts(None, engine.ingest(engine.blank, d.payload), seen, d, now, fitsAfterRelease);
  }

  lemma DecideAccounts<S>(
    engine: Engine<S>, current: Option<Flow<S>>, seen: Option<ConnectionKey>, unsupported: bool, d: Datagram, now: nat,
    room: bool, fits: bool, fitsAfterRelease: bool)
    requires OptLoad(current, Count) == 0 && OptLoad(current, Octets) == 0 ==> (fits ==> fitsAfterRelease)
    ensures Accounts(current, DecideSeen(engine, current, seen, unsupported, d, now, room, fits, fitsAfterRelease),
                     |d.payload|, fits, fitsAfterRelease)
  {
    if current.Some? && current.value.Pending? {
      PendingAccounts(engine, current.value, seen, d, now, fits, fitsAfterRelease);
    } else {
      StartAccounts(current, engine.ingest(engine.blank, d.payload), seen, d, now, fits);
    }
  }

  lemma FullTableForwards<S>(
    engine: Engine<S>, d: Datagram, now: nat, fits: bool, fitsAfterRelease: bool)
    ensures Decide(engine, None, d, now, false, fits, fitsAfterRelease) == Decision(None, [Plain(d)])
  {
    assert [] + [Plain(d)] == [Plain(d)];
  }

  lemma CurrentLoad<S>(t: Table<S>, a: SocketAddr, now: nat, idle: nat, m: Measure)
    ensures TableLoad(t, m) == OptLoad(Current(t, a, now, idle), m) + TableLoad(t - {a}, m)
  {
    if a in t {
      LoadSplit(t, t - {a}, a, m);
    } else {
      assert t - {a} == t;
    }
  }

  /** A victim is a completed flow of another destination. */
  ghost predicate CompletedOther<S>(t: Table<S>, a: SocketAddr, victim: Option<SocketAddr>)
  {
    victim.Some? ==> victim.value in t && victim.value != a && !t[victim.value].Pending?
  }

  lemma OptInserted<S>(kept: Table<S>, a: SocketAddr, flow: Option<Flow<S>>, m: Measure)
    requires a !in kept
    ensures TableLoad(if flow.Some? then kept[a := flow.value] else kept, m) == OptLoad(flow, m) + TableLoad(kept, m)
  {
    if flow.Some? { LoadInserted(kept, a, flow.value, m); }
  }

  lemma LoadAfter<S>(t: Table<S>, a: SocketAddr, victim: Option<SocketAddr>, flow: Option<Flow<S>>, m: Measure)
    requires CompletedOther(t, a, victim)
    ensures TableLoad(TableAfter(t, a, victim, flow), m) == OptLoad(flow, m) + TableLoad(t - {a}, m)
  {
    var others := t - {a};
    if victim.Some? {
      EvictionKeepsLoad(others, victim.value, m);
      OptInserted(others - {victim.value}, a, flow, m);
    } else {
      OptInserted(others, a, flow, m);
    }
  }

  lemma VictimCompleted<S>(t: Table<S>, d: Datagram, now: nat, victim: Option<SocketAddr>, idle: nat)
    requires Allowed(t, Arrival(d, now, victim), idle)
    ensures CompletedOther(t, d.destination, victim)
  {
  }

  /** Growing within the shown budget keeps the budget. */
  lemma ArriveLoad<S>(engine: Engine<S>, idle: nat, t: Table<S>, d: Datagram, now: nat, victim: Option<SocketAddr>)
    requires WithinBudget(t) && CompletedOther(t, d.destination, victim)
    ensures WithinBudget(Arrive(engine, idle, t, d, now, victim).table)
  {
    var a := d.destination;
    var flow := DecisionFor(engine, idle, t, d, now, victim).flow;
    CurrentLoad(t, a, now, idle, Count);
    CurrentLoad(t, a, now, idle, Octets);
    LoadAfter(t, a, victim, flow, Count);
    LoadAfter(t, a, victim, flow, Octets);
    DecideAccounts(engine, Current(t, a, now, idle), ObservedKey(d.payload), HasUnsupportedVersion(d.payload),
                   d, now, !NeedsRoom(t, a, now, idle) || victim.Some?,
                   CanBuffer(t, |d.payload|), CanBuffer(t - {a}, |d.payload|));
  }

  lemma SizeAfter<S>(t: Table<S>, a: SocketAddr, victim: Option<SocketAddr>, flow: Option<Flow<S>>)
    requires CompletedOther(t, a, victim)
    ensures |TableAfter(t, a, victim, flow)|
         == |t - {a}| - (if victim.Some? then 1 else 0) + (if flow.Some? then 1 else 0)
  {
    var others := t - {a};
    if victim.Some? {
      assert (others - {victim.value}).Keys == others.Keys - {victim.value};
    }
  }

  lemma ArriveSize<S>(engine: Engine<S>, idle: nat, t: Table<S>, d: Datagram, now: nat, victim: Option<SocketAddr>)
    requires |t| <= FLOW_MAX && Allowed(t, Arrival(d, now, victim), idle)
    ensures |Arrive(engine, idle, t, d, now, victim).table| <= FLOW_MAX
  {
    var a := d.destination;
    var flow := DecisionFor(engine, idle, t, d, now, victim).flow;
    VictimCompleted(t, d, now, victim, idle);
    SizeAfter(t, a, victim, flow);
    RestSize(t, a);
    if NeedsRoom(t, a, now, idle) && victim.None? {
      FullTableForwards(engine, d, now, CanBuffer(t, |d.payload|), CanBuffer(t - {a}, |d.payload|));
    }
  }

  lemma RestSize<S>(t: Table<S>, a: SocketAddr)
    ensures |t - {a}| == |t| - if a in t then 1 else 0
  {
    assert (t - {a}).Keys == t.Keys - {a};
  }

  /** An arrival keeps every bound of the table and the shape of every pending flow. */
  lemma ArriveKeeps<S>(engine: Engine<S>, idle: nat, t: Table<S>, d: Datagram, now: nat, victim: Option<SocketAddr>)
    requires TableOk(t) && Allowed(t, Arrival(d, now, victim), idle)
    ensures TableOk(Arrive(engine, idle, t, d, now, victim).table)
  {
    var a := d.destination;
    var others := t - {a};
    var room := !NeedsRoom(t, a, now, idle) || victim.Some?;
    VictimCompleted(t, d, now, victim, idle);
    ArriveLoad(engine, idle, t, d, now, victim);
    ArriveSize(engine, idle, t, d, now, victim);
    DecideOk(engine, Current(t, a, now, idle), ObservedKey(d.payload), HasUnsupportedVersion(d.payload), d, now, room,
             CanBuffer(t, |d.payload|), CanBuffer(others, |d.payload|));
  }

  /** Expiry completes exactly the listed flows and changes nothing else. */
  lemma {:induction false} ExpireTable<S>(t: Table<S>, order: seq<SocketAddr>, now: nat)
    requires forall i :: 0 <= i < |order| ==> order[i] in t
    ensures var r := ExpireAll(t, order, now).table;
      && r.Keys == t.Keys
      && (forall a :: a in t && a !in order ==> r[a] == t[a])
      && (forall a :: a in t && a in order && t[a].Pending? ==> r[a] == NoDomain(t[a].key, now))
      && (forall a :: a in t && a in order && !t[a].Pending? ==> r[a] == t[a])
  {
    if |order| > 0 {
      var n := |order| - 1;
      var front, last := order[..n], order[n];
      ExpireTable(t, front, now);
      assert order == front + [last];
    }
  }

  lemma {:induction false} ExpireLoad<S>(t: Table<S>, order: seq<SocketAddr>, now: nat)
    ensures var r := ExpireAll(t, order, now);
      && TableLoad(r.table, Count) + |r.released| == TableLoad(t, Count)
      && TableLoad(r.table, Octets) <= TableLoad(t, Octets)
  {
    if |order| > 0 {
      var n := |order| - 1;
      var before := ExpireAll(t, order[..n], now).table;
      ExpireLoad(t, order[..n], now);
      var a := order[n];
      if a in before && before[a].Pending? {
        CompletedLoad(before, a, NoDomain(before[a].key, now), Count);
        CompletedLoad(before, a, NoDomain(before[a].key, now), Octets);
      }
    }
  }

  lemma CompletedLoad<S>(t: Table<S>, a: SocketAddr, flow: Flow<S>, m: Measure)
    requires a in t && !flow.Pending?
    ensures TableLoad(t, m) == LoadOf(t[a], m) + TableLoad(t[a := flow], m)
  {
    var rest := t - {a};
    LoadSplit(t, rest, a, m);
    LoadSplit(t[a := flow], rest, a, m);
  }

  lemma ExpireKeeps<S>(t: Table<S>, order: seq<SocketAddr>, now: nat)
    requires TableOk(t) && forall i :: 0 <= i < |order| ==> order[i] in t
    ensures TableOk(ExpireAll(t, order, now).table)
  {
    ExpireTable(t, order, now);
    ExpireLoad(t, order, now);
    var r := ExpireAll(t, order, now).table;
    assert |r| == |r.Keys| == |t|;
  }

  lemma StepKeeps<S>(engine: Engine<S>, idle: nat, t: Table<S>, e: Event)
    requires TableOk(t) && Allowed(t, e, idle)
    ensures TableOk(Step(engine, idle, t, e).table)
  {
    match e
    case Arrival(d, now, victim) => ArriveKeeps(engine, idle, t, d, now, victim);
    case Expiry(now, order) =>
      assert forall i :: 0 <= i < |order| ==> order[i] in order;
      ExpireKeeps(t, order, now);
  }

  /** Each arrival is either released or counted as pending, never both and never neither. */
  lemma ArriveCount<S>(engine: Engine<S>, idle: nat, t: Table<S>, d: Datagram, now: nat, victim: Option<SocketAddr>)
    requires CompletedOther(t, d.destination, victim)
    ensures var r := Arrive(engine, idle, t, d, now, victim);
      |r.released| + TableLoad(r.table, Count) == TableLoad(t, Count) + 1
  {
    var a := d.destination;
    CurrentLoad(t, a, now, idle, Count);
    CurrentLoad(t, a, now, idle, Octets);
    LoadAfter(t, a, victim, DecisionFor(engine, idle, t, d, now, victim).flow, Count);
    DecideAccounts(engine, Current(t, a, now, idle), ObservedKey(d.payload), HasUnsupportedVersion(d.payload),
                   d, now, !NeedsRoom(t, a, now, idle) || victim.Some?,
                   CanBuffer(t, |d.payload|), CanBuffer(t - {a}, |d.payload|));
  }

  // ------------------------------------------------------------ bytes balance

  /** The byte counter of a pending flow is the size of what it holds. */
  ghost predicate Exact<S>(flow: Flow<S>)
  {
    flow.Pending? ==> flow.bufferedBytes == Bytes(flow.datagrams)
  }

  ghost predicate ExactTable<S>(t: Table<S>)
  {
    forall a :: a in t ==> Exact(t[a])
  }

  lemma BytesSingle(d: Prepared)
    ensures Bytes([d]) == |d.datagram.payload|
  {
    BytesAppend([], d);
    assert [] + [d] == [d];
  }

  lemma {:induction false} BytesConcat(left: seq<Prepared>, right: seq<Prepared>)
    ensures Bytes(left + right) == Bytes(left) + Bytes(right)
  {
    if |right| == 0 {
      assert left + right == left;
    } else {
      var n := |right| - 1;
      assert (left + right)[..|left + right| - 1] == left + right[..n];
      BytesConcat(left, right[..n]);
    }
  }

  /** What was held and what arrived is what is released and what is held now. */
  ghost predicate Balances<S>(held: nat, r: Decision<S>, arrived: nat)
  {
    Bytes(r.released) + OptLoad(r.flow, Octets) == held + arrived
  }

  lemma StartBytes<S>(o: Observed<S>, seen: Option<ConnectionKey>, d: Datagram, now: nat, fits: bool)
    ensures Balances(0, Start(o, seen, d, now, fits), |d.payload|)
  {
    var r := Start(o, seen, d, now, fits);
    if r.released != [] {
      BytesSingle(r.released[0]);
    }
  }

  lemma AdvanceBytes<S>(p: Flow<S>, o: Observed<S>, d: Datagram, now: nat, fits: bool)
    requires p.Pending? && Exact(p)
    ensures Balances(p.bufferedBytes, Advance(p, o, d, now, fits), |d.payload|)
  {
    var all := p.datagrams + [Plain(d)];
    BytesAppend(p.datagrams, Plain(d));
    if o.outcome.Matched? {
      BytesSamePayloads(WithDomain(all, o.outcome.domain), all);
    }
  }

  lemma AdoptBytes<S>(p: Flow<S>, seen: Option<ConnectionKey>)
    requires p.Pending? && Exact(p)
    ensures Exact(Adopt(p, seen))
  {
    MarkedBytes(p.datagrams, seen);
  }

  lemma PendingBytes<S>(
    engine: Engine<S>, p: Flow<S>, seen: Option<ConnectionKey>, d: Datagram, now: nat,
    fits: bool, fitsAfterRelease: bool)
    requires p.Pending? && Exact(p)
    ensures Balances(p.bufferedBytes, DecidePending(engine, p, seen, d, now, fits, fitsAfterRelease), |d.payload|)
  {
    var own := engine.ingest(p.sniffer, d.payload);
    if !Foreign(p.key, seen) {
      AdvanceBytes(p, own, d, now, fits);
    } else if own.authenticated {
      AdoptBytes(p, seen);
      AdvanceBytes(Adopt(p, seen), own, d, now, fits);
    } else {
      ForeignBytes(p, own.sniffer, engine.ingest(engine.blank, d.payload), seen, d, now, fitsAfterRelease);
    }
  }

  lemma ForeignBytes<S>(
    p: Flow<S>, sniffer: S, candidate: Observed<S>, seen: Option<ConnectionKey>, d: Datagram, now: nat, fits: bool)
    requires p.Pending? && Exact(p)
    ensures var started := Start(candidate, seen, d, now, fits);
      && Balances(p.bufferedBytes, Decision(started.flow, p.datagrams + started.released), |d.payload|)
      && Balances(p.bufferedBytes,
                  Decision(Some(Pending(sniffer, p.key, p.datagrams, p.bufferedBytes, p.deadline)), [Plain(d)]), |d.payload|)
  {
    StartBytes(candidate, seen, d, now, fits);
    BytesConcat(p.datagrams, Start(candidate, seen, d, now, fits).released);
    BytesSingle(Plain(d));
  }

  lemma CompletedBytes<S>(engine: Engine<S>, c: Flow<S>, seen: Option<ConnectionKey>, d: Datagram, now: nat, fits: bool)
    requires !c.Pending?
    ensures Balances(0, DecideCompleted(engine, c, seen, d, now, fits), |d.payload|)
  {
    StartBytes(engine.ingest(engine.blank, d.payload), seen, d, now, fits);
    BytesSingle(Plain(d));
    if c.Matched? {
      BytesSingle(Prepared(d, Some(c.domain), None));
    }
  }

  /** In every branch, bytes held plus bytes arrived are bytes released plus bytes held now. */
  lemma DecideBytes<S>(
    engine: Engine<S>, current: Option<Flow<S>>, seen: Option<ConnectionKey>, unsupported: bool, d: Datagram, now: nat,
    room: bool, fits: bool, fitsAfterRelease: bool)
    requires current.Some? ==> Exact(current.value)
    ensures Balances(OptLoad(current, Octets),
                     DecideSeen(engine, current, seen, unsupported, d, now, room, fits, fitsAfterRelease), |d.payload|)
  {
    BytesSingle(Plain(d));
    if seen.None? && unsupported {
      BytesConcat(Held(current), [Plain(d)]);
    } else if current.None? {
      StartBytes(engine.ingest(engine.blank, d.payload), seen, d, now, fits);
    } else if current.value.Pending? {
      PendingBytes(engine, current.value, seen, d, now, fits, fitsAfterRelease);
    } else {
      CompletedBytes(engine, current.value, seen, d, now, fits);
    }
  }

  lemma {:induction false} ExpireBytes<S>(t: Table<S>, order: seq<SocketAddr>, now: nat)
    requires ExactTable(t)
    ensures var r := ExpireAll(t, order, now);
      ExactTable(r.table) && TableLoad(r.table, Octets) + Bytes(r.released) == TableLoad(t, Octets)
  {
    if |order| > 0 {
      var n := |order| - 1;
      var before := ExpireAll(t, order[..n], now);
      ExpireBytes(t, order[..n], now);
      var a := order[n];
      if a in before.table && before.table[a].Pending? {
        CompletedLoad(before.table, a, NoDomain(before.table[a].key, now), Octets);
        BytesConcat(before.released, before.table[a].datagrams);
      }
    }
  }

  function EventBytes(e: Event): nat
  {
    match e case Arrival(d, _, _) => |d.payload| case Expiry(_, _) => 0
  }

  /** One event conserves bytes: what the pending flows hold and what arrives is what leaves and what they hold then. */
  lemma StepBytes<S>(engine: Engine<S>, idle: nat, t: Table<S>, e: Event)
    requires TableOk(t) && Allowed(t, e, idle)
    ensures var r := Step(engine, idle, t, e);
      Bytes(r.released) + TableLoad(r.table, Octets) == TableLoad(t, Octets) + EventBytes(e)
  {
    match e
    case Arrival(d, now, victim) =>
      var a := d.destination;
      VictimCompleted(t, d, now, victim, idle);
      CurrentLoad(t, a, now, idle, Octets);
      LoadAfter(t, a, victim, DecisionFor(engine, idle, t, d, now, victim).flow, Octets);
      DecideBytes(engine, Current(t, a, now, idle), ObservedKey(d.payload), HasUnsupportedVersion(d.payload),
                  d, now, !NeedsRoom(t, a, now, idle) || victim.Some?,
                  CanBuffer(t, |d.payload|), CanBuffer(t - {a}, |d.payload|));
    case Expiry(now, order) => ExpireBytes(t, order, now);
  }
}
