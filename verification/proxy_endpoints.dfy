/**
  Which proxy servers are resolved before the runtime starts: those whose own
  path can leave the host directly under some choice of group members.
 */
module ProxyEndpoints {
  import opened Base
  import opened ProxyGraph

  datatype Server = Server(host: string, port: nat)

  datatype Endpoint = Endpoint(server: Server, addresses: seq<SocketAddr>)

  /** A proxy's server and, where it has one, the server of its separate download leg. */
  datatype Legs = Legs(upload: Server, download: Option<Server>)

  datatype Prepared = Prepared(upload: Option<Endpoint>, download: Option<Endpoint>)

  datatype PrepareError = BadGraph(error: GraphError) | Unresolved(server: Server) | NotPermitted | TimedOut

  type Resolver = Server -> Option<Endpoint>

  /** The member index each group's selection cell holds. */
  type Selection = nat -> nat

  // ------------------------------------------------------------ reachability

  function Picks(g: Graph, selected: Selection, k: nat): (m: Option<Member>)
    requires k < |g.groups|
  {
    if selected(k) < |g.groups[k]| then Some(g.groups[k][selected(k)]) else None
  }

  ghost predicate Nested(g: Graph, selected: Selection, k: nat, next: nat)
  {
    k < |g.groups| && Picks(g, selected, k) == Some(Route(Group(next)))
  }

  ghost predicate Descent(g: Graph, selected: Selection, p: seq<nat>)
  {
    && |p| > 0 && p[|p| - 1] < |g.groups|
    && forall i :: 0 <= i < |p| - 1 ==> Nested(g, selected, p[i], p[i + 1])
  }

  /** From group `k` the selected members lead through nested groups to DIRECT. */
  ghost predicate DirectUnder(g: Graph, selected: Selection, k: nat)
  {
    exists p :: Descent(g, selected, p) && p[0] == k && Picks(g, selected, p[|p| - 1]) == Some(Direct)
  }

  ghost predicate ReachesDirect(g: Graph, k: nat)
  {
    exists selected: Selection :: DirectUnder(g, selected, k)
  }

  /** Under some selection proxy `i` dials its own server from this host. */
  ghost predicate Physical(g: Graph, i: nat)
    requires i < |g.parents|
  {
    match g.parents[i]
    case None => true
    case Some(Proxy(_)) => false
    case Some(Group(k)) => ReachesDirect(g, k)
  }

  // ------------------------------------------------------------------- flags

  predicate Opens(flags: seq<bool>, m: Member)
  {
    match m
    case Direct => true
    case Reject => false
    case Route(Proxy(_)) => false
    case Route(Group(c)) => c < |flags| && flags[c]
  }

  ghost predicate Settled(g: Graph, flags: seq<bool>, k: nat)
    requires k < |g.groups| && |flags| == |g.groups|
  {
    flags[k] <==> exists m :: m in g.groups[k] && Opens(flags, m)
  }

  ghost predicate AllSettled(g: Graph, flags: seq<bool>)
  {
    |flags| == |g.groups| && forall k :: 0 <= k < |flags| ==> Settled(g, flags, k)
  }

  lemma {:induction false} DescentIsFlagged(g: Graph, flags: seq<bool>, selected: Selection, p: seq<nat>)
    requires AllSettled(g, flags) && Descent(g, selected, p)
    requires Picks(g, selected, p[|p| - 1]) == Some(Direct)
    ensures p[0] < |flags| && flags[p[0]]
    decreases |p|
  {
    var k := p[0];
    if |p| == 1 {
      assert g.groups[k][selected(k)] == Direct && Opens(flags, Direct);
    } else {
      assert Nested(g, selected, k, p[1]);
      var rest := p[1..];
      forall i | 0 <= i < |rest| - 1 ensures Nested(g, selected, rest[i], rest[i + 1]) {
        assert Nested(g, selected, p[i + 1], p[i + 2]);
      }
      DescentIsFlagged(g, flags, selected, rest);
      assert g.groups[k][selected(k)] == Route(Group(p[1])) && Opens(flags, Route(Group(p[1])));
    }
    assert Settled(g, flags, k);
  }

  function FirstOpen(flags: seq<bool>, members: seq<Member>): (j: nat)
    ensures (exists m :: m in members && Opens(flags, m)) ==> j < |members| && Opens(flags, members[j])
  {
    if |members| == 0 || Opens(flags, members[0]) then 0
    else
      assert members == [members[0]] + members[1..];
      1 + FirstOpen(flags, members[1..])
  }

  /** In every group that is flagged, select a member that opens it. */
  function Opening(g: Graph, flags: seq<bool>): (selected: Selection)
  {
    (k: nat) => if k < |g.groups| then FirstOpen(flags, g.groups[k]) else 0
  }

  lemma {:induction false} FlaggedDescends(g: Graph, flags: seq<bool>, order: seq<Target>, i: nat) returns (p: seq<nat>)
    requires BuildOrder(g, order) && AllSettled(g, flags)
    requires i < |order| && order[i].Group? && order[i].id < |flags| && flags[order[i].id]
    ensures Descent(g, Opening(g, flags), p) && p[0] == order[i].id
    ensures Picks(g, Opening(g, flags), p[|p| - 1]) == Some(Direct)
    decreases i
  {
    var k := order[i].id;
    var selected := Opening(g, flags);
    assert Settled(g, flags, k);
    var m := g.groups[k][selected(k)];
    assert Opens(flags, m) && Picks(g, selected, k) == Some(m);
    if m == Direct {
      return [k];
    }
    var child := m.target;
    assert child in DependsOn(g, order[i]);
    assert Before(order, i, DependsOn(g, order[i]));
    var j :| 0 <= j < i && order[j] == child;
    var rest := FlaggedDescends(g, flags, order, j);
    p := [k] + rest;
    forall q | 0 <= q < |p| - 1 ensures Nested(g, selected, p[q], p[q + 1]) {
      if q == 0 {
        assert Nested(g, selected, k, child.id);
      } else {
        assert Nested(g, selected, rest[q - 1], rest[q]);
      }
    }
  }

  /** The flags say exactly which groups reach DIRECT under some selection. */
  lemma FlagsAreReachability(g: Graph, flags: seq<bool>, order: seq<Target>, k: nat)
    requires BuildOrder(g, order) && AllSettled(g, flags)
    ensures ReachesDirect(g, k) <==> k < |flags| && flags[k]
  {
    if k < |flags| && flags[k] {
      assert Known(g, Group(k));
      var i :| 0 <= i < |order| && order[i] == Group(k);
      var p := FlaggedDescends(g, flags, order, i);
      assert DirectUnder(g, Opening(g, flags), k);
    }
    forall selected: Selection | DirectUnder(g, selected, k) ensures k < |flags| && flags[k] {
      var p :| Descent(g, selected, p) && p[0] == k && Picks(g, selected, p[|p| - 1]) == Some(Direct);
      DescentIsFlagged(g, flags, selected, p);
    }
  }

  method AnyOpens(flags: seq<bool>, members: seq<Member>) returns (open: bool)
    ensures open <==> exists m :: m in members && Opens(flags, m)
  {
    open := false;
    for j := 0 to |members|
      invariant open <==> exists i :: 0 <= i < j && Opens(flags, members[i])
    {
      open := open || Opens(flags, members[j]);
    }
  }

  lemma SettledIsKept(g: Graph, order: seq<Target>, i: nat, j: nat, before: seq<bool>, after: seq<bool>)
    requires BuildOrder(g, order) && j <= i < |order| && order[i].Group? && order[j].Group?
    requires |before| == |after| == |g.groups|
    requires forall c :: 0 <= c < |before| && c != order[i].id ==> before[c] == after[c]
    ensures forall m :: m in g.groups[order[j].id] ==> Opens(before, m) == Opens(after, m)
  {
    forall m | m in g.groups[order[j].id] ensures Opens(before, m) == Opens(after, m) {
      if m.Route? && m.target.Group? {
        assert m.target in DependsOn(g, order[j]);
        assert Before(order, j, DependsOn(g, order[j]));
        var q :| 0 <= q < j && order[q] == m.target;
        assert order[q] != order[i];
      }
    }
  }

  /** Marks, in dependency order, the groups with an opening member. */
  method DirectGroups(g: Graph, order: seq<Target>) returns (flags: seq<bool>)
    requires BuildOrder(g, order)
    ensures AllSettled(g, flags)
  {
    flags := seq(|g.groups|, _ => false);
    for i := 0 to |order|
      invariant |flags| == |g.groups|
      invariant forall j :: 0 <= j < i && order[j].Group? ==> Settled(g, flags, order[j].id)
    {
      if order[i].Group? {
        var k := order[i].id;
        ghost var before := flags;
        var open := AnyOpens(flags, g.groups[k]);
        flags := flags[k := open];
        forall j | 0 <= j <= i && order[j].Group? ensures Settled(g, flags, order[j].id) {
          SettledIsKept(g, order, i, j, before, flags);
          if j < i {
            assert order[j] != order[i] && Settled(g, before, order[j].id);
          }
        }
      }
    }
    forall k | 0 <= k < |flags| ensures Settled(g, flags, k) {
      assert Known(g, Group(k));
      var j :| 0 <= j < |order| && order[j] == Group(k);
    }
  }

  // -------------------------------------------------------------- resolution

  /** `after` holds each IPv4 address as often as `before` does, and no IPv6 address. */
  ghost predicate V4Of(before: seq<SocketAddr>, after: seq<SocketAddr>)
  {
    forall a :: multiset(after)[a] == if a.v6 then 0 else multiset(before)[a]
  }

  function KeepV4(addresses: seq<SocketAddr>): (kept: seq<SocketAddr>)
    ensures forall a :: a in kept <==> a in addresses && !a.v6
    ensures V4Of(addresses, kept)
  {
    if |addresses| == 0 then []
    else
      assert addresses == [addresses[0]] + addresses[1..];
      (if addresses[0].v6 then [] else [addresses[0]]) + KeepV4(addresses[1..])
  }

  /** The order of the addresses is kept. */
  lemma {:induction false} KeepV4Splits(left: seq<SocketAddr>, right: seq<SocketAddr>)
    ensures KeepV4(left + right) == KeepV4(left) + KeepV4(right)
  {
    if |left| == 0 {
      assert left + right == right;
    } else {
      assert (left + right)[1..] == left[1..] + right;
      KeepV4Splits(left[1..], right);
    }
  }

  function Restrict(e: Endpoint, ipv6: bool): (r: Result<Endpoint, PrepareError>)
    ensures r.Err? <==> !ipv6 && forall a :: a in e.addresses ==> a.v6
    ensures r.Ok? ==> r.value.server == e.server
    ensures r.Ok? && ipv6 ==> r.value.addresses == e.addresses
    ensures r.Ok? && !ipv6 ==> r.value.addresses != [] && V4Of(e.addresses, r.value.addresses)
  {
    if ipv6 then Ok(e)
    else
      var kept := KeepV4(e.addresses);
      if kept == [] then
        assert forall a :: a in e.addresses && !a.v6 ==> a in kept;
        Err(NotPermitted)
      else
        assert kept[0] in kept;
        Ok(Endpoint(e.server, kept))
  }

  function Lookup(resolver: Resolver, server: Server): (r: Result<Endpoint, PrepareError>)
  {
    match resolver(server) case Some(e) => Ok(e) case None => Err(Unresolved(server))
  }

  /** What the lookup of a server leaves after the address restriction, if anything. */
  function Permitted(resolver: Resolver, server: Server, ipv6: bool): (e: Option<Endpoint>)
  {
    match resolver(server)
    case None => None
    case Some(found) =>
      match Restrict(found, ipv6) case Ok(kept) => Some(kept) case Err(_) => None
  }

  /** The endpoints of one proxy; a download leg on the upload server shares its lookup. */
  function Resolved(legs: Legs, resolver: Resolver, ipv6: bool): (r: Result<Prepared, PrepareError>)
    ensures r.Ok? ==> r.value.upload.Some? && (r.value.download.Some? <==> legs.download.Some?)
    ensures r.Ok? <==>
      && Permitted(resolver, legs.upload, ipv6).Some?
      && (legs.download.Some? ==> Permitted(resolver, legs.download.value, ipv6).Some?)
    ensures r.Ok? ==> r.value.upload == Permitted(resolver, legs.upload, ipv6)
    ensures r.Ok? && legs.download.Some? ==> r.value.download == Permitted(resolver, legs.download.value, ipv6)
    ensures r.Ok? && legs.download == Some(legs.upload) ==> r.value.download == r.value.upload
    ensures r.Err? ==> r.error.Unresolved? || r.error.NotPermitted?
  {
    var upload := Lookup(resolver, legs.upload);
    if upload.Err? then Err(upload.error)
    else if legs.download.None? then
      var kept := Restrict(upload.value, ipv6);
      if kept.Err? then Err(kept.error) else Ok(Prepared(Some(kept.value), None))
    else
      var download := if legs.download.value == legs.upload then upload else Lookup(resolver, legs.download.value);
      if download.Err? then Err(download.error)
      else
        var kept, other := Restrict(upload.value, ipv6), Restrict(download.value, ipv6);
        if kept.Err? then Err(kept.error)
        else if other.Err? then Err(other.error)
        else Ok(Prepared(Some(kept.value), Some(other.value)))
  }

  predicate NeedsLookup(g: Graph, flags: seq<bool>, i: nat)
    requires i < |g.parents|
  {
    match g.parents[i]
    case None => true
    case Some(Proxy(_)) => false
    case Some(Group(k)) => k < |flags| && flags[k]
  }

  ghost predicate ServedTo(g: Graph, legs: seq<Legs>, resolver: Resolver, ipv6: bool, i: nat, p: Prepared)
    requires i < |g.parents| == |legs|
  {
    if Physical(g, i) then Resolved(legs[i], resolver, ipv6) == Ok(p) else p == Prepared(None, None)
  }

  ghost predicate FirstFailure(g: Graph, legs: seq<Legs>, resolver: Resolver, ipv6: bool, i: nat, e: PrepareError)
    requires |g.parents| == |legs|
  {
    && i < |legs| && Physical(g, i) && Resolved(legs[i], resolver, ipv6) == Err(e)
    && forall j :: 0 <= j < i && Physical(g, j) ==> Resolved(legs[j], resolver, ipv6).Ok?
  }

  /** Awaits the lookups in index order. */
  method Collect(g: Graph, flags: seq<bool>, legs: seq<Legs>, resolver: Resolver, ipv6: bool)
    returns (r: Result<seq<Prepared>, PrepareError>)
    requires |g.parents| == |legs|
    requires forall i :: 0 <= i < |legs| ==> (NeedsLookup(g, flags, i) <==> Physical(g, i))
    ensures r.Ok? ==> |r.value| == |legs| && forall i :: 0 <= i < |legs| ==> ServedTo(g, legs, resolver, ipv6, i, r.value[i])
    ensures r.Err? ==> exists i :: FirstFailure(g, legs, resolver, ipv6, i, r.error)
  {
    var endpoints := seq(|legs|, _ => Prepared(None, None));
    for i := 0 to |legs|
      invariant |endpoints| == |legs|
      invariant forall j :: 0 <= j < i ==> ServedTo(g, legs, resolver, ipv6, j, endpoints[j])
      invariant forall j :: i <= j < |legs| ==> endpoints[j] == Prepared(None, None)
    {
      if NeedsLookup(g, flags, i) {
        var found := Resolved(legs[i], resolver, ipv6);
        if found.Err? {
          assert forall j :: 0 <= j < i && Physical(g, j) ==> ServedTo(g, legs, resolver, ipv6, j, endpoints[j]);
          assert FirstFailure(g, legs, resolver, ipv6, i, found.error);
          return Err(found.error);
        }
        endpoints := endpoints[i := found.value];
      }
    }
    r := Ok(endpoints);
  }

  /**
    Resolves exactly the servers some selection dials directly: each of those has
    its endpoints, every other proxy has none. `timely` is false when the lookups
    outlast the bootstrap deadline.
   */
  method PrepareEndpoints(g: Graph, legs: seq<Legs>, resolver: Resolver, ipv6: bool, timely: bool)
    returns (r: Result<seq<Prepared>, PrepareError>)
    requires |g.parents| == |legs|
    ensures (r.Err? && r.error.BadGraph?) <==> !InRange(g) || HasCycle(g)
    ensures r == Err(TimedOut) <==> InRange(g) && !HasCycle(g) && !timely
    ensures r.Ok? ==> |r.value| == |legs| && forall i :: 0 <= i < |legs| ==> ServedTo(g, legs, resolver, ipv6, i, r.value[i])
    ensures r.Err? && !r.error.BadGraph? && timely ==> exists i :: FirstFailure(g, legs, resolver, ipv6, i, r.error)
  {
    var sorted := GraphOrder(g);
    if sorted.Err? {
      return Err(BadGraph(sorted.error));
    }
    var flags := DirectGroups(g, sorted.value);
    forall i | 0 <= i < |legs| ensures NeedsLookup(g, flags, i) <==> Physical(g, i) {
      if g.parents[i].Some? && g.parents[i].value.Group? {
        FlagsAreReachability(g, flags, sorted.value, g.parents[i].value.id);
      }
    }
    if !timely {
      return Err(TimedOut);
    }
    r := Collect(g, flags, legs, resolver, ipv6);
  }
}
