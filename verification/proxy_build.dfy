/**
  Building connectors and select groups in dependency order, and resolving a
  proxy's upstream path under the members selected at run time.
 */
module ProxyBuild {
  import opened Base
  import opened ProxyGraph
  import opened ProxyEndpoints

  datatype Connector = Connector(index: nat, upstream: Path, download: Option<Path>)

  datatype Path =
    | DirectPath(endpoint: Endpoint)
    | ProxyPath(connector: Connector)
    | GroupPath(group: Select, prepared: Option<Endpoint>)

  /** A group: its selection cell and its already built members. */
  datatype Select = Select(cell: nat, members: seq<Leaf>)

  datatype Leaf = ProxyLeaf(connector: Connector) | GroupLeaf(group: Select) | DirectLeaf | RejectLeaf

  datatype BuildError = EndpointMismatch | InvalidGraph(error: GraphError) | RootUnprepared

  /** The configured graph, its servers and what was resolved for them. */
  datatype Plan = Plan(graph: Graph, legs: seq<Legs>, endpoints: seq<Prepared>)

  // --------------------------------------------------- what was built for what

  ghost predicate MirrorsProxy(plan: Plan, i: nat, c: Connector)
    decreases c
  {
    && i < |plan.graph.parents| == |plan.legs| == |plan.endpoints|
    && c.index == i
    && MirrorsPath(plan, plan.graph.parents[i], plan.endpoints[i].upload, c.upstream)
    && (c.download.Some? <==> plan.legs[i].download.Some?)
    && (c.download.Some? ==> MirrorsPath(plan, plan.graph.parents[i], plan.endpoints[i].download, c.download.value))
  }

  ghost predicate MirrorsPath(plan: Plan, parent: Option<Target>, endpoint: Option<Endpoint>, path: Path)
    decreases path
  {
    match path
    case DirectPath(x) => parent == None && endpoint == Some(x)
    case ProxyPath(c) => parent.Some? && parent.value.Proxy? && MirrorsProxy(plan, parent.value.id, c)
    case GroupPath(s, x) => parent.Some? && parent.value.Group? && endpoint == x && MirrorsGroup(plan, parent.value.id, s)
  }

  ghost predicate MirrorsGroup(plan: Plan, k: nat, s: Select)
    decreases s
  {
    && k < |plan.graph.groups| && s.cell == k && |s.members| == |plan.graph.groups[k]|
    && forall j :: 0 <= j < |s.members| ==> MirrorsMember(plan, plan.graph.groups[k][j], s.members[j])
  }

  ghost predicate MirrorsMember(plan: Plan, m: Member, leaf: Leaf)
    decreases leaf
  {
    match leaf
    case ProxyLeaf(c) => m.Route? && m.target.Proxy? && MirrorsProxy(plan, m.target.id, c)
    case GroupLeaf(s) => m.Route? && m.target.Group? && MirrorsGroup(plan, m.target.id, s)
    case DirectLeaf => m == Direct
    case RejectLeaf => m == Reject
  }

  // ------------------------------------------------------------ construction

  datatype Registry = Registry(nodes: seq<Option<Connector>>, groups: seq<Option<Select>>)

  ghost predicate Registered(plan: Plan, r: Registry, t: Target)
  {
    && |r.nodes| == |plan.graph.parents| && |r.groups| == |plan.graph.groups|
    && match t
       case Proxy(id) => id < |r.nodes| && r.nodes[id].Some? && MirrorsProxy(plan, id, r.nodes[id].value)
       case Group(id) => id < |r.groups| && r.groups[id].Some? && MirrorsGroup(plan, id, r.groups[id].value)
  }

  ghost predicate AllRegistered(plan: Plan, r: Registry, targets: seq<Target>)
  {
    forall t :: t in targets ==> Registered(plan, r, t)
  }

  /** Needs its dependencies in the registry, which is what the build order provides. */
  function BuildPath(plan: Plan, r: Registry, i: nat, endpoint: Option<Endpoint>): (path: Result<Path, BuildError>)
    requires i < |plan.graph.parents| == |plan.legs| == |plan.endpoints|
    requires AllRegistered(plan, r, DependsOn(plan.graph, Proxy(i)))
    ensures path.Ok? ==> MirrorsPath(plan, plan.graph.parents[i], endpoint, path.value)
    ensures path.Err? <==> plan.graph.parents[i].None? && endpoint.None?
    ensures path.Err? ==> path.error == RootUnprepared
  {
    match plan.graph.parents[i]
    case None => if endpoint.Some? then Ok(DirectPath(endpoint.value)) else Err(RootUnprepared)
    case Some(parent) =>
      assert parent in DependsOn(plan.graph, Proxy(i));
      assert Registered(plan, r, parent);
      if parent.Proxy? then Ok(ProxyPath(r.nodes[parent.id].value))
      else Ok(GroupPath(r.groups[parent.id].value, endpoint))
  }

  ghost predicate RootReady(plan: Plan, i: nat)
    requires i < |plan.graph.parents| == |plan.legs| == |plan.endpoints|
  {
    plan.graph.parents[i].None? ==>
      plan.endpoints[i].upload.Some? && (plan.legs[i].download.Some? ==> plan.endpoints[i].download.Some?)
  }

  function BuildConnector(plan: Plan, r: Registry, i: nat): (c: Result<Connector, BuildError>)
    requires i < |plan.graph.parents| == |plan.legs| == |plan.endpoints|
    requires AllRegistered(plan, r, DependsOn(plan.graph, Proxy(i)))
    ensures c.Ok? <==> RootReady(plan, i)
    ensures c.Ok? ==> MirrorsProxy(plan, i, c.value)
    ensures c.Err? ==> c.error == RootUnprepared
  {
    var upstream := BuildPath(plan, r, i, plan.endpoints[i].upload);
    if upstream.Err? then Err(upstream.error)
    else if plan.legs[i].download.None? then Ok(Connector(i, upstream.value, None))
    else
      var download := BuildPath(plan, r, i, plan.endpoints[i].download);
      if download.Err? then Err(download.error) else Ok(Connector(i, upstream.value, Some(download.value)))
  }

  function BuildMember(plan: Plan, r: Registry, m: Member): (leaf: Leaf)
    requires m.Route? ==> Registered(plan, r, m.target)
    ensures MirrorsMember(plan, m, leaf)
  {
    match m
    case Direct => DirectLeaf
    case Reject => RejectLeaf
    case Route(Proxy(id)) => ProxyLeaf(r.nodes[id].value)
    case Route(Group(id)) => GroupLeaf(r.groups[id].value)
  }

  method BuildGroup(plan: Plan, r: Registry, k: nat) returns (s: Select)
    requires k < |plan.graph.groups|
    requires AllRegistered(plan, r, DependsOn(plan.graph, Group(k)))
    ensures MirrorsGroup(plan, k, s)
  {
    var members := plan.graph.groups[k];
    var leaves: seq<Leaf> := [];
    for j := 0 to |members|
      invariant |leaves| == j
      invariant forall q :: 0 <= q < j ==> MirrorsMember(plan, members[q], leaves[q])
    {
      if members[j].Route? {
        assert members[j].target in DependsOn(plan.graph, Group(k));
      }
      leaves := leaves + [BuildMember(plan, r, members[j])];
    }
    s := Select(k, leaves);
  }

  method BuildTarget(plan: Plan, r: Registry, t: Target) returns (next: Result<Registry, BuildError>)
    requires |r.nodes| == |plan.graph.parents| == |plan.legs| == |plan.endpoints| && |r.groups| == |plan.graph.groups|
    requires Known(plan.graph, t) && AllRegistered(plan, r, DependsOn(plan.graph, t))
    ensures next.Ok? <==> (t.Proxy? ==> RootReady(plan, t.id))
    ensures next.Err? ==> next.error == RootUnprepared
    ensures next.Ok? ==> Registered(plan, next.value, t)
    ensures next.Ok? ==> forall other :: other != t && Registered(plan, r, other) ==> Registered(plan, next.value, other)
  {
    if t.Group? {
      var s := BuildGroup(plan, r, t.id);
      next := Ok(Registry(r.nodes, r.groups[t.id := Some(s)]));
    } else {
      var c := BuildConnector(plan, r, t.id);
      if c.Err? {
        return Err(c.error);
      }
      next := Ok(Registry(r.nodes[t.id := Some(c.value)], r.groups));
    }
  }

  datatype Built = Built(nodes: seq<Connector>, lifecycle: seq<Target>)

  ghost predicate Buildable(plan: Plan)
    requires |plan.graph.parents| == |plan.legs| == |plan.endpoints|
  {
    forall i :: 0 <= i < |plan.legs| ==> RootReady(plan, i)
  }

  ghost predicate ProxyReady(plan: Plan, t: Target)
    requires |plan.graph.parents| == |plan.legs| == |plan.endpoints| && Known(plan.graph, t)
  {
    t.Proxy? ==> RootReady(plan, t.id)
  }

  /** The order comes to a target after everything it depends on. */
  lemma NextTarget(plan: Plan, r: Registry, order: seq<Target>, i: nat)
    requires BuildOrder(plan.graph, order) && i < |order| && AllRegistered(plan, r, order[..i])
    ensures Known(plan.graph, order[i]) && AllRegistered(plan, r, DependsOn(plan.graph, order[i]))
  {
    assert Before(order, i, DependsOn(plan.graph, order[i]));
  }

  lemma OneMore(plan: Plan, r: Registry, next: Registry, order: seq<Target>, i: nat)
    requires BuildOrder(plan.graph, order) && i < |order| && AllRegistered(plan, r, order[..i])
    requires Registered(plan, next, order[i])
    requires forall other :: other != order[i] && Registered(plan, r, other) ==> Registered(plan, next, other)
    ensures AllRegistered(plan, next, order[..i + 1])
  {
    assert order[i] !in order[..i];
    assert order[..i + 1] == order[..i] + [order[i]];
  }

  lemma EveryRoot(plan: Plan, order: seq<Target>)
    requires |plan.graph.parents| == |plan.legs| == |plan.endpoints| && BuildOrder(plan.graph, order)
    requires forall j :: 0 <= j < |order| ==> ProxyReady(plan, order[j])
    ensures Buildable(plan)
  {
    forall i | 0 <= i < |plan.legs| ensures RootReady(plan, i) {
      assert Known(plan.graph, Proxy(i));
      var j :| 0 <= j < |order| && order[j] == Proxy(i);
    }
  }

  method BuildAll(plan: Plan, order: seq<Target>) returns (next: Result<Registry, BuildError>)
    requires |plan.graph.parents| == |plan.legs| == |plan.endpoints| && BuildOrder(plan.graph, order)
    ensures next.Ok? <==> Buildable(plan)
    ensures next.Err? ==> next.error == RootUnprepared
    ensures next.Ok? ==> |next.value.nodes| == |plan.legs| && AllRegistered(plan, next.value, order)
  {
    var r := Registry(seq(|plan.graph.parents|, _ => None), seq(|plan.graph.groups|, _ => None));
    for i := 0 to |order|
      invariant |r.nodes| == |plan.graph.parents| && |r.groups| == |plan.graph.groups|
      invariant AllRegistered(plan, r, order[..i])
      invariant forall j :: 0 <= j < i ==> ProxyReady(plan, order[j])
    {
      NextTarget(plan, r, order, i);
      var built := BuildTarget(plan, r, order[i]);
      if built.Err? {
        return built;
      }
      OneMore(plan, r, built.value, order, i);
      r := built.value;
    }
    assert order[..|order|] == order;
    EveryRoot(plan, order);
    next := Ok(r);
  }

  /** Every node of an acyclic graph whose roots are prepared is built, and mirrors its configuration. */
  method BuildGraph(plan: Plan) returns (r: Result<Built, BuildError>)
    requires |plan.graph.parents| == |plan.legs|
    ensures r == Err(EndpointMismatch) <==> |plan.endpoints| != |plan.legs|
    ensures (r.Err? && r.error.InvalidGraph?) <==>
              |plan.endpoints| == |plan.legs| && (!InRange(plan.graph) || HasCycle(plan.graph))
    ensures r == Err(RootUnprepared) <==>
              |plan.endpoints| == |plan.legs| && InRange(plan.graph) && !HasCycle(plan.graph) && !Buildable(plan)
    ensures r.Ok? ==> BuildOrder(plan.graph, r.value.lifecycle) && |r.value.nodes| == |plan.legs|
    ensures r.Ok? ==> forall i :: 0 <= i < |plan.legs| ==> MirrorsProxy(plan, i, r.value.nodes[i])
  {
    if |plan.endpoints| != |plan.legs| {
      return Err(EndpointMismatch);
    }
    var sorted := GraphOrder(plan.graph);
    if sorted.Err? {
      return Err(InvalidGraph(sorted.error));
    }
    var order := sorted.value;
    var filled := BuildAll(plan, order);
    if filled.Err? {
      return Err(filled.error);
    }
    var nodes := filled.value.nodes;
    assert |nodes| == |plan.legs|;
    forall i | 0 <= i < |plan.legs| ensures nodes[i].Some? && MirrorsProxy(plan, i, nodes[i].value) {
      assert Known(plan.graph, Proxy(i));
      assert Registered(plan, filled.value, Proxy(i));
    }
    r := Ok(Built(seq(|plan.legs|, i requires 0 <= i < |plan.legs| => nodes[i].value), order));
  }

  // -------------------------------------------------------------- resolution

  datatype RouteError = InvalidSelection | NoPreparedEndpoint | NotAllowed

  datatype Upstream = ViaDirect(endpoint: Endpoint) | ViaProxy(connector: Connector)

  /** The first member that is not a group, following the selected ones. */
  function SelectedLeaf(s: Select, selected: Selection): (leaf: Option<Leaf>)
    ensures leaf.Some? ==> !leaf.value.GroupLeaf?
    decreases s
  {
    if selected(s.cell) >= |s.members| then None
    else
      var m := s.members[selected(s.cell)];
      if m.GroupLeaf? then SelectedLeaf(m.group, selected) else Some(m)
  }

  method ResolveSelect(s: Select, selected: Selection) returns (leaf: Result<Leaf, RouteError>)
    ensures match SelectedLeaf(s, selected) { case Some(found) => leaf == Ok(found) case None => leaf == Err(InvalidSelection) }
  {
    var group := s;
    while true
      invariant SelectedLeaf(group, selected) == SelectedLeaf(s, selected)
      decreases group
    {
      var index := selected(group.cell);
      if index >= |group.members| {
        return Err(InvalidSelection);
      }
      var m := group.members[index];
      if !m.GroupLeaf? {
        return Ok(m);
      }
      group := m.group;
    }
  }

  ghost function Resolution(path: Path, selected: Selection): (r: Result<Upstream, RouteError>)
  {
    match path
    case DirectPath(x) => Ok(ViaDirect(x))
    case ProxyPath(c) => Ok(ViaProxy(c))
    case GroupPath(s, x) =>
      match SelectedLeaf(s, selected)
      case None => Err(InvalidSelection)
      case Some(RejectLeaf) => Err(NotAllowed)
      case Some(ProxyLeaf(c)) => Ok(ViaProxy(c))
      case Some(_) => if x.Some? then Ok(ViaDirect(x.value)) else Err(NoPreparedEndpoint)
  }

  method ResolvePath(path: Path, selected: Selection) returns (r: Result<Upstream, RouteError>)
    ensures r == Resolution(path, selected)
  {
    match path {
      case DirectPath(x) => r := Ok(ViaDirect(x));
      case ProxyPath(c) => r := Ok(ViaProxy(c));
      case GroupPath(s, x) =>
        var leaf := ResolveSelect(s, selected);
        if leaf.Err? {
          r := Err(leaf.error);
        } else if leaf.value.ProxyLeaf? {
          r := Ok(ViaProxy(leaf.value.connector));
        } else if leaf.value.RejectLeaf? {
          r := Err(NotAllowed);
        } else {
          r := if x.Some? then Ok(ViaDirect(x.value)) else Err(NoPreparedEndpoint);
        }
    }
  }

  // ---------------------------------------------------------------- theorems

  lemma {:induction false} DirectLeafDescends(plan: Plan, k: nat, s: Select, selected: Selection) returns (p: seq<nat>)
    requires MirrorsGroup(plan, k, s) && SelectedLeaf(s, selected) == Some(DirectLeaf)
    ensures Descent(plan.graph, selected, p) && p[0] == k && Picks(plan.graph, selected, p[|p| - 1]) == Some(Direct)
    decreases s
  {
    var j := selected(k);
    var leaf := s.members[j];
    assert MirrorsMember(plan, plan.graph.groups[k][j], leaf);
    if leaf == DirectLeaf {
      return [k];
    }
    var child := plan.graph.groups[k][j].target.id;
    var rest := DirectLeafDescends(plan, child, leaf.group, selected);
    p := [k] + rest;
    forall q | 0 <= q < |p| - 1 ensures Nested(plan.graph, selected, p[q], p[q + 1]) {
      if q == 0 {
        assert Nested(plan.graph, selected, k, child);
      } else {
        assert Nested(plan.graph, selected, rest[q - 1], rest[q]);
      }
    }
  }

  lemma {:induction false} DescentEndsAtDirect(plan: Plan, s: Select, selected: Selection, p: seq<nat>)
    requires Descent(plan.graph, selected, p) && MirrorsGroup(plan, p[0], s)
    requires Picks(plan.graph, selected, p[|p| - 1]) == Some(Direct)
    ensures SelectedLeaf(s, selected) == Some(DirectLeaf)
    decreases |p|
  {
    var k := p[0];
    var j := selected(k);
    if |p| > 1 {
      assert Nested(plan.graph, selected, k, p[1]);
      var rest := p[1..];
      forall i | 0 <= i < |rest| - 1 ensures Nested(plan.graph, selected, rest[i], rest[i + 1]) {
        assert Nested(plan.graph, selected, p[i + 1], p[i + 2]);
      }
      assert MirrorsMember(plan, plan.graph.groups[k][j], s.members[j]);
      DescentEndsAtDirect(plan, s.members[j].group, selected, rest);
    } else {
      assert MirrorsMember(plan, plan.graph.groups[k][j], s.members[j]);
    }
  }

  /** A built group resolves to DIRECT exactly when the configured members lead there. */
  lemma LeafMatchesGraph(plan: Plan, k: nat, s: Select, selected: Selection)
    requires MirrorsGroup(plan, k, s)
    ensures SelectedLeaf(s, selected) == Some(DirectLeaf) <==> DirectUnder(plan.graph, selected, k)
  {
    if SelectedLeaf(s, selected) == Some(DirectLeaf) {
      var p := DirectLeafDescends(plan, k, s, selected);
    }
    forall p | Descent(plan.graph, selected, p) && p[0] == k && Picks(plan.graph, selected, p[|p| - 1]) == Some(Direct)
      ensures SelectedLeaf(s, selected) == Some(DirectLeaf)
    {
      DescentEndsAtDirect(plan, s, selected, p);
    }
  }

  /**
    With prepared endpoints, under every selection: a proxy's path never lacks
    its endpoint, and whenever it dials directly it dials its own resolved server.
   */
  lemma DirectIsPrepared(plan: Plan, resolver: Resolver, ipv6: bool, i: nat, c: Connector, selected: Selection)
    requires MirrorsProxy(plan, i, c) && ServedTo(plan.graph, plan.legs, resolver, ipv6, i, plan.endpoints[i])
    ensures Resolution(c.upstream, selected) != Err(NoPreparedEndpoint)
    ensures c.download.Some? ==> Resolution(c.download.value, selected) != Err(NoPreparedEndpoint)
    ensures var r := Resolution(c.upstream, selected);
            r.Ok? && r.value.ViaDirect? ==>
              Physical(plan.graph, i) && Some(r.value.endpoint) == plan.endpoints[i].upload
    ensures c.download.Some? ==>
              var r := Resolution(c.download.value, selected);
              r.Ok? && r.value.ViaDirect? ==>
                Physical(plan.graph, i) && Some(r.value.endpoint) == plan.endpoints[i].download
  {
    PathIsPrepared(plan, i, plan.endpoints[i].upload, c.upstream, selected);
    if c.download.Some? {
      PathIsPrepared(plan, i, plan.endpoints[i].download, c.download.value, selected);
    }
  }

  lemma PathIsPrepared(plan: Plan, i: nat, endpoint: Option<Endpoint>, path: Path, selected: Selection)
    requires i < |plan.graph.parents| && MirrorsPath(plan, plan.graph.parents[i], endpoint, path)
    requires Physical(plan.graph, i) ==> endpoint.Some?
    ensures Resolution(path, selected) != Err(NoPreparedEndpoint)
    ensures var r := Resolution(path, selected);
            r.Ok? && r.value.ViaDirect? ==> Physical(plan.graph, i) && Some(r.value.endpoint) == endpoint
  {
    if path.GroupPath? {
      LeafMatchesGraph(plan, plan.graph.parents[i].value.id, path.group, selected);
    }
  }

  /** Prepared endpoints never make a build fail on an unprepared root. */
  lemma PreparedIsBuildable(plan: Plan, resolver: Resolver, ipv6: bool)
    requires |plan.graph.parents| == |plan.legs| == |plan.endpoints|
    requires forall i :: 0 <= i < |plan.legs| ==> ServedTo(plan.graph, plan.legs, resolver, ipv6, i, plan.endpoints[i])
    ensures Buildable(plan)
  {
    forall i | 0 <= i < |plan.legs| ensures RootReady(plan, i) {
      assert ServedTo(plan.graph, plan.legs, resolver, ipv6, i, plan.endpoints[i]);
    }
  }
}
