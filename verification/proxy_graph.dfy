/**
  The dependency graph of proxies and select groups, and the order in which it
  is built. A proxy depends on its dialer-proxy, a group on every routed member,
  selected or not and with its multiplicity.
 */
module ProxyGraph {
  import opened Base
  import opened Dag

  datatype Target = Proxy(id: nat) | Group(id: nat)

  datatype Member = Route(target: Target) | Direct | Reject

  datatype Graph = Graph(parents: seq<Option<Target>>, groups: seq<seq<Member>>)
  {
    function Size(): nat
    {
      |parents| + |groups|
    }
  }

  datatype GraphError = UnknownTarget | Circular

  // ------------------------------------------------------------ description

  predicate Known(g: Graph, t: Target)
  {
    match t case Proxy(id) => id < |g.parents| case Group(id) => id < |g.groups|
  }

  ghost predicate AllKnown(g: Graph, targets: seq<Target>)
  {
    forall i :: 0 <= i < |targets| ==> Known(g, targets[i])
  }

  /** Proxies are numbered first, groups after them. */
  function Index(g: Graph, t: Target): (v: nat)
    requires Known(g, t)
    ensures v < g.Size()
  {
    match t case Proxy(id) => id case Group(id) => |g.parents| + id
  }

  function TargetOf(g: Graph, v: nat): (t: Target)
    requires v < g.Size()
    ensures Known(g, t) && Index(g, t) == v
  {
    if v < |g.parents| then Proxy(v) else Group(v - |g.parents|)
  }

  function Routes(members: seq<Member>): (targets: seq<Target>)
    ensures forall t :: t in targets <==> Route(t) in members
  {
    if |members| == 0 then []
    else
      var n := |members| - 1;
      assert members == members[..n] + [members[n]];
      Routes(members[..n]) + if members[n].Route? then [members[n].target] else []
  }

  /** What node `v` depends on, duplicates included. */
  function Dependencies(g: Graph, v: nat): (targets: seq<Target>)
    requires v < g.Size()
  {
    if v < |g.parents| then
      if g.parents[v].Some? then [g.parents[v].value] else []
    else Routes(g.groups[v - |g.parents|])
  }

  ghost predicate InRange(g: Graph)
  {
    forall v :: 0 <= v < g.Size() ==> AllKnown(g, Dependencies(g, v))
  }

  ghost function Indices(g: Graph, targets: seq<Target>): (nodes: seq<nat>)
    requires AllKnown(g, targets)
    ensures |nodes| == |targets|
    ensures forall i :: 0 <= i < |nodes| ==> nodes[i] == Index(g, targets[i])
  {
    seq(|targets|, i requires 0 <= i < |targets| => Index(g, targets[i]))
  }

  /** The dependency lists of the first `done` nodes; the others are still empty. */
  ghost function Partial(g: Graph, done: nat): (adj: Adjacency)
    requires done <= g.Size() && forall v :: 0 <= v < done ==> AllKnown(g, Dependencies(g, v))
    ensures |adj| == g.Size()
    ensures forall v :: 0 <= v < done ==> adj[v] == Indices(g, Dependencies(g, v))
    ensures forall v :: done <= v < g.Size() ==> adj[v] == []
  {
    seq(g.Size(), v requires 0 <= v < g.Size() => if v < done then Indices(g, Dependencies(g, v)) else [])
  }

  ghost function Adjacent(g: Graph): (adj: Adjacency)
    requires InRange(g)
    ensures |adj| == g.Size() && WellFormed(adj)
  {
    Partial(g, g.Size())
  }

  /** Some chain of dialer-proxies and members leads back to where it started. */
  ghost predicate HasCycle(g: Graph)
    requires InRange(g)
  {
    Cyclic(Adjacent(g))
  }

  // ------------------------------------------------------------------ edges

  datatype Edges = Edges(counts: seq<nat>, dependents: Adjacency)

  ghost predicate Records(e: Edges, adj: Adjacency)
  {
    && |e.counts| == |adj| && Reverses(adj, e.dependents)
    && forall v :: 0 <= v < |adj| ==> e.counts[v] == |adj[v]|
  }

  lemma RecordsOne(e: Edges, adj: Adjacency, v: nat, d: nat)
    requires Records(e, adj) && v < |adj| && d < |adj|
    ensures Records(Edges(e.counts[v := e.counts[v] + 1], e.dependents[d := e.dependents[d] + [v]]),
                    adj[v := adj[v] + [d]])
  {
    var next, lists := adj[v := adj[v] + [d]], e.dependents[d := e.dependents[d] + [v]];
    forall x, u | 0 <= x < |adj| && 0 <= u < |adj|
      ensures Occurrences(lists[x], u) == Occurrences(next[u], x)
    {
      OccurrencesSnoc(adj[v], x, d);
      OccurrencesSnoc(e.dependents[d], u, v);
    }
  }

  method AddDependency(g: Graph, e: Edges, v: nat, target: Target, ghost adj: Adjacency)
    returns (r: Result<Edges, GraphError>)
    requires |adj| == g.Size() && v < g.Size() && Records(e, adj)
    ensures if Known(g, target) then r.Ok? && Records(r.value, adj[v := adj[v] + [Index(g, target)]])
            else r == Err(UnknownTarget)
  {
    if !Known(g, target) {
      return Err(UnknownTarget);
    }
    var d := Index(g, target);
    RecordsOne(e, adj, v, d);
    r := Ok(Edges(e.counts[v := e.counts[v] + 1], e.dependents[d := e.dependents[d] + [v]]));
  }

  lemma IndicesSnoc(g: Graph, targets: seq<Target>, t: Target)
    requires AllKnown(g, targets) && Known(g, t)
    ensures AllKnown(g, targets + [t])
    ensures Indices(g, targets + [t]) == Indices(g, targets) + [Index(g, t)]
  {
  }

  lemma RoutesPrefix(members: seq<Member>, j: nat)
    requires j < |members|
    ensures Routes(members[..j + 1]) == Routes(members[..j]) +
                                        if members[j].Route? then [members[j].target] else []
  {
    assert members[..j + 1][..j] == members[..j];
  }

  lemma {:induction false} RoutesIncrease(members: seq<Member>, j: nat)
    requires j <= |members|
    ensures Routes(members[..j]) <= Routes(members)
    decreases |members| - j
  {
    if j == |members| {
      assert members[..j] == members;
    } else {
      RoutesPrefix(members, j);
      RoutesIncrease(members, j + 1);
    }
  }

  method AddMembers(g: Graph, initial: Edges, v: nat, members: seq<Member>, ghost adj: Adjacency)
    returns (r: Result<Edges, GraphError>)
    requires |adj| == g.Size() && v < g.Size() && Records(initial, adj) && adj[v] == []
    ensures if AllKnown(g, Routes(members)) then r.Ok? && Records(r.value, adj[v := Indices(g, Routes(members))])
            else r == Err(UnknownTarget)
  {
    var e := initial;
    assert adj[v := Indices(g, Routes(members[..0]))] == adj;
    for j := 0 to |members|
      invariant AllKnown(g, Routes(members[..j]))
      invariant Records(e, adj[v := Indices(g, Routes(members[..j]))])
    {
      RoutesPrefix(members, j);
      ghost var seen := Routes(members[..j]);
      if members[j].Route? {
        var t := members[j].target;
        ghost var now := adj[v := Indices(g, seen)];
        var added := AddDependency(g, e, v, t, now);
        if added.Err? {
          RoutesIncrease(members, j + 1);
          assert Routes(members)[|seen|] == t;
          return added;
        }
        IndicesSnoc(g, seen, t);
        assert now[v := now[v] + [Index(g, t)]] == adj[v := Indices(g, seen + [t])];
        e := added.value;
      } else {
        assert Routes(members[..j + 1]) == seen;
      }
    }
    assert members[..|members|] == members;
    r := Ok(e);
  }

  lemma PartialNext(g: Graph, v: nat)
    requires v < g.Size() && forall u :: 0 <= u <= v ==> AllKnown(g, Dependencies(g, u))
    ensures Partial(g, v + 1) == Partial(g, v)[v := Indices(g, Dependencies(g, v))]
  {
  }

  method RecordProxies(g: Graph, initial: Edges) returns (r: Result<Edges, GraphError>)
    requires Records(initial, Partial(g, 0))
    ensures (forall v :: 0 <= v < |g.parents| ==> AllKnown(g, Dependencies(g, v))) ==>
              r.Ok? && Records(r.value, Partial(g, |g.parents|))
    ensures r.Err? ==> r.error == UnknownTarget && !InRange(g)
    ensures r.Ok? ==> forall v :: 0 <= v < |g.parents| ==> AllKnown(g, Dependencies(g, v))
  {
    var e := initial;
    for v := 0 to |g.parents|
      invariant forall u :: 0 <= u < v ==> AllKnown(g, Dependencies(g, u))
      invariant Records(e, Partial(g, v))
    {
      ghost var adj := Partial(g, v);
      if g.parents[v].Some? {
        var t := g.parents[v].value;
        var added := AddDependency(g, e, v, t, adj);
        if added.Err? {
          assert Dependencies(g, v)[0] == t;
          assert !AllKnown(g, Dependencies(g, v));
          return added;
        }
        e := added.value;
        assert Indices(g, Dependencies(g, v)) == adj[v] + [Index(g, t)];
      } else {
        assert Indices(g, Dependencies(g, v)) == [];
        assert adj[v := []] == adj;
      }
      PartialNext(g, v);
    }
    r := Ok(e);
  }

  method RecordGroups(g: Graph, initial: Edges) returns (r: Result<Edges, GraphError>)
    requires forall v :: 0 <= v < |g.parents| ==> AllKnown(g, Dependencies(g, v))
    requires Records(initial, Partial(g, |g.parents|))
    ensures if InRange(g) then r.Ok? && Records(r.value, Adjacent(g)) else r == Err(UnknownTarget)
  {
    var e := initial;
    for k := 0 to |g.groups|
      invariant forall u :: 0 <= u < |g.parents| + k ==> AllKnown(g, Dependencies(g, u))
      invariant Records(e, Partial(g, |g.parents| + k))
    {
      var v := |g.parents| + k;
      assert Dependencies(g, v) == Routes(g.groups[k]);
      var added := AddMembers(g, e, v, g.groups[k], Partial(g, v));
      if added.Err? {
        return added;
      }
      e := added.value;
      PartialNext(g, v);
    }
    r := Ok(e);
  }

  method RecordEdges(g: Graph) returns (r: Result<Edges, GraphError>)
    ensures if InRange(g) then r.Ok? && Records(r.value, Adjacent(g)) else r == Err(UnknownTarget)
  {
    var e := Edges(seq(g.Size(), _ => 0), seq(g.Size(), _ => []));
    assert Records(e, Partial(g, 0));
    r := RecordProxies(g, e);
    if r.Ok? {
      r := RecordGroups(g, r.value);
    }
  }

  // ------------------------------------------------------------------ order

  /** What a proxy or group may be routed through. */
  function DependsOn(g: Graph, t: Target): (targets: seq<Target>)
    requires Known(g, t)
    ensures t.Proxy? ==> (targets == if g.parents[t.id].Some? then [g.parents[t.id].value] else [])
    ensures t.Group? ==> forall d :: d in targets <==> Route(d) in g.groups[t.id]
  {
    Dependencies(g, Index(g, t))
  }

  ghost predicate Before(order: seq<Target>, i: nat, targets: seq<Target>)
    requires i <= |order|
  {
    forall t :: t in targets ==> t in order[..i]
  }

  /** Every proxy and group once, each after everything it may be routed through. */
  ghost predicate BuildOrder(g: Graph, order: seq<Target>)
  {
    && Distinct(order)
    && (forall t :: Known(g, t) <==> t in order)
    && (forall i :: 0 <= i < |order| ==> Known(g, order[i]) && Before(order, i, DependsOn(g, order[i])))
  }

  lemma IndexInjective(g: Graph, s: Target, t: Target)
    requires Known(g, s) && Known(g, t) && Index(g, s) == Index(g, t)
    ensures s == t
  {
  }

  lemma OrderedTargets(g: Graph, nodes: seq<nat>, order: seq<Target>)
    requires InRange(g) && AllKnown(g, order) && nodes == Indices(g, order)
    requires DependencyOrder(Adjacent(g), nodes)
    ensures BuildOrder(g, order)
  {
    forall t | Known(g, t) ensures t in order {
      assert Index(g, t) in nodes;
      var i :| 0 <= i < |nodes| && nodes[i] == Index(g, t);
      IndexInjective(g, t, order[i]);
    }
    forall i | 0 <= i < |order| ensures Before(order, i, DependsOn(g, order[i])) {
      OrderedBefore(g, nodes, order, i);
    }
    forall i, j | 0 <= i < j < |order| ensures order[i] != order[j] {
      assert nodes[i] != nodes[j];
    }
  }

  lemma OrderedBefore(g: Graph, nodes: seq<nat>, order: seq<Target>, i: nat)
    requires InRange(g) && AllKnown(g, order) && nodes == Indices(g, order) && i < |order|
    requires DependenciesFirst(Adjacent(g), nodes)
    ensures Before(order, i, DependsOn(g, order[i]))
  {
    var deps := DependsOn(g, order[i]);
    var adj := Adjacent(g);
    assert AllKnown(g, deps) && adj[nodes[i]] == Indices(g, deps);
    assert AllIn(adj[nodes[i]], nodes[..i]);
    forall t | t in deps ensures t in order[..i] {
      var k :| 0 <= k < |deps| && deps[k] == t;
      assert Indices(g, deps)[k] in nodes[..i];
      var j :| 0 <= j < i && nodes[j] == Index(g, t);
      IndexInjective(g, t, order[j]);
    }
  }

  method GraphOrder(g: Graph) returns (r: Result<seq<Target>, GraphError>)
    ensures !InRange(g) <==> r == Err(UnknownTarget)
    ensures InRange(g) ==> (HasCycle(g) <==> r == Err(Circular))
    ensures r.Ok? <==> InRange(g) && !HasCycle(g)
    ensures r.Ok? ==> BuildOrder(g, r.value)
  {
    var edges := RecordEdges(g);
    if edges.Err? {
      return Err(edges.error);
    }
    var order := Order(edges.value.counts, edges.value.dependents, Adjacent(g));
    if |order| != g.Size() {
      return Err(Circular);
    }
    assert forall i :: 0 <= i < |order| ==> order[i] in order;
    var targets := seq(|order|, i requires 0 <= i < |order| => TargetOf(g, order[i]));
    assert Indices(g, targets) == order;
    OrderedTargets(g, order, targets);
    r := Ok(targets);
  }
}
