/** The single proxy chain a latency measurement accepts. */
module Measure {
  import opened Base
  import opened Dag
  import opened ProxyGraph

  datatype MeasureError = NoProxies | InvalidGraph(error: GraphError) | NotOneChain

  type Parents = seq<Option<nat>>

  ghost predicate Trail(parents: Parents, p: seq<nat>)
  {
    && (forall i :: 0 <= i < |p| ==> p[i] < |parents|)
    && (forall i :: 0 <= i < |p| - 1 ==> parents[p[i]] == Some(p[i + 1]))
  }

  /** `p` visits every proxy once, each dialing through the next, and the last one directly. */
  ghost predicate Chain(parents: Parents, p: seq<nat>)
  {
    && |p| == |parents| > 0 && Distinct(p) && Trail(parents, p)
    && parents[p[|p| - 1]] == None
  }

  ghost predicate OneChain(parents: Parents, head: nat)
  {
    exists p :: Chain(parents, p) && p[0] == head
  }

  function GraphOf(parents: Parents): (g: Graph)
    ensures |g.parents| == |parents| && g.groups == []
    ensures forall i :: 0 <= i < |parents| ==>
              g.parents[i] == if parents[i].Some? then Some(Proxy(parents[i].value)) else None
  {
    Graph(seq(|parents|, i requires 0 <= i < |parents| =>
      if parents[i].Some? then Some(Proxy(parents[i].value)) else None), [])
  }

  ghost function DependencyOf(parents: Parents, v: nat): (d: seq<nat>)
    requires v < |parents|
  {
    if parents[v].Some? then [parents[v].value] else []
  }

  lemma ParentsAreAdjacent(parents: Parents)
    requires InRange(GraphOf(parents))
    ensures forall v :: 0 <= v < |parents| ==> Adjacent(GraphOf(parents))[v] == DependencyOf(parents, v)
  {
    var g := GraphOf(parents);
    forall v | 0 <= v < |parents| ensures Adjacent(g)[v] == DependencyOf(parents, v) {
      assert AllKnown(g, Dependencies(g, v));
      assert Adjacent(g)[v] == Indices(g, Dependencies(g, v));
    }
  }

  function Backwards(p: seq<nat>): (r: seq<nat>)
    ensures |r| == |p| && forall i :: 0 <= i < |p| ==> r[i] == p[|p| - 1 - i]
  {
    seq(|p|, i requires 0 <= i < |p| => p[|p| - 1 - i])
  }

  lemma ChainCovers(parents: Parents, p: seq<nat>, v: nat)
    requires Chain(parents, p) && v < |parents|
    ensures v in p
  {
    DistinctFull(p, |parents|, v);
  }

  lemma ChainInRange(parents: Parents, p: seq<nat>)
    requires Chain(parents, p)
    ensures InRange(GraphOf(parents))
  {
    var g := GraphOf(parents);
    forall v | 0 <= v < g.Size() ensures AllKnown(g, Dependencies(g, v)) {
      ChainCovers(parents, p, v);
      var i :| 0 <= i < |p| && p[i] == v;
      assert i < |p| - 1 ==> Dependencies(g, v) == [Proxy(p[i + 1])];
    }
  }

  lemma ChainIsAcyclic(parents: Parents, p: seq<nat>)
    requires Chain(parents, p)
    ensures InRange(GraphOf(parents)) && !HasCycle(GraphOf(parents))
  {
    ChainInRange(parents, p);
    ParentsAreAdjacent(parents);
    var adj, order := Adjacent(GraphOf(parents)), Backwards(p);
    forall i | 0 <= i < |order| ensures order[i] < |adj| && AllIn(adj[order[i]], order[..i]) {
      var j := |p| - 1 - i;
      if i > 0 {
        assert adj[p[j]] == [p[j + 1]];
        assert order[..i][i - 1] == p[j + 1];
      } else {
        assert adj[p[j]] == [];
      }
    }
    forall v: nat ensures v < |adj| <==> v in order {
      if v < |adj| {
        ChainCovers(parents, p, v);
        var i :| 0 <= i < |p| && p[i] == v;
        assert order[|p| - 1 - i] == v;
      }
    }
    OrderedIsAcyclic(adj, order);
  }

  // -------------------------------------------------------------- the checks

  ghost predicate Referenced(parents: Parents, v: nat)
  {
    exists i :: 0 <= i < |parents| && parents[i] == Some(v)
  }

  method Heads(parents: Parents) returns (heads: seq<nat>)
    requires forall i :: 0 <= i < |parents| && parents[i].Some? ==> parents[i].value < |parents|
    ensures Distinct(heads)
    ensures forall v: nat :: v in heads <==> v < |parents| && !Referenced(parents, v)
  {
    var referenced := seq(|parents|, _ => false);
    for i := 0 to |parents|
      invariant |referenced| == |parents|
      invariant forall v :: 0 <= v < |parents| ==>
                  (referenced[v] <==> exists j :: 0 <= j < i && parents[j] == Some(v))
    {
      if parents[i].Some? {
        referenced := referenced[parents[i].value := true];
      }
    }
    heads := [];
    for v := 0 to |parents|
      invariant Distinct(heads) && forall i :: 0 <= i < |heads| ==> heads[i] < v
      invariant forall u: nat :: u in heads <==> u < v && !Referenced(parents, u)
    {
      if !referenced[v] {
        heads := heads + [v];
      }
    }
  }

  lemma ChainHead(parents: Parents, p: seq<nat>, v: nat)
    requires Chain(parents, p) && v < |parents|
    ensures !Referenced(parents, v) <==> v == p[0]
  {
    ChainCovers(parents, p, v);
    var i :| 0 <= i < |p| && p[i] == v;
    if i > 0 {
      assert parents[p[i - 1]] == Some(v);
    }
    forall u | 0 <= u < |parents| ensures parents[u] != Some(p[0]) {
      ChainCovers(parents, p, u);
      var j :| 0 <= j < |p| && p[j] == u;
      assert j < |p| - 1 ==> p[j + 1] != p[0];
    }
  }

  /** A trail from the head of a chain runs along that chain. */
  lemma {:induction false} TrailFollows(parents: Parents, trail: seq<nat>, p: seq<nat>)
    requires Chain(parents, p) && Trail(parents, trail) && 0 < |trail| && trail[0] == p[0]
    ensures |trail| <= |p| && trail == p[..|trail|]
    decreases |trail|
  {
    if |trail| > 1 {
      var n := |trail| - 1;
      TrailFollows(parents, trail[..n], p);
      assert trail[n - 1] == p[n - 1];
      assert parents[trail[n - 1]] == Some(trail[n]);
      assert n < |p|;
      assert trail == trail[..n] + [trail[n]];
    }
  }

  /** Follows dialer-proxies from `head` until there is none or one repeats. */
  method WalkFrom(parents: Parents, head: nat) returns (reachable: nat, ghost trail: seq<nat>)
    requires head < |parents|
    requires forall i :: 0 <= i < |parents| && parents[i].Some? ==> parents[i].value < |parents|
    ensures 0 < |trail| == reachable && trail[0] == head && Trail(parents, trail) && Distinct(trail)
    ensures var next := parents[trail[|trail| - 1]]; next.Some? ==> next.value in trail
  {
    var visited := seq(|parents|, _ => false);
    visited := visited[head := true];
    var last := head;
    reachable, trail := 1, [head];
    DistinctBelow(trail, |parents|);
    while parents[last].Some? && !visited[parents[last].value]
      invariant |visited| == |parents|
      invariant 0 < |trail| == reachable <= |parents| && trail[0] == head && trail[|trail| - 1] == last
      invariant Trail(parents, trail) && Distinct(trail)
      invariant forall v :: 0 <= v < |visited| ==> (visited[v] <==> v in trail)
      decreases |parents| - reachable
    {
      var next := parents[last].value;
      trail := trail + [next];
      DistinctBelow(trail, |parents|);
      visited := visited[next := true];
      reachable := reachable + 1;
      last := next;
    }
  }

  lemma RepeatIsCyclic(parents: Parents, trail: seq<nat>)
    requires InRange(GraphOf(parents)) && 0 < |trail| && Trail(parents, trail)
    requires var next := parents[trail[|trail| - 1]]; next.Some? && next.value in trail
    ensures HasCycle(GraphOf(parents))
  {
    var last := trail[|trail| - 1];
    var next := parents[last].value;
    var i :| 0 <= i < |trail| && trail[i] == next;
    var cycle := trail[i..] + [next];
    ParentsAreAdjacent(parents);
    var adj := Adjacent(GraphOf(parents));
    forall k | 0 <= k < |cycle| - 1 ensures Edge(adj, cycle[k], cycle[k + 1]) {
      assert cycle[k] == trail[i + k];
      assert parents[cycle[k]] == Some(cycle[k + 1]);
      assert adj[cycle[k]] == [cycle[k + 1]];
    }
    assert IsCycle(adj, cycle);
  }

  lemma InRangeParents(parents: Parents)
    requires InRange(GraphOf(parents))
    ensures forall i :: 0 <= i < |parents| && parents[i].Some? ==> parents[i].value < |parents|
  {
    var g := GraphOf(parents);
    forall i | 0 <= i < |parents| && parents[i].Some? ensures parents[i].value < |parents| {
      assert AllKnown(g, Dependencies(g, i)) && Dependencies(g, i)[0] == Proxy(parents[i].value);
    }
  }

  lemma NextIsNew(parents: Parents, p: seq<nat>, n: nat)
    requires Chain(parents, p) && 0 < n < |p|
    ensures parents[p[n - 1]] == Some(p[n]) && p[n] !in p[..n]
  {
  }

  lemma ShortTrailIsNoChain(parents: Parents, heads: seq<nat>, trail: seq<nat>, p: seq<nat>)
    requires |heads| == 1 && forall v: nat :: v in heads <==> v < |parents| && !Referenced(parents, v)
    requires 0 < |trail| && trail[0] == heads[0] && Trail(parents, trail)
    requires var next := parents[trail[|trail| - 1]]; next.Some? ==> next.value in trail
    requires Chain(parents, p)
    ensures |trail| == |parents|
  {
    ChainHead(parents, p, p[0]);
    assert p[0] in heads;
    TrailFollows(parents, trail, p);
    var n := |trail|;
    assert trail[n - 1] == p[n - 1];
    if n < |p| {
      NextIsNew(parents, p, n);
    }
  }

  /** Accepts exactly the configurations whose proxies form one chain, and returns its head. */
  method MeasureHead(parents: Parents) returns (r: Result<nat, MeasureError>)
    ensures forall head: nat :: r == Ok(head) <==> OneChain(parents, head)
    ensures r == Err(NoProxies) <==> |parents| == 0
    ensures (r.Err? && r.error.InvalidGraph?) <==>
              |parents| > 0 && (!InRange(GraphOf(parents)) || HasCycle(GraphOf(parents)))
  {
    if |parents| == 0 {
      return Err(NoProxies);
    }
    var sorted := GraphOrder(GraphOf(parents));
    forall p | Chain(parents, p) ensures InRange(GraphOf(parents)) && !HasCycle(GraphOf(parents)) {
      ChainIsAcyclic(parents, p);
    }
    if sorted.Err? {
      return Err(InvalidGraph(sorted.error));
    }
    InRangeParents(parents);
    var heads := Heads(parents);
    forall p | Chain(parents, p) ensures |heads| == 1 && heads[0] == p[0] {
      OnlyHead(parents, heads, p);
    }
    if |heads| != 1 {
      return Err(NotOneChain);
    }
    assert heads[0] in heads;
    var reachable, trail := WalkFrom(parents, heads[0]);
    forall p | Chain(parents, p) ensures reachable == |parents| {
      ShortTrailIsNoChain(parents, heads, trail, p);
    }
    if reachable != |parents| {
      return Err(NotOneChain);
    }
    if parents[trail[|trail| - 1]].Some? {
      RepeatIsCyclic(parents, trail);
    }
    assert Chain(parents, trail);
    r := Ok(heads[0]);
  }

  lemma OnlyHead(parents: Parents, heads: seq<nat>, p: seq<nat>)
    requires Chain(parents, p) && Distinct(heads)
    requires forall v: nat :: v in heads <==> v < |parents| && !Referenced(parents, v)
    ensures |heads| == 1 && heads[0] == p[0]
  {
    ChainHead(parents, p, p[0]);
    assert p[0] in heads;
    forall i | 0 <= i < |heads| ensures heads[i] == p[0] {
      assert heads[i] in heads;
      ChainHead(parents, p, heads[i]);
    }
    DistinctSize(heads);
    assert Elements(heads) == {p[0]};
  }
}
