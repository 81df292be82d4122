/**
  Dependency-first ordering of a graph given by adjacency lists, where
  `adj[v]` lists what node `v` depends on, duplicates included.
 */
module Dag {
  import opened Base

  type Adjacency = seq<seq<nat>>

  ghost predicate WellFormed(adj: Adjacency)
  {
    forall v, i :: 0 <= v < |adj| && 0 <= i < |adj[v]| ==> adj[v][i] < |adj|
  }

  ghost predicate Edge(adj: Adjacency, v: nat, d: nat)
  {
    v < |adj| && d in adj[v]
  }

  /** A walk along dependencies. */
  ghost predicate Walk(adj: Adjacency, p: seq<nat>)
  {
    forall i :: 0 <= i < |p| - 1 ==> Edge(adj, p[i], p[i + 1])
  }

  ghost predicate IsCycle(adj: Adjacency, p: seq<nat>)
  {
    |p| >= 2 && p[0] == p[|p| - 1] && Walk(adj, p)
  }

  ghost predicate Cyclic(adj: Adjacency)
  {
    exists p :: IsCycle(adj, p)
  }

  ghost predicate AllIn(nodes: seq<nat>, done: seq<nat>)
  {
    forall d :: d in nodes ==> d in done
  }

  /** Every listed node comes after all it depends on. */
  ghost predicate DependenciesFirst(adj: Adjacency, order: seq<nat>)
  {
    forall i :: 0 <= i < |order| ==> order[i] < |adj| && AllIn(adj[order[i]], order[..i])
  }

  /** Every node once, and every dependency before its dependents. */
  ghost predicate DependencyOrder(adj: Adjacency, order: seq<nat>)
  {
    && Distinct(order)
    && (forall v: nat :: v < |adj| <==> v in order)
    && DependenciesFirst(adj, order)
  }

  // -------------------------------------------------------------- pigeonhole

  ghost function Elements(s: seq<nat>): (r: set<nat>)
    ensures forall x :: x in r <==> x in s
  {
    set x | x in s
  }

  lemma {:induction false} DistinctSize(s: seq<nat>)
    requires Distinct(s)
    ensures |Elements(s)| == |s|
  {
    if |s| > 0 {
      var n := |s| - 1;
      DistinctSize(s[..n]);
      assert s == s[..n] + [s[n]];
      assert Elements(s) == Elements(s[..n]) + {s[n]};
      assert s[n] !in s[..n];
    }
  }

  lemma {:induction false} BelowSize(r: set<nat>, n: nat)
    requires forall x :: x in r ==> x < n
    ensures |r| <= n
  {
    if n > 0 {
      BelowSize(r - {n - 1}, n - 1);
    } else {
      assert r == {};
    }
  }

  lemma DistinctBelow(s: seq<nat>, n: nat)
    requires Distinct(s) && forall i :: 0 <= i < |s| ==> s[i] < n
    ensures |s| <= n
  {
    DistinctSize(s);
    BelowSize(Elements(s), n);
  }

  lemma DistinctFull(s: seq<nat>, n: nat, v: nat)
    requires Distinct(s) && (forall i :: 0 <= i < |s| ==> s[i] < n) && |s| == n && v < n
    ensures v in s
  {
    if v !in s {
      DistinctBelow(s + [v], n);
    }
  }

  // ------------------------------------------------------- cycles and orders

  ghost predicate Blocked(adj: Adjacency, stuck: set<nat>, v: nat)
  {
    exists d :: d in stuck && Edge(adj, v, d)
  }

  /** Every node of `stuck` depends on a node of `stuck`. */
  ghost predicate Stuck(adj: Adjacency, stuck: set<nat>)
  {
    forall v {:trigger Blocked(adj, stuck, v)} :: v in stuck ==> v < |adj| && Blocked(adj, stuck, v)
  }

  lemma {:induction false} StuckWalk(adj: Adjacency, stuck: set<nat>, start: nat, length: nat) returns (p: seq<nat>)
    requires Stuck(adj, stuck) && start in stuck
    ensures |p| == length + 1 && Walk(adj, p) && forall i :: 0 <= i < |p| ==> p[i] in stuck
  {
    if length == 0 {
      return [start];
    }
    var front := StuckWalk(adj, stuck, start, length - 1);
    var last := front[|front| - 1];
    assert Blocked(adj, stuck, last);
    var d :| d in stuck && Edge(adj, last, d);
    p := front + [d];
  }

  lemma Repetition(p: seq<nat>, n: nat) returns (i: nat, j: nat)
    requires |p| > n && forall k :: 0 <= k < |p| ==> p[k] < n
    ensures i < j < |p| && p[i] == p[j]
  {
    if Distinct(p) {
      DistinctBelow(p, n);
      assert false;
    }
    i, j :| 0 <= i < j < |p| && p[i] == p[j];
  }

  lemma StuckIsCyclic(adj: Adjacency, stuck: set<nat>)
    requires Stuck(adj, stuck) && stuck != {}
    ensures Cyclic(adj)
  {
    var start :| start in stuck;
    var p := StuckWalk(adj, stuck, start, |adj|);
    forall k | 0 <= k < |p| ensures p[k] < |adj| {
      assert Blocked(adj, stuck, p[k]);
    }
    var i, j := Repetition(p, |adj|);
    var cycle := p[i..j + 1];
    forall k | 0 <= k < |cycle| - 1 ensures Edge(adj, cycle[k], cycle[k + 1]) {
      assert Edge(adj, p[i + k], p[i + k + 1]);
    }
    assert IsCycle(adj, cycle);
  }

  /** Along a walk the position in a dependency order strictly decreases. */
  lemma {:induction false} WalkDescends(adj: Adjacency, order: seq<nat>, p: seq<nat>, i: nat) returns (j: nat)
    requires DependencyOrder(adj, order) && Walk(adj, p) && |p| >= 2
    requires i < |order| && order[i] == p[0]
    ensures j < i && order[j] == p[|p| - 1]
    decreases |p|
  {
    assert Edge(adj, p[0], p[1]) && AllIn(adj[order[i]], order[..i]);
    j :| 0 <= j < i && order[j] == p[1];
    if |p| > 2 {
      var rest := p[1..];
      forall k | 0 <= k < |rest| - 1 ensures Edge(adj, rest[k], rest[k + 1]) {
        assert Edge(adj, p[k + 1], p[k + 2]);
      }
      j := WalkDescends(adj, order, rest, j);
    }
  }

  lemma OrderedIsAcyclic(adj: Adjacency, order: seq<nat>)
    requires DependencyOrder(adj, order)
    ensures !Cyclic(adj)
  {
    forall p | |p| >= 2 && Walk(adj, p) ensures p[0] != p[|p| - 1] {
      assert Edge(adj, p[0], p[1]);
      assert p[0] in order;
      var i :| 0 <= i < |order| && order[i] == p[0];
      var j := WalkDescends(adj, order, p, i);
    }
  }

  // ------------------------------------------------------------- edge counts

  /** How many entries of `nodes` are not in `done`. */
  ghost function Remaining(nodes: seq<nat>, done: seq<nat>): (n: nat)
  {
    if |nodes| == 0 then 0
    else Remaining(nodes[..|nodes| - 1], done) + if nodes[|nodes| - 1] in done then 0 else 1
  }

  ghost function Occurrences(nodes: seq<nat>, v: nat): (n: nat)
  {
    if |nodes| == 0 then 0
    else Occurrences(nodes[..|nodes| - 1], v) + if nodes[|nodes| - 1] == v then 1 else 0
  }

  lemma {:induction false} RemainingZero(nodes: seq<nat>, done: seq<nat>)
    ensures Remaining(nodes, done) == 0 <==> AllIn(nodes, done)
  {
    if |nodes| > 0 {
      var n := |nodes| - 1;
      RemainingZero(nodes[..n], done);
      assert nodes == nodes[..n] + [nodes[n]];
    }
  }

  lemma {:induction false} RemainingNone(nodes: seq<nat>)
    ensures Remaining(nodes, []) == |nodes|
  {
    if |nodes| > 0 { RemainingNone(nodes[..|nodes| - 1]); }
  }

  lemma {:induction false} RemainingSplit(nodes: seq<nat>, done: seq<nat>, v: nat)
    requires v !in done
    ensures Remaining(nodes, done) == Remaining(nodes, done + [v]) + Occurrences(nodes, v)
  {
    if |nodes| > 0 { RemainingSplit(nodes[..|nodes| - 1], done, v); }
  }

  lemma OccurrencesSnoc(nodes: seq<nat>, v: nat, x: nat)
    ensures Occurrences(nodes + [x], v) == Occurrences(nodes, v) + if x == v then 1 else 0
  {
    assert (nodes + [x])[..|nodes|] == nodes;
  }

  lemma {:induction false} OccurrencesCons(nodes: seq<nat>, v: nat)
    requires |nodes| > 0
    ensures Occurrences(nodes, v) == (if nodes[0] == v then 1 else 0) + Occurrences(nodes[1..], v)
  {
    if |nodes| > 1 {
      var front := nodes[..|nodes| - 1];
      OccurrencesCons(front, v);
      assert front[1..] == nodes[1..][..|nodes| - 2];
    } else {
      assert nodes[..0] == [] && nodes[1..] == [];
    }
  }

  // ------------------------------------------------------ Kahn's algorithm

  /** `dependents[d]` lists `v` as often as `adj[v]` lists `d`. */
  ghost predicate Reverses(adj: Adjacency, dependents: Adjacency)
  {
    && |dependents| == |adj| && WellFormed(dependents)
    && forall d, v :: 0 <= d < |adj| && 0 <= v < |adj| ==> Occurrences(dependents[d], v) == Occurrences(adj[v], d)
  }

  /** Counts of unmet dependencies, and the nodes that have none: queued or already ordered. */
  ghost predicate Progress(adj: Adjacency, counts: seq<nat>, ready: seq<nat>, order: seq<nat>, pending: seq<nat>)
  {
    && |counts| == |adj|
    && Distinct(order + ready)
    && (forall v: nat :: v < |adj| ==> counts[v] == Remaining(adj[v], order) + Occurrences(pending, v))
    && (forall v: nat :: v in order + ready <==> v < |adj| && counts[v] == 0)
    && DependenciesFirst(adj, order)
  }

  lemma PopReady(adj: Adjacency, dependents: Adjacency, counts: seq<nat>, ready: seq<nat>, order: seq<nat>)
    requires Reverses(adj, dependents) && Progress(adj, counts, ready, order, []) && |ready| > 0
    ensures ready[0] < |adj|
    ensures Progress(adj, counts, ready[1..], order + [ready[0]], dependents[ready[0]])
    ensures |order| < |adj|
  {
    var v := ready[0];
    assert (order + ready)[|order|] == v;
    assert v in order + ready;
    assert (order + [v]) + ready[1..] == order + ready;
    forall i | 0 <= i < |order| ensures order[i] != v {
      assert (order + ready)[i] != (order + ready)[|order|];
    }
    RemainingZero(adj[v], order);
    forall u: nat | u < |adj|
      ensures counts[u] == Remaining(adj[u], order + [v]) + Occurrences(dependents[v], u)
    {
      RemainingSplit(adj[u], order, v);
    }
    FirstExtends(adj, order, v);
    forall i | 0 <= i < |order + [v]| ensures (order + [v])[i] < |adj| { }
    assert Distinct(order + [v]) by {
      forall i, j | 0 <= i < j < |order + [v]| ensures (order + [v])[i] != (order + [v])[j] {
        assert (order + ready)[i] != (order + ready)[j];
      }
    }
    DistinctBelow(order + [v], |adj|);
  }

  lemma FirstExtends(adj: Adjacency, order: seq<nat>, v: nat)
    requires DependenciesFirst(adj, order) && v < |adj| && AllIn(adj[v], order)
    ensures DependenciesFirst(adj, order + [v])
  {
    var longer := order + [v];
    forall i | 0 <= i < |longer| ensures longer[i] < |adj| && AllIn(adj[longer[i]], longer[..i]) {
      if i < |order| {
        assert longer[..i] == order[..i];
      } else {
        assert longer[..i] == order;
      }
    }
  }

  /** One pending dependent gives up one unmet dependency, and is queued when that was its last. */
  lemma ReleaseOne(adj: Adjacency, counts: seq<nat>, ready: seq<nat>, order: seq<nat>, pending: seq<nat>)
    requires Progress(adj, counts, ready, order, pending) && |pending| > 0 && pending[0] < |adj|
    ensures counts[pending[0]] > 0
    ensures var v := pending[0];
            var left := counts[v := counts[v] - 1];
            Progress(adj, left, if left[v] == 0 then ready + [v] else ready, order, pending[1..])
  {
    var v := pending[0];
    OccurrencesCons(pending, v);
    var left := counts[v := counts[v] - 1];
    forall u: nat | u < |adj|
      ensures left[u] == Remaining(adj[u], order) + Occurrences(pending[1..], u)
    {
      OccurrencesCons(pending, u);
    }
    assert v !in order + ready;
    assert order + (ready + [v]) == (order + ready) + [v];
  }

  ghost function Below(n: nat): (r: set<nat>)
    ensures |r| == n && forall i: nat :: i in r <==> i < n
  {
    if n == 0 then {} else Below(n - 1) + {n - 1}
  }

  lemma SomeMissing(s: seq<nat>, n: nat) returns (v: nat)
    requires Distinct(s) && |s| < n
    ensures v < n && v !in s
  {
    DistinctSize(s);
    var all := Below(n);
    if all <= Elements(s) {
      SubsetSize(all, Elements(s));
      assert false;
    }
    v :| v in all && v !in Elements(s);
  }

  lemma SubsetSize(a: set<nat>, b: set<nat>)
    requires a <= b
    ensures |a| <= |b|
  {
    assert b == a + (b - a);
  }

  /** With the queue empty the order is complete exactly when there is no cycle. */
  lemma Exhausted(adj: Adjacency, counts: seq<nat>, order: seq<nat>)
    requires WellFormed(adj) && Progress(adj, counts, [], order, [])
    ensures |order| == |adj| <==> !Cyclic(adj)
    ensures |order| == |adj| ==> DependencyOrder(adj, order)
  {
    assert order + [] == order;
    forall i | 0 <= i < |order| ensures order[i] < |adj| {
      assert order[i] in order;
    }
    DistinctBelow(order, |adj|);
    if |order| == |adj| {
      forall v: nat | v < |adj| ensures v in order {
        DistinctFull(order, |adj|, v);
      }
      OrderedIsAcyclic(adj, order);
    } else {
      var stuck := set v: nat | v < |adj| && v !in order;
      var missing := SomeMissing(order, |adj|);
      assert missing in stuck;
      LeftoversAreStuck(adj, counts, order, stuck);
      StuckIsCyclic(adj, stuck);
    }
  }

  lemma LeftoversAreStuck(adj: Adjacency, counts: seq<nat>, order: seq<nat>, stuck: set<nat>)
    requires WellFormed(adj) && Progress(adj, counts, [], order, [])
    requires stuck == set v: nat | v < |adj| && v !in order
    ensures Stuck(adj, stuck)
  {
    forall v | v in stuck ensures v < |adj| && Blocked(adj, stuck, v) {
      assert order + [] == order;
      RemainingZero(adj[v], order);
      assert !AllIn(adj[v], order);
      var d :| d in adj[v] && d !in order;
      var i :| 0 <= i < |adj[v]| && adj[v][i] == d;
      assert Edge(adj, v, d) && d in stuck;
    }
  }

  /** Moves every dependent of a node just ordered one dependency nearer to ready. */
  method Release(counts: seq<nat>, ready: seq<nat>, dependents: seq<nat>, ghost adj: Adjacency, ghost order: seq<nat>)
    returns (left: seq<nat>, queue: seq<nat>)
    requires Progress(adj, counts, ready, order, dependents)
    requires forall i :: 0 <= i < |dependents| ==> dependents[i] < |adj|
    ensures Progress(adj, left, queue, order, [])
  {
    left, queue := counts, ready;
    assert dependents[0..] == dependents;
    for j := 0 to |dependents|
      invariant Progress(adj, left, queue, order, dependents[j..])
    {
      ReleaseOne(adj, left, queue, order, dependents[j..]);
      assert dependents[j..][1..] == dependents[j + 1..];
      var v := dependents[j];
      left := left[v := left[v] - 1];
      if left[v] == 0 {
        queue := queue + [v];
      }
    }
    assert dependents[|dependents|..] == [];
  }

  method ReadyNodes(counts: seq<nat>) returns (ready: seq<nat>)
    ensures Distinct(ready)
    ensures forall v: nat :: v in ready <==> v < |counts| && counts[v] == 0
  {
    ready := [];
    for v := 0 to |counts|
      invariant Distinct(ready)
      invariant forall u: nat :: u in ready <==> u < v && counts[u] == 0
    {
      if counts[v] == 0 {
        ready := ready + [v];
      }
    }
  }

  /** The queue-driven ordering: complete exactly when the graph has no cycle. */
  method Order(initial: seq<nat>, dependents: Adjacency, ghost adj: Adjacency) returns (order: seq<nat>)
    requires WellFormed(adj) && Reverses(adj, dependents)
    requires |initial| == |adj| && forall v :: 0 <= v < |adj| ==> initial[v] == |adj[v]|
    ensures |order| == |adj| <==> !Cyclic(adj)
    ensures |order| == |adj| ==> DependencyOrder(adj, order)
  {
    var counts := initial;
    var ready := ReadyNodes(counts);
    order := [];
    forall v: nat | v < |adj|
      ensures counts[v] == Remaining(adj[v], order) + Occurrences([], v)
    {
      RemainingNone(adj[v]);
    }
    assert order + ready == ready;
    while |ready| > 0
      invariant Progress(adj, counts, ready, order, [])
      invariant |order| <= |adj|
      decreases |adj| - |order|
    {
      PopReady(adj, dependents, counts, ready, order);
      var next := ready[0];
      order := order + [next];
      counts, ready := Release(counts, ready[1..], dependents[next], adj, order);
    }
    assert ready == [];
    Exhausted(adj, counts, order);
  }
}
