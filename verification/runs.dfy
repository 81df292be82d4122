/** Runs of a loop over a schedule of inputs, for any state and any relation between turns. */
module Runs {
  import opened Base

  type Turning<!X, !P> = (X, P, X) -> bool

  /** The states of a run: it begins at `start` and takes one turn for each input so far. */
  ghost predicate RunsOver<X(!new), P(!new)>(start: X, turn: Turning<X, P>, inputs: seq<P>, trace: seq<X>)
    decreases |trace|
  {
    && 0 < |trace| <= |inputs| + 1
    && var n := |trace| - 1;
       if n == 0 then trace[0] == start
       else RunsOver(start, turn, inputs, trace[..n]) && turn(trace[n - 1], inputs[n - 1], trace[n])
  }

  lemma RunGoesOn<X(!new), P(!new)>(start: X, turn: Turning<X, P>, inputs: seq<P>, trace: seq<X>, next: X)
    requires RunsOver(start, turn, inputs, trace) && |trace| <= |inputs|
    requires turn(trace[|trace| - 1], inputs[|trace| - 1], next)
    ensures RunsOver(start, turn, inputs, trace + [next])
  {
    assert (trace + [next])[..|trace|] == trace;
  }

  /** What the turns of a run emit, in order. */
  ghost function Emitted<X, P, D>(emits: (X, P) -> seq<D>, inputs: seq<P>, trace: seq<X>): (items: seq<D>)
    requires 0 < |trace| <= |inputs| + 1
    decreases |trace|
  {
    var n := |trace| - 1;
    if n == 0 then [] else Emitted(emits, inputs, trace[..n]) + emits(trace[n - 1], inputs[n - 1])
  }

  ghost predicate Adds<X, P, D>(total: X -> seq<D>, emits: (X, P) -> seq<D>, s: X, input: P, t: X)
  {
    total(t) == total(s) + emits(s, input)
  }

  /** If every turn adds what it emits, a run adds exactly what its turns emitted. */
  lemma {:induction false} RunEmits<X(!new), P(!new), D>(
    start: X, turn: Turning<X, P>, total: X -> seq<D>, emits: (X, P) -> seq<D>, inputs: seq<P>, trace: seq<X>)
    requires RunsOver(start, turn, inputs, trace)
    requires forall s, input, t :: turn(s, input, t) ==> Adds(total, emits, s, input, t)
    ensures total(trace[|trace| - 1]) == total(start) + Emitted(emits, inputs, trace)
    decreases |trace|
  {
    var n := |trace| - 1;
    if n == 0 {
      Associate(total(start), [], []);
    } else {
      RunEmits(start, turn, total, emits, inputs, trace[..n]);
      assert Adds(total, emits, trace[n - 1], inputs[n - 1], trace[n]);
      Associate(total(start), Emitted(emits, inputs, trace[..n]), emits(trace[n - 1], inputs[n - 1]));
    }
  }

  /** From an empty beginning a run holds exactly what its turns emitted. */
  lemma RunEmitsAll<X(!new), P(!new), D>(
    start: X, turn: Turning<X, P>, total: X -> seq<D>, emits: (X, P) -> seq<D>, inputs: seq<P>, trace: seq<X>)
    requires RunsOver(start, turn, inputs, trace) && total(start) == []
    requires forall s, input, t :: turn(s, input, t) ==> Adds(total, emits, s, input, t)
    ensures total(trace[|trace| - 1]) == Emitted(emits, inputs, trace)
  {
    RunEmits(start, turn, total, emits, inputs, trace);
    assert [] + Emitted(emits, inputs, trace) == Emitted(emits, inputs, trace);
  }
}
