/**
  The CRYPTO stream of one connection attempt. Its meaning is a partial map from
  stream offset to byte; the retained buffer and range list of the sniffer are
  one way to store that map.
 */
module CryptoStream {
  import opened Base
  import opened Ranges
  import Hello = ClientHello

  datatype Outcome =
    | NeedMoreData
    | Matched(domain: string)
    | EchExtensionPresent
    | NotMatched
    | LimitReached

  const MAX_CRYPTO_BYTES: nat := 16 * 1024
  const MAX_RANGES: nat := 64

  type View = map<nat, Byte>

  datatype Fragment = Fragment(offset: nat, data: Bytes)
  {
    predicate Holds(x: nat)
    {
      offset <= x < offset + |data|
    }

    function At(x: nat): Byte
      requires Holds(x)
    {
      data[x - offset]
    }

    ghost function View(): View
    {
      map x: nat | offset <= x < offset + |data| && Holds(x) :: At(x)
    }

    /** The two fragments carry the same byte wherever they overlap. */
    ghost predicate Agrees(other: Fragment)
    {
      forall x: nat :: Holds(x) && other.Holds(x) ==> At(x) == other.At(x)
    }

    ghost predicate Fits(view: View)
    {
      forall x: nat :: Holds(x) && x in view ==> view[x] == At(x)
    }
  }

  /** `insert_crypto` on the map: conflicts first, then the fragmentation limit. */
  ghost function Insert(view: View, fragment: Fragment): (r: Result<View, Outcome>)
  {
    if |fragment.data| == 0 then Ok(view)
    else if !fragment.Fits(view) then Err(NotMatched)
    else if |Starts((view + fragment.View()).Keys)| > MAX_RANGES then Err(LimitReached)
    else Ok(view + fragment.View())
  }

  // ------------------------------------------------- any order of fragments

  /** A fresh stream after all the fragments, unless one of them was refused. */
  ghost function InsertAll(fragments: seq<Fragment>): (r: Result<View, Outcome>)
  {
    if |fragments| == 0 then Ok(map[])
    else match InsertAll(fragments[..|fragments| - 1])
      case Err(outcome) => Err(outcome)
      case Ok(view) => Insert(view, fragments[|fragments| - 1])
  }

  ghost predicate Covered(fragments: seq<Fragment>, x: nat)
  {
    exists i :: 0 <= i < |fragments| && fragments[i].Holds(x)
  }

  ghost function Offsets(fragments: seq<Fragment>): (offsets: set<nat>)
    ensures forall x: nat :: x in offsets <==> Covered(fragments, x)
  {
    if |fragments| == 0 then {}
    else
      var n := |fragments| - 1;
      CoveredStep(fragments);
      Offsets(fragments[..n]) + fragments[n].View().Keys
  }

  lemma CoveredStep(fragments: seq<Fragment>)
    requires |fragments| > 0
    ensures var n := |fragments| - 1;
      forall x: nat :: Covered(fragments, x) <==> Covered(fragments[..n], x) || fragments[n].Holds(x)
  {
    var n := |fragments| - 1;
    var front := fragments[..n];
    forall x: nat ensures Covered(fragments, x) <==> Covered(front, x) || fragments[n].Holds(x) {
      if Covered(front, x) {
        var i :| 0 <= i < |front| && front[i].Holds(x);
        assert fragments[i].Holds(x);
      }
      if Covered(fragments, x) {
        var i :| 0 <= i < |fragments| && fragments[i].Holds(x);
        assert i == n || front[i].Holds(x);
      }
    }
  }

  /** `view` holds exactly what the fragments hold. */
  ghost predicate IsUnion(view: View, fragments: seq<Fragment>)
  {
    && view.Keys == Offsets(fragments)
    && forall i :: 0 <= i < |fragments| ==> fragments[i].Fits(view)
  }

  ghost predicate Consistent(fragments: seq<Fragment>)
  {
    forall i, j :: 0 <= i < j < |fragments| ==> fragments[i].Agrees(fragments[j])
  }

  ghost predicate RangeLimitKept(fragments: seq<Fragment>)
  {
    |Starts(Offsets(fragments))| <= MAX_RANGES
  }

  ghost predicate EveryPrefix<T>(kept: seq<T> -> bool, items: seq<T>)
  {
    forall k :: 0 <= k <= |items| ==> kept(items[..k])
  }

  /** No arrival breaks the range limit at the moment it is inserted. */
  ghost predicate WithinLimit(fragments: seq<Fragment>)
  {
    EveryPrefix(RangeLimitKept, fragments)
  }

  lemma FitsIffAgrees(view: View, front: seq<Fragment>, last: Fragment)
    requires IsUnion(view, front)
    ensures last.Fits(view) <==> forall i :: 0 <= i < |front| ==> front[i].Agrees(last)
  {
    if last.Fits(view) {
      forall i | 0 <= i < |front| ensures front[i].Agrees(last) {
        forall x: nat | front[i].Holds(x) && last.Holds(x) ensures front[i].At(x) == last.At(x) {
          assert Covered(front, x) && front[i].Fits(view);
        }
      }
    }
    if forall i :: 0 <= i < |front| ==> front[i].Agrees(last) {
      forall x: nat | last.Holds(x) && x in view ensures view[x] == last.At(x) {
        assert Covered(front, x);
        var i :| 0 <= i < |front| && front[i].Holds(x);
        assert front[i].Fits(view) && front[i].Agrees(last);
      }
    }
  }

  lemma ConsistentStep(front: seq<Fragment>, last: Fragment)
    ensures Consistent(front + [last]) <==>
      (Consistent(front) && forall i :: 0 <= i < |front| ==> front[i].Agrees(last))
  {
    var fragments := front + [last];
    if Consistent(fragments) {
      forall i, j | 0 <= i < j < |front| ensures front[i].Agrees(front[j]) {
        assert fragments[i].Agrees(fragments[j]);
      }
      forall i | 0 <= i < |front| ensures front[i].Agrees(last) {
        assert fragments[i].Agrees(fragments[|front|]);
      }
    }
  }

  lemma EveryPrefixStep<T>(kept: seq<T> -> bool, front: seq<T>, last: T)
    ensures EveryPrefix(kept, front + [last]) <==> EveryPrefix(kept, front) && kept(front + [last])
  {
    var items := front + [last];
    assert items[..|items|] == items;
    assert forall k :: 0 <= k <= |front| ==> items[..k] == front[..k];
  }

  lemma WithinLimitStep(front: seq<Fragment>, last: Fragment)
    ensures WithinLimit(front + [last]) <==> WithinLimit(front) && RangeLimitKept(front + [last])
  {
    EveryPrefixStep(RangeLimitKept, front, last);
  }

  lemma WithinLimitNow(fragments: seq<Fragment>)
    requires WithinLimit(fragments)
    ensures RangeLimitKept(fragments)
  {
    assert fragments[..|fragments|] == fragments;
  }

  lemma OffsetsStep(front: seq<Fragment>, last: Fragment)
    ensures Offsets(front + [last]) == Offsets(front) + last.View().Keys
    ensures |last.data| == 0 ==> Offsets(front + [last]) == Offsets(front)
  {
    assert (front + [last])[..|front|] == front;
    assert |last.data| == 0 ==> last.View().Keys == {};
  }

  lemma UnionStep(view: View, front: seq<Fragment>, last: Fragment)
    requires IsUnion(view, front) && last.Fits(view)
    ensures IsUnion(view + last.View(), front + [last])
  {
    OffsetsStep(front, last);
    JoinedKeys(view, last.View());
    AllStillFit(view, front, last);
  }

  lemma EmptyJoins(view: View, last: Fragment)
    requires |last.data| == 0
    ensures view + last.View() == view
  {
    assert last.View() == map[];
  }

  lemma JoinedKeys(left: View, right: View)
    ensures (left + right).Keys == left.Keys + right.Keys
  {
  }

  lemma AllStillFit(view: View, front: seq<Fragment>, last: Fragment)
    requires IsUnion(view, front) && last.Fits(view)
    ensures forall i :: 0 <= i < |front| + 1 ==> (front + [last])[i].Fits(view + last.View())
  {
    var fragments := front + [last];
    FitsIffAgrees(view, front, last);
    forall i | 0 <= i < |fragments| ensures fragments[i].Fits(view + last.View()) {
      if i < |front| {
        StillFits(view, front[i], last);
      }
    }
  }

  lemma StillFits(view: View, fragment: Fragment, last: Fragment)
    requires fragment.Fits(view) && fragment.Agrees(last)
    ensures fragment.Fits(view + last.View())
  {
  }

  /** One arrival after a successful prefix. */
  lemma InsertStep(view: View, front: seq<Fragment>, last: Fragment)
    requires IsUnion(view, front) && Consistent(front) && WithinLimit(front)
    ensures match Insert(view, last)
      case Ok(next) => Consistent(front + [last]) && WithinLimit(front + [last]) && IsUnion(next, front + [last])
      case Err(NotMatched) => !Consistent(front + [last])
      case Err(outcome) => outcome == LimitReached && Consistent(front + [last]) && !WithinLimit(front + [last])
  {
    FitsIffAgrees(view, front, last);
    ConsistentStep(front, last);
    if last.Fits(view) {
      WithinLimitStep(front, last);
      UnionStep(view, front, last);
      if |last.data| == 0 {
        OffsetsStep(front, last);
        EmptyJoins(view, last);
        WithinLimitNow(front);
      } else {
        assert (view + last.View()).Keys == Offsets(front + [last]);
      }
    }
  }

  /**
    Fragments are all accepted exactly when they agree pairwise and the range
    limit holds at every arrival; the stream is then their union.
   */
  lemma {:induction false} InsertAllExact(fragments: seq<Fragment>)
    ensures InsertAll(fragments).Ok? <==> Consistent(fragments) && WithinLimit(fragments)
    ensures InsertAll(fragments).Ok? ==> IsUnion(InsertAll(fragments).value, fragments)
  {
    if |fragments| == 0 {
      assert fragments[..0] == [];
      assert Starts(Offsets(fragments)) == {};
    } else {
      var n := |fragments| - 1;
      var front, last := fragments[..n], fragments[n];
      assert fragments == front + [last];
      InsertAllExact(front);
      if InsertAll(front).Ok? {
        InsertStep(InsertAll(front).value, front, last);
      } else {
        ConsistentStep(front, last);
        WithinLimitStep(front, last);
      }
    }
  }

  /** The fragment at `k` is the first refused one; a conflict is reported even where the limit is broken too. */
  ghost predicate RefusedAt(fragments: seq<Fragment>, k: nat)
  {
    && k < |fragments| && InsertAll(fragments[..k]).Ok?
    && InsertAll(fragments) == Err(if Consistent(fragments[..k + 1]) then LimitReached else NotMatched)
  }

  lemma RefusedStays(front: seq<Fragment>, last: Fragment, k: nat)
    requires RefusedAt(front, k)
    ensures RefusedAt(front + [last], k)
  {
    var fragments := front + [last];
    assert fragments[..|front|] == front;
    assert fragments[..k] == front[..k] && fragments[..k + 1] == front[..k + 1];
  }

  /** The reason is the limit unless the fragments conflict, and the conflict unless the limit is broken. */
  ghost predicate ReasonFits(fragments: seq<Fragment>, reason: Outcome)
  {
    (Consistent(fragments) ==> reason == LimitReached) && (WithinLimit(fragments) ==> reason == NotMatched)
  }

  lemma LastRefused(front: seq<Fragment>, last: Fragment)
    requires InsertAll(front).Ok? && InsertAll(front + [last]).Err?
    ensures RefusedAt(front + [last], |front|) && ReasonFits(front + [last], InsertAll(front + [last]).error)
  {
    var fragments := front + [last];
    assert fragments[..|front|] == front && fragments[..|front| + 1] == fragments;
    InsertAllExact(front);
    InsertStep(InsertAll(front).value, front, last);
  }

  /** What a refused run reports is decided by its first refused fragment. */
  lemma {:induction false} RefusalReason(fragments: seq<Fragment>) returns (k: nat)
    requires InsertAll(fragments).Err?
    ensures RefusedAt(fragments, k) && ReasonFits(fragments, InsertAll(fragments).error)
  {
    var n := |fragments| - 1;
    var front, last := fragments[..n], fragments[n];
    assert fragments == front + [last];
    if InsertAll(front).Ok? {
      LastRefused(front, last);
      k := n;
    } else {
      k := RefusalReason(front);
      RefusedStays(front, last, k);
      ConsistentStep(front, last);
      WithinLimitStep(front, last);
    }
  }

  lemma UnionAt(view: View, fragments: seq<Fragment>, x: nat)
    requires IsUnion(view, fragments)
    ensures x in view <==> Covered(fragments, x)
    ensures forall i :: 0 <= i < |fragments| && fragments[i].Holds(x) ==> x in view && view[x] == fragments[i].At(x)
  {
    forall i | 0 <= i < |fragments| && fragments[i].Holds(x) ensures x in view && view[x] == fragments[i].At(x) {
      assert Covered(fragments, x) && fragments[i].Fits(view);
    }
  }

  ghost predicate AllIn(left: seq<Fragment>, right: seq<Fragment>)
  {
    forall f :: f in left ==> f in right
  }

  lemma UnionContained(left: View, right: View, leftFragments: seq<Fragment>, rightFragments: seq<Fragment>)
    requires IsUnion(left, leftFragments) && IsUnion(right, rightFragments)
    requires AllIn(leftFragments, rightFragments)
    ensures Extends(right, left)
  {
    forall x: nat | x in left ensures x in right && right[x] == left[x] {
      UnionAt(left, leftFragments, x);
      var i :| 0 <= i < |leftFragments| && leftFragments[i].Holds(x);
      assert leftFragments[i] in rightFragments;
      var j :| 0 <= j < |rightFragments| && rightFragments[j] == leftFragments[i];
      UnionAt(right, rightFragments, x);
    }
  }

  /** The same fragments in any order and any multiplicity give the same stream. */
  lemma OrderIndependent(left: seq<Fragment>, right: seq<Fragment>)
    requires InsertAll(left).Ok? && InsertAll(right).Ok?
    requires AllIn(left, right) && AllIn(right, left)
    ensures InsertAll(left) == InsertAll(right)
  {
    InsertAllExact(left);
    InsertAllExact(right);
    var a, b := InsertAll(left).value, InsertAll(right).value;
    UnionContained(a, b, left, right);
    UnionContained(b, a, right, left);
    MutualExtends(a, b);
  }

  lemma MutualExtends(a: View, b: View)
    requires Extends(a, b) && Extends(b, a)
    ensures a == b
  {
  }

  // -------------------------------------------------------- the ClientHello

  /** The first `n` bytes of the stream are all known. */
  ghost predicate Have(view: View, n: nat)
  {
    forall x: nat :: x < n ==> x in view
  }

  ghost function Prefix(view: View, n: nat): (bytes: Bytes)
    requires Have(view, n)
    ensures |bytes| == n
  {
    seq(n, x requires 0 <= x < n => view[x])
  }

  function FromHello(outcome: Hello.ParseOutcome): (r: Outcome)
    ensures r != NeedMoreData
  {
    match outcome
    case Matched(domain) => Matched(domain)
    case EchExtensionPresent => EchExtensionPresent
    case NeedMoreData => NotMatched
    case NotMatched => NotMatched
  }

  function Judge(normalize: Hello.Normalizer): (judge: Bytes -> Outcome)
  {
    handshake => FromHello(Hello.HelloOutcome(normalize, handshake))
  }

  /** Waits for a whole handshake message of an acceptable type and size, then judges it. */
  ghost function TryWith(judge: Bytes -> Outcome, view: View): (r: Outcome)
  {
    if !Have(view, 4) then NeedMoreData
    else if view[0] != Hello.TLS_CLIENT_HELLO_TYPE then NotMatched
    else
      var total := 4 + U24(view[1], view[2], view[3]);
      if total > MAX_CRYPTO_BYTES then LimitReached
      else if !Have(view, total) then NeedMoreData
      else judge(Prefix(view, total))
  }

  /** `try_client_hello` on the map. */
  ghost function TryHello(normalize: Hello.Normalizer, view: View): (r: Outcome)
  {
    TryWith(Judge(normalize), view)
  }

  ghost predicate Extends(longer: View, shorter: View)
  {
    forall x: nat :: x in shorter ==> x in longer && longer[x] == shorter[x]
  }

  lemma InsertExtends(view: View, fragment: Fragment)
    ensures Insert(view, fragment).Ok? ==> Extends(Insert(view, fragment).value, view)
  {
  }

  lemma ExtendsThrough(longest: View, longer: View, shorter: View)
    requires Extends(longest, longer) && Extends(longer, shorter)
    ensures Extends(longest, shorter)
  {
  }

  /** A decided answer holds for every stream that knows more. */
  lemma DecisionPersists(normalize: Hello.Normalizer, longer: View, shorter: View)
    requires Extends(longer, shorter) && TryHello(normalize, shorter) != NeedMoreData
    ensures TryHello(normalize, longer) == TryHello(normalize, shorter)
  {
    TryPersists(Judge(normalize), longer, shorter);
  }

  lemma TryPersists(judge: Bytes -> Outcome, longer: View, shorter: View)
    requires Extends(longer, shorter) && TryWith(judge, shorter) != NeedMoreData
    ensures TryWith(judge, longer) == TryWith(judge, shorter)
  {
    SamePrefix(longer, shorter, 4);
    var total := 4 + U24(shorter[1], shorter[2], shorter[3]);
    if Have(shorter, total) {
      SamePrefix(longer, shorter, total);
    }
  }

  lemma SamePrefix(longer: View, shorter: View, n: nat)
    requires Extends(longer, shorter) && Have(shorter, n)
    ensures Have(longer, n) && Prefix(longer, n) == Prefix(shorter, n)
    ensures forall x: nat :: x < n ==> longer[x] == shorter[x]
  {
  }

  ghost predicate CutFrom(fragment: Fragment, stream: Bytes)
  {
    fragment.offset + |fragment.data| <= |stream|
    && fragment.data == stream[fragment.offset..fragment.offset + |fragment.data|]
  }

  /**
    A hello cut into overlapping fragments that arrive in any order, with
    anything of the stream behind it, is judged as the unfragmented hello.
   */
  lemma FragmentedHello(normalize: Hello.Normalizer, fragments: seq<Fragment>, stream: Bytes, total: nat)
    requires InsertAll(fragments).Ok?
    requires forall i :: 0 <= i < |fragments| ==> CutFrom(fragments[i], stream)
    requires 4 <= total <= |stream| && total <= MAX_CRYPTO_BYTES
    requires total == 4 + U24(stream[1], stream[2], stream[3])
    requires forall x: nat :: x < total ==> Covered(fragments, x)
    ensures TryHello(normalize, InsertAll(fragments).value)
         == FromHello(Hello.HelloOutcome(normalize, stream[..total]))
  {
    var view := InsertAll(fragments).value;
    InsertAllExact(fragments);
    UnionOfCuts(view, fragments, stream, total);
    KnownHello(normalize, view, stream, total);
  }

  lemma UnionOfCuts(view: View, fragments: seq<Fragment>, stream: Bytes, total: nat)
    requires IsUnion(view, fragments) && total <= |stream|
    requires forall i :: 0 <= i < |fragments| ==> CutFrom(fragments[i], stream)
    requires forall x: nat :: x < total ==> Covered(fragments, x)
    ensures forall x: nat :: x < total ==> x in view && view[x] == stream[x]
  {
    forall x: nat | x < total ensures x in view && view[x] == stream[x] {
      assert Covered(fragments, x);
      var i :| 0 <= i < |fragments| && fragments[i].Holds(x);
      UnionAt(view, fragments, x);
      assert CutFrom(fragments[i], stream);
    }
  }

  lemma KnownHello(normalize: Hello.Normalizer, view: View, stream: Bytes, total: nat)
    requires 4 <= total <= |stream| && total <= MAX_CRYPTO_BYTES
    requires total == 4 + U24(stream[1], stream[2], stream[3])
    requires forall x: nat :: x < total ==> x in view && view[x] == stream[x]
    ensures TryHello(normalize, view) == FromHello(Hello.HelloOutcome(normalize, stream[..total]))
  {
    if stream[0] != Hello.TLS_CLIENT_HELLO_TYPE {
      NotAHello(normalize, stream[..total]);
    }
    KnownTry(Judge(normalize), view, stream, total);
  }

  lemma KnownTry(judge: Bytes -> Outcome, view: View, stream: Bytes, total: nat)
    requires 4 <= total <= |stream| && total <= MAX_CRYPTO_BYTES
    requires total == 4 + U24(stream[1], stream[2], stream[3])
    requires forall x: nat :: x < total ==> x in view && view[x] == stream[x]
    requires stream[0] != Hello.TLS_CLIENT_HELLO_TYPE ==> judge(stream[..total]) == NotMatched
    ensures TryWith(judge, view) == judge(stream[..total])
  {
    PrefixOf(view, stream, 4);
    PrefixOf(view, stream, total);
  }

  lemma NotAHello(normalize: Hello.Normalizer, handshake: Bytes)
    requires |handshake| >= 4 && handshake[0] != Hello.TLS_CLIENT_HELLO_TYPE
    ensures Hello.HelloOutcome(normalize, handshake) == Hello.NotMatched
  {
  }

  lemma PrefixOf(view: View, stream: Bytes, n: nat)
    requires n <= |stream|
    requires forall x: nat :: x < n ==> x in view && view[x] == stream[x]
    ensures Have(view, n) && Prefix(view, n) == stream[..n]
  {
  }
}
