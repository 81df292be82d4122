/**
  Decoding a byte stream frame by frame, for any frame format a reader can judge
  from the bytes of the current frame alone.
 */
module FrameStream {
  import opened Base

  /** `Need` asks for that many bytes from the start of the frame. */
  datatype Step<+D, +E> = Need(total: nat) | Skip(end: nat) | Deliver(item: D, end: nat) | Fail(error: E)

  /** What a reader concludes from the bytes it has of the current frame. */
  type Reader<!D, !E> = Bytes -> Step<D, E>

  ghost predicate Fits<D, E>(b: Bytes, s: Step<D, E>)
  {
    match s
    case Need(total) => |b| < total
    case Skip(end) => 0 < end <= |b|
    case Deliver(_, end) => 0 < end <= |b|
    case Fail(_) => true
  }

  ghost predicate Bounded<D, E>(f: Reader<D, E>)
  {
    forall b :: Fits(b, f(b))
  }

  ghost predicate Stays<D, E>(f: Reader<D, E>, b: Bytes, more: Bytes)
  {
    f(b).Need? || f(b + more) == f(b)
  }

  /** A conclusion, once reached, does not depend on later bytes. */
  ghost predicate Stable<D, E>(f: Reader<D, E>)
  {
    Bounded(f) && forall b, more :: Stays(f, b, more)
  }

  /** The items of a byte stream, the bytes of its last unfinished frame, and what ended it. */
  datatype Decoding<+D, +E> = Decoding(items: seq<D>, rest: Bytes, error: Option<E>)

  ghost function Decode<D, E>(wire: Bytes, f: Reader<D, E>): (r: Decoding<D, E>)
    requires Bounded(f)
    decreases |wire|
  {
    assert Fits(wire, f(wire));
    match f(wire)
    case Need(_) => Decoding([], wire, None)
    case Fail(e) => Decoding([], wire, Some(e))
    case Skip(end) => Decode(wire[end..], f)
    case Deliver(d, end) =>
      var later := Decode(wire[end..], f);
      Decoding([d] + later.items, later.rest, later.error)
  }

  lemma {:induction false} RestNeeds<D, E>(wire: Bytes, f: Reader<D, E>)
    requires Bounded(f) && Decode(wire, f).error.None?
    ensures f(Decode(wire, f).rest).Need?
    decreases |wire|
  {
    assert Fits(wire, f(wire));
    var s := f(wire);
    if s.Skip? || s.Deliver? {
      RestNeeds(wire[s.end..], f);
    }
  }

  ghost predicate Resumes<D, E>(before: Decoding<D, E>, after: Decoding<D, E>, whole: Decoding<D, E>)
  {
    whole == Decoding(before.items + after.items, after.rest, after.error)
  }

  lemma ResumesLater<D, E>(d: D, before: Decoding<D, E>, after: Decoding<D, E>, whole: Decoding<D, E>)
    requires Resumes(before, after, whole)
    ensures Resumes(Decoding([d] + before.items, before.rest, before.error), after,
                    Decoding([d] + whole.items, whole.rest, whole.error))
  {
    assert [d] + before.items + after.items == [d] + (before.items + after.items);
  }

  /** Decoding resumes: what came before stays, and the unfinished frame is taken up again. */
  lemma {:induction false} DecodeResumes<D, E>(wire: Bytes, more: Bytes, f: Reader<D, E>)
    requires Stable(f) && Decode(wire, f).error.None?
    ensures Resumes(Decode(wire, f), Decode(Decode(wire, f).rest + more, f), Decode(wire + more, f))
    decreases |wire|
  {
    assert Fits(wire, f(wire)) && Stays(f, wire, more);
    var s := f(wire);
    if s.Skip? || s.Deliver? {
      var tail := wire[s.end..];
      assert (wire + more)[s.end..] == tail + more;
      DecodeResumes(tail, more, f);
      if s.Deliver? {
        var rest := Decode(tail, f).rest;
        ResumesLater(s.item, Decode(tail, f), Decode(rest + more, f), Decode(tail + more, f));
      }
    }
  }

  /** A failed decoding is not revised by later bytes. */
  lemma {:induction false} FailureIsFinal<D, E>(wire: Bytes, more: Bytes, f: Reader<D, E>)
    requires Stable(f) && Decode(wire, f).error.Some?
    ensures Decode(wire + more, f).items == Decode(wire, f).items
    ensures Decode(wire + more, f).error == Decode(wire, f).error
    decreases |wire|
  {
    assert Fits(wire, f(wire)) && Stays(f, wire, more);
    var s := f(wire);
    if s.Skip? || s.Deliver? {
      assert (wire + more)[s.end..] == wire[s.end..] + more;
      FailureIsFinal(wire[s.end..], more, f);
    }
  }

  /** Whatever part of a stream has been read, its items are a prefix of the whole stream's. */
  lemma ReadPrefixDelivers<D, E>(wire: Bytes, more: Bytes, f: Reader<D, E>)
    requires Stable(f)
    ensures Decode(wire, f).items <= Decode(wire + more, f).items
    ensures Decode(wire, f).error.Some? ==> Decode(wire + more, f).items == Decode(wire, f).items
  {
    if Decode(wire, f).error.None? {
      DecodeResumes(wire, more, f);
    } else {
      FailureIsFinal(wire, more, f);
    }
  }

  lemma ReadPartDelivers<D, E>(consumed: Bytes, b: Bytes, rest: Bytes, f: Reader<D, E>)
    requires Stable(f)
    ensures Decode(consumed + b, f).items <= Decode(consumed + (b + rest), f).items
    ensures rest == [] || Decode(consumed + b, f).error.Some? ==>
              Decode(consumed + b, f).items == Decode(consumed + (b + rest), f).items
  {
    ReadPrefixDelivers(consumed + b, rest, f);
    assert consumed + b + rest == consumed + (b + rest);
    assert rest == [] ==> consumed + b == consumed + (b + rest);
  }

  /** The bytes hold nothing beyond the frame they begin. */
  ghost predicate Aligned<D, E>(b: Bytes, s: Step<D, E>)
  {
    (s.Skip? || s.Deliver?) ==> s.end == |b|
  }

  ghost function Alone<D, E>(b: Bytes, s: Step<D, E>): (r: Decoding<D, E>)
  {
    match s
    case Need(_) => Decoding([], b, None)
    case Fail(e) => Decoding([], b, Some(e))
    case Skip(_) => Decoding([], [], None)
    case Deliver(d, _) => Decoding([d], [], None)
  }

  lemma OneFrame<D, E>(b: Bytes, f: Reader<D, E>)
    requires Bounded(f) && f([]).Need? && Aligned(b, f(b))
    ensures Decode(b, f) == Alone(b, f(b))
  {
    assert Fits(b, f(b));
    assert b[|b|..] == [];
    assert Decode([], f) == Decoding([], [], None);
  }

  /** What the bytes of one more frame add to a stream that ended on a frame boundary. */
  lemma Absorb<D, E>(whole: Bytes, items: seq<D>, b: Bytes, f: Reader<D, E>)
    requires Stable(f) && f([]).Need? && Aligned(b, f(b))
    requires Decode(whole, f) == Decoding(items, [], None)
    ensures Resumes(Decoding(items, [], None), Alone(b, f(b)), Decode(whole + b, f))
  {
    DecodeResumes(whole, b, f);
    assert [] + b == b;
    OneFrame(b, f);
  }
}
