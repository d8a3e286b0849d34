/**
 Incremental framing. Every receiver of the system keeps a buffer, appends what
 arrives, and cuts frames off its front until no complete frame is left. The
 theorem here says when the chunking of the input cannot be observed.
 */
module Framing {

  /** What one look at the front of the buffer yields. */
  datatype Cut<+F> = Wait | Frame(item: F, used: nat)

  ghost predicate Progresses<T(!new), F(!new)>(next: seq<T> -> Cut<F>) {
    forall s: seq<T> :: next(s).Frame? ==> 0 < next(s).used <= |s|
  }

  ghost predicate StableAt<T(!new), F(!new)>(next: seq<T> -> Cut<F>, s: seq<T>, t: seq<T>) {
    next(s).Frame? ==> next(s + t) == next(s)
  }

  /** A frame, once visible, does not change when more input arrives behind it. */
  ghost predicate Stable<T(!new), F(!new)>(next: seq<T> -> Cut<F>) {
    forall s: seq<T>, t: seq<T> :: StableAt(next, s, t)
  }

  datatype Result<F, T> = Result(items: seq<F>, rest: seq<T>)

  function Prepend<F, T>(items: seq<F>, r: Result<F, T>): Result<F, T> {
    Result(items + r.items, r.rest)
  }

  lemma PrependNothing<F, T>(r: Result<F, T>)
    ensures Prepend([], r) == r
  {
  }

  lemma PrependTwice<F, T>(a: seq<F>, b: seq<F>, r: Result<F, T>)
    ensures Prepend(a, Prepend(b, r)) == Prepend(a + b, r)
  {
    assert a + (b + r.items) == (a + b) + r.items;
  }

  /** One greedy pass over all the input at once. */
  ghost function Drain<T(!new), F(!new)>(next: seq<T> -> Cut<F>, s: seq<T>): Result<F, T>
    requires Progresses(next)
    decreases |s|
  {
    match next(s)
    case Wait => Result([], s)
    case Frame(item, used) => Prepend([item], Drain(next, s[used..]))
  }

  /** The same input, arriving in chunks. */
  ghost function Feed<T(!new), F(!new)>(next: seq<T> -> Cut<F>, buffer: seq<T>, chunks: seq<seq<T>>): Result<F, T>
    requires Progresses(next)
    decreases |chunks|
  {
    if chunks == [] then Result([], buffer)
    else
      var r := Drain(next, buffer + chunks[0]);
      Prepend(r.items, Feed(next, r.rest, chunks[1..]))
  }

  function Flatten<T>(chunks: seq<seq<T>>): seq<T> {
    if chunks == [] then [] else chunks[0] + Flatten(chunks[1..])
  }

  lemma {:induction false} FlattenAppend<T>(a: seq<seq<T>>, b: seq<seq<T>>)
    ensures Flatten(a + b) == Flatten(a) + Flatten(b)
  {
    if a == [] {
      assert a + b == b;
    } else {
      assert (a + b)[1..] == a[1..] + b;
      FlattenAppend(a[1..], b);
    }
  }

  /** What a greedy pass leaves behind contains no further frame. */
  lemma {:induction false} DrainIsComplete<T(!new), F(!new)>(next: seq<T> -> Cut<F>, s: seq<T>)
    requires Progresses(next)
    ensures next(Drain(next, s).rest).Wait?
    ensures |Drain(next, s).rest| <= |s|
    ensures Drain(next, s).rest == s[|s| - |Drain(next, s).rest|..]
    decreases |s|
  {
    match next(s)
    case Wait =>
    case Frame(_, used) => DrainIsComplete(next, s[used..]);
  }

  /** Input split in two: drain the first part, then what it left plus the second part. */
  lemma {:induction false} DrainSplit<T(!new), F(!new)>(next: seq<T> -> Cut<F>, s: seq<T>, t: seq<T>)
    requires Progresses(next) && Stable(next)
    ensures Drain(next, s + t) == Prepend(Drain(next, s).items, Drain(next, Drain(next, s).rest + t))
    decreases |s|
  {
    if next(s).Wait? {
      PrependNothing(Drain(next, s + t));
    } else {
      assert StableAt(next, s, t);
      var item, used := next(s).item, next(s).used;
      var tail := s[used..];
      assert (s + t)[used..] == tail + t;
      DrainSplit(next, tail, t);
      PrependTwice([item], Drain(next, tail).items, Drain(next, Drain(next, tail).rest + t));
    }
  }

  /** Chunk independence: incremental framing equals one pass over the whole input. */
  lemma {:induction false} FeedIsDrain<T(!new), F(!new)>(next: seq<T> -> Cut<F>, buffer: seq<T>, chunks: seq<seq<T>>)
    requires Progresses(next) && Stable(next) && next(buffer).Wait?
    ensures Feed(next, buffer, chunks) == Drain(next, buffer + Flatten(chunks))
    decreases |chunks|
  {
    if chunks == [] {
      assert buffer + Flatten(chunks) == buffer;
    } else {
      var head, later := buffer + chunks[0], Flatten(chunks[1..]);
      assert buffer + Flatten(chunks) == head + later;
      DrainIsComplete(next, head);
      FeedIsDrain(next, Drain(next, head).rest, chunks[1..]);
      DrainSplit(next, head, later);
    }
  }
}
