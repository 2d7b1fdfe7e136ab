/** Generic sequence combinators that stand for the Java stream operations the
    tokenizers use: `flatMap`, flattening a `String[][]`, and `String.join`. */
module Seqs {

  /** `stream.flatMap(f)`: the results of `f` on each element, concatenated in order. */
  function FlatMap<A, B>(s: seq<A>, f: A -> seq<B>): seq<B>
  {
    if s == [] then [] else f(s[0]) + FlatMap(s[1..], f)
  }

  /** `stream.map(f)`: the image of each element, in order. */
  function Map<A, B>(s: seq<A>, f: A -> B): (r: seq<B>)
    ensures |r| == |s| && forall i :: 0 <= i < |s| ==> r[i] == f(s[i])
  {
    if s == [] then [] else [f(s[0])] + Map(s[1..], f)
  }

  /** `Map` distributes over concatenation. */
  lemma {:induction false} MapAppend<A, B>(s: seq<A>, t: seq<A>, f: A -> B)
    ensures Map(s + t, f) == Map(s, f) + Map(t, f)
  {
    if s == [] {
      assert s + t == t;
    } else {
      assert (s + t)[0] == s[0];
      assert (s + t)[1..] == s[1..] + t;
      MapAppend(s[1..], t, f);
    }
  }

  /** Flattening a sequence of sequences (`flatMap(Stream::of)` over a `String[][]`). */
  function Concat<A>(ss: seq<seq<A>>): seq<A>
  {
    if ss == [] then [] else ss[0] + Concat(ss[1..])
  }

  /** `String.join(sep, parts)`: the parts with one `sep` between each two neighbours. */
  function Join<A>(sep: seq<A>, parts: seq<seq<A>>): seq<A>
  {
    if parts == [] then []
    else if |parts| == 1 then parts[0]
    else parts[0] + sep + Join(sep, parts[1..])
  }

  /** Joining a part in front of a non-empty list of parts adds it and one separator. */
  lemma JoinCons<A>(sep: seq<A>, part: seq<A>, parts: seq<seq<A>>)
    requires parts != []
    ensures Join(sep, [part] + parts) == part + sep + Join(sep, parts)
  {
    assert ([part] + parts)[1..] == parts;
  }

  /** `FlatMap` is a homomorphism: mapping a concatenation concatenates the results. */
  lemma {:induction false} FlatMapAppend<A, B>(s: seq<A>, t: seq<A>, f: A -> seq<B>)
    ensures FlatMap(s + t, f) == FlatMap(s, f) + FlatMap(t, f)
  {
    if s == [] {
      assert s + t == t;
    } else {
      assert (s + t)[0] == s[0];
      assert (s + t)[1..] == s[1..] + t;
      FlatMapAppend(s[1..], t, f);
    }
  }

  /** Every element of a `FlatMap` comes from the image of some input element, and
      every element of every image occurs in the result. */
  lemma {:induction false} FlatMapElements<A, B>(s: seq<A>, f: A -> seq<B>, b: B)
    ensures b in FlatMap(s, f) <==> exists i :: 0 <= i < |s| && b in f(s[i])
  {
    if s != [] {
      FlatMapElements(s[1..], f, b);
      if b in FlatMap(s[1..], f) {
        var i :| 0 <= i < |s[1..]| && b in f(s[1..][i]);
        assert b in f(s[i + 1]);
      }
      if exists i :: 0 <= i < |s| && b in f(s[i]) {
        var i :| 0 <= i < |s| && b in f(s[i]);
        if i > 0 {
          assert b in f(s[1..][i - 1]);
        }
      }
    }
  }

  /** `Concat` is a homomorphism too. */
  lemma {:induction false} ConcatAppend<A>(ss: seq<seq<A>>, tt: seq<seq<A>>)
    ensures Concat(ss + tt) == Concat(ss) + Concat(tt)
  {
    if ss == [] {
      assert ss + tt == tt;
    } else {
      assert (ss + tt)[0] == ss[0];
      assert (ss + tt)[1..] == ss[1..] + tt;
      ConcatAppend(ss[1..], tt);
    }
  }

  /** `FlatMap` only depends on the values of `f` at the elements of `s`. */
  lemma {:induction false} FlatMapCongruence<A, B>(s: seq<A>, f: A -> seq<B>, g: A -> seq<B>)
    requires forall i :: 0 <= i < |s| ==> f(s[i]) == g(s[i])
    ensures FlatMap(s, f) == FlatMap(s, g)
  {
    if s != [] {
      assert forall i :: 0 <= i < |s[1..]| ==> s[1..][i] == s[i + 1];
      FlatMapCongruence(s[1..], f, g);
    }
  }

  /** Extending the mapped prefix by one element appends that element's image. */
  lemma FlatMapSnoc<A, B>(s: seq<A>, i: nat, f: A -> seq<B>)
    requires i < |s|
    ensures FlatMap(s[..i + 1], f) == FlatMap(s[..i], f) + f(s[i])
  {
    assert s[..i + 1] == s[..i] + [s[i]];
    FlatMapAppend(s[..i], [s[i]], f);
    assert FlatMap([s[i]], f) == f(s[i]) + FlatMap([s[i]][1..], f);
  }

  /** An element of a flattening comes from one of the flattened sequences. */
  lemma {:induction false} ConcatElements<A>(ss: seq<seq<A>>, x: A)
    ensures x in Concat(ss) <==> exists i :: 0 <= i < |ss| && x in ss[i]
  {
    if ss != [] {
      ConcatElements(ss[1..], x);
      if x in Concat(ss[1..]) {
        var i :| 0 <= i < |ss[1..]| && x in ss[1..][i];
        assert x in ss[i + 1];
      }
      if exists i :: 0 <= i < |ss| && x in ss[i] {
        var i :| 0 <= i < |ss| && x in ss[i];
        if i > 0 {
          assert x in ss[1..][i - 1];
        }
      }
    }
  }
}
