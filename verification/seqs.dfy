// Generic facts about sequences, kept apart from the label modules so that
// proofs using them do not see the label functions' contracts.
module Seqs {

  /** Concatenation is associative. */
  lemma AppendAssociative<T>(a: seq<T>, b: seq<T>, c: seq<T>)
    ensures a + (b + c) == (a + b) + c
  {
  }

  /** A non-empty sequence is its first element followed by the rest. */
  lemma HeadTail<T>(s: seq<T>)
    requires |s| >= 1
    ensures s == s[..1] + s[1..] && s[..1] == [s[0]]
  {
  }

  /** The pieces `g(x)` for each `x` of `xs` in turn, concatenated. */
  function FlatMap<A, T>(g: A -> seq<T>, xs: seq<A>): (r: seq<T>)
    ensures |xs| == 0 ==> r == []
    ensures |xs| == 1 ==> r == g(xs[0])
  {
    if |xs| == 0 then [] else g(xs[0]) + FlatMap(g, xs[1..])
  }

  /** Mapping over two lists joined is mapping over each in turn. */
  lemma {:induction false} FlatMapAppend<A, T>(g: A -> seq<T>, a: seq<A>, b: seq<A>)
    ensures FlatMap(g, a + b) == FlatMap(g, a) + FlatMap(g, b)
  {
    if |a| == 0 {
      assert a + b == b;
    } else {
      assert (a + b)[0] == a[0] && (a + b)[1..] == a[1..] + b;
      FlatMapAppend(g, a[1..], b);
      AppendAssociative(g(a[0]), FlatMap(g, a[1..]), FlatMap(g, b));
    }
  }

  /** An element of the result lies in the piece of some `x`, and every
      element of every piece is in the result. */
  lemma {:induction false} FlatMapMembers<A, T>(g: A -> seq<T>, xs: seq<A>)
    ensures forall f :: f in FlatMap(g, xs) ==> exists x :: x in xs && f in g(x)
    ensures forall x, f :: x in xs && f in g(x) ==> f in FlatMap(g, xs)
  {
    if |xs| > 0 {
      var rest := xs[1..];
      FlatMapMembers(g, rest);
      assert FlatMap(g, xs) == g(xs[0]) + FlatMap(g, rest);
      forall f | f in FlatMap(g, xs)
        ensures exists x :: x in xs && f in g(x)
      {
        if f in g(xs[0]) {
          assert xs[0] in xs;
        } else {
          var x :| x in rest && f in g(x);
          assert x in xs;
        }
      }
      forall x, f | x in xs && f in g(x)
        ensures f in FlatMap(g, xs)
      {
        if x != xs[0] {
          var j :| 0 <= j < |xs| && xs[j] == x;
          assert rest[j - 1] == x;
        }
      }
    }
  }
}
