/** The array combinators the parser is written with: `map`, `filter` and `concat`. */
module Seqs {

  /** `s.map(f)`. */
  function Map<A, B>(s: seq<A>, f: A -> B): (r: seq<B>)
    ensures |r| == |s|
    ensures forall i :: 0 <= i < |s| ==> r[i] == f(s[i])
  {
    if s == [] then [] else [f(s[0])] + Map(s[1..], f)
  }

  /** `s.filter(p)`: the elements satisfying `p`, in their original order. */
  function Filter<A(!new)>(s: seq<A>, p: A -> bool): (r: seq<A>)
    ensures |r| <= |s|
    ensures forall x :: x in r <==> x in s && p(x)
    ensures (forall i :: 0 <= i < |s| ==> p(s[i])) ==> r == s
  {
    if s == [] then []
    else (if p(s[0]) then [s[0]] else []) + Filter(s[1..], p)
  }

  /** Filtering a concatenation filters each part: `filter` keeps the order of what it keeps. */
  lemma {:induction false} FilterConcat<A(!new)>(a: seq<A>, b: seq<A>, p: A -> bool)
    ensures Filter(a + b, p) == Filter(a, p) + Filter(b, p)
  {
    if a == [] {
      assert a + b == b;
    } else {
      assert (a + b)[1..] == a[1..] + b;
      FilterConcat(a[1..], b, p);
    }
  }

  /** The concatenation of a sequence of sequences, in order. */
  function Flatten<A(!new)>(ss: seq<seq<A>>): (r: seq<A>)
    ensures forall x :: x in r <==> exists i :: 0 <= i < |ss| && x in ss[i]
  {
    if ss == [] then []
    else
      var rest := Flatten(ss[1..]);
      assert forall i :: 1 <= i < |ss| ==> ss[i] == ss[1..][i - 1];
      ss[0] + rest
  }

  /** `xs.reduce((acc, x) => acc.concat(f(x)), acc)`: a left fold that appends each `f(x)`. */
  function FoldConcat<A, B>(xs: seq<A>, f: A -> seq<B>, acc: seq<B>): seq<B>
    decreases |xs|
  {
    if xs == [] then acc else FoldConcat(xs[1..], f, acc + f(xs[0]))
  }

  /** The left fold appends the pieces, in order, to what it started with. */
  lemma {:induction false} FoldConcatFlattens<A, B(!new)>(xs: seq<A>, f: A -> seq<B>, acc: seq<B>)
    ensures FoldConcat(xs, f, acc) == acc + Flatten(Map(xs, f))
    decreases |xs|
  {
    if xs != [] {
      FoldConcatFlattens(xs[1..], f, acc + f(xs[0]));
      assert Map(xs, f)[1..] == Map(xs[1..], f);
    }
  }

  /** What `s.filter(p).map(f)` holds: the images of the elements that satisfy `p`. */
  lemma InMapFilter<A(!new), B>(s: seq<A>, p: A -> bool, f: A -> B, y: B)
    ensures y in Map(Filter(s, p), f) <==> exists k :: 0 <= k < |s| && p(s[k]) && y == f(s[k])
  {
    var kept := Filter(s, p);
    var images := Map(kept, f);
    if y in images {
      var i :| 0 <= i < |images| && images[i] == y;
      assert kept[i] in kept;
      var k :| 0 <= k < |s| && s[k] == kept[i];
    }
    if exists k :: 0 <= k < |s| && p(s[k]) && y == f(s[k]) {
      var k :| 0 <= k < |s| && p(s[k]) && y == f(s[k]);
      assert s[k] in kept;
      var i :| 0 <= i < |kept| && kept[i] == s[k];
      assert images[i] == y;
    }
  }

  /**
   * A non-empty sequence has a member: its first element. Stated as an
   * implication so that a caller whose facts rule out members can use it
   * without indexing into a sequence it cannot show to be non-empty.
   */
  lemma FirstIsMember<A>(s: seq<A>)
    ensures |s| > 0 ==> s[0] in s
  {
  }
}
