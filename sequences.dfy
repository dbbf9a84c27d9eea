/** Order facts shared by the deduplication loop and the safety checker, and the concatenation
    of per-element lists used when flags are gathered. */
module Sequences {

  /** `x` is `y` with some elements left out, the rest kept in order. */
  ghost predicate IsSubsequence<T>(x: seq<T>, y: seq<T>)
    decreases |y|
  {
    if y == [] then x == []
    else
      IsSubsequence(x, y[..|y| - 1]) ||
      (x != [] && x[|x| - 1] == y[|y| - 1] && IsSubsequence(x[..|x| - 1], y[..|y| - 1]))
  }

  lemma SubsequenceSnoc<T>(x: seq<T>, y: seq<T>, z: T)
    requires IsSubsequence(x, y)
    ensures IsSubsequence(x, y + [z]) && IsSubsequence(x + [z], y + [z])
  {
    assert (y + [z])[..|y|] == y;
    assert (x + [z])[..|x|] == x;
  }

  lemma {:induction false} SubsequenceRefl<T>(x: seq<T>)
    ensures IsSubsequence(x, x)
    decreases |x|
  {
    if x != [] {
      SubsequenceRefl(x[..|x| - 1]);
      SubsequenceSnoc(x[..|x| - 1], x[..|x| - 1], x[|x| - 1]);
      assert x[..|x| - 1] + [x[|x| - 1]] == x;
    }
  }

  lemma {:induction false} SubsequenceConcat<T>(a: seq<T>, b: seq<T>, c: seq<T>, d: seq<T>)
    requires IsSubsequence(a, b) && IsSubsequence(c, d)
    ensures IsSubsequence(a + c, b + d)
    decreases |d|
  {
    if d == [] {
      assert c == [];
      assert a + c == a && b + d == b;
    } else {
      var d' := d[..|d| - 1];
      var z := d[|d| - 1];
      assert b + d == (b + d') + [z];
      if IsSubsequence(c, d') {
        SubsequenceConcat(a, b, c, d');
        SubsequenceSnoc(a + c, b + d', z);
      } else {
        var c' := c[..|c| - 1];
        SubsequenceConcat(a, b, c', d');
        SubsequenceSnoc(a + c', b + d', z);
        assert a + c == (a + c') + [z];
      }
    }
  }

  lemma {:induction false} SubsequenceMembers<T>(x: seq<T>, y: seq<T>)
    requires IsSubsequence(x, y)
    ensures forall e :: e in x ==> e in y
    decreases |y|
  {
    if y != [] {
      var y' := y[..|y| - 1];
      if IsSubsequence(x, y') {
        SubsequenceMembers(x, y');
      } else {
        SubsequenceMembers(x[..|x| - 1], y');
        assert x == x[..|x| - 1] + [y[|y| - 1]];
      }
    }
  }

  /** `g(x)` for every `x` of `xs`, concatenated in the order of `xs`. */
  function FlatMap<T, U>(xs: seq<T>, g: T -> seq<U>): seq<U>
    decreases |xs|
  {
    if xs == [] then [] else FlatMap(xs[..|xs| - 1], g) + g(xs[|xs| - 1])
  }

  lemma FlatMapSnoc<T, U>(xs: seq<T>, g: T -> seq<U>, i: nat)
    requires i < |xs|
    ensures FlatMap(xs[..i + 1], g) == FlatMap(xs[..i], g) + g(xs[i])
  {
    assert xs[..i + 1][..i] == xs[..i];
  }

  /** An element is in the concatenation exactly when it is in the list of some `x`. */
  lemma {:induction false} FlatMapMembers<T, U>(xs: seq<T>, g: T -> seq<U>, u: U)
    ensures u in FlatMap(xs, g) <==> exists i :: 0 <= i < |xs| && u in g(xs[i])
    decreases |xs|
  {
    if xs != [] {
      var xs' := xs[..|xs| - 1];
      FlatMapMembers(xs', g, u);
      if u in FlatMap(xs', g) {
        var i :| 0 <= i < |xs'| && u in g(xs'[i]);
        assert xs[i] == xs'[i];
      }
      if exists i :: 0 <= i < |xs| && u in g(xs[i]) {
        var i :| 0 <= i < |xs| && u in g(xs[i]);
        if i < |xs'| {
          assert xs'[i] == xs[i];
        }
      }
    }
  }
}
