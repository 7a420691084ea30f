/** The two list shapes the instance resolution is built from: a list
    comprehension that projects one attribute (`Map`), and the
    `append`/`extend` loops that join nested lists in order (`Concat`). */
module Seqs {

  /** `[f(x) for x in xs]` */
  function Map<A, B>(f: A -> B, xs: seq<A>): (r: seq<B>)
    ensures |r| == |xs|
    ensures forall k :: 0 <= k < |xs| ==> r[k] == f(xs[k])
  {
    seq(|xs|, k requires 0 <= k < |xs| => f(xs[k]))
  }

  /** The inner lists one after another, in outer order. */
  function Concat<T>(xss: seq<seq<T>>): seq<T>
  {
    if xss == [] then [] else Concat(xss[..|xss| - 1]) + xss[|xss| - 1]
  }

  lemma MapAppend<A, B>(f: A -> B, xs: seq<A>, ys: seq<A>)
    ensures Map(f, xs + ys) == Map(f, xs) + Map(f, ys)
  {
  }

  lemma MapPrefix<A, B>(f: A -> B, xs: seq<A>, i: nat)
    requires i <= |xs|
    ensures Map(f, xs[..i]) == Map(f, xs)[..i]
  {
  }

  /** Projecting a rearranged list gives a rearrangement of the projection. */
  lemma {:induction false} MapPermutation<A, B>(f: A -> B, xs: seq<A>, ys: seq<A>)
    requires multiset(xs) == multiset(ys)
    ensures multiset(Map(f, xs)) == multiset(Map(f, ys))
    decreases |xs|
  {
    if xs != [] {
      var n := |xs| - 1;
      var x := xs[n];
      var k := MatchLast(xs, ys);
      var before, after := ys[..k], ys[k + 1..];
      assert xs == xs[..n] + [x];
      assert ys == before + [x] + after;
      MapPermutation(f, xs[..n], before + after);
      MapAppend(f, xs[..n], [x]);
      MapAppend(f, before + [x], after);
      MapAppend(f, before, [x]);
      MapAppend(f, before, after);
    }
  }

  /** Where the last element of `xs` sits in a rearrangement `ys`, and what is
      left of `ys` without it. */
  lemma MatchLast<T>(xs: seq<T>, ys: seq<T>) returns (k: nat)
    requires multiset(xs) == multiset(ys) && xs != []
    ensures k < |ys| && ys[k] == xs[|xs| - 1]
    ensures multiset(ys[..k] + ys[k + 1..]) == multiset(xs[..|xs| - 1])
  {
    var n := |xs| - 1;
    var x := xs[n];
    assert xs == xs[..n] + [x];
    assert x in multiset(ys);
    k :| 0 <= k < |ys| && ys[k] == x;
    var before, after := ys[..k], ys[k + 1..];
    assert ys == before + [x] + after;
    assert multiset(ys) == multiset(before) + multiset{x} + multiset(after);
    assert multiset(xs) == multiset(xs[..n]) + multiset{x};
    assert multiset(before + after) == multiset(ys) - multiset{x};
  }

  lemma {:induction false} ConcatAppend<T>(xss: seq<seq<T>>, yss: seq<seq<T>>)
    ensures Concat(xss + yss) == Concat(xss) + Concat(yss)
    decreases |yss|
  {
    if yss == [] {
      assert xss + yss == xss;
    } else {
      var n := |yss| - 1;
      assert (xss + yss)[..|xss + yss| - 1] == xss + yss[..n];
      ConcatAppend(xss, yss[..n]);
    }
  }

  /** One more outer element adds its projected list at the end of the join. */
  lemma ConcatMapSnoc<A, T>(f: A -> seq<T>, xs: seq<A>, x: A)
    ensures Concat(Map(f, xs + [x])) == Concat(Map(f, xs)) + f(x)
  {
    assert Map(f, xs + [x])[..|xs|] == Map(f, xs);
  }

  /** Element `j` of inner list `i` sits at the total length of the lists before
      it, plus `j`. */
  lemma ConcatAt<T>(xss: seq<seq<T>>, i: nat, j: nat)
    requires i < |xss| && j < |xss[i]|
    ensures |Concat(xss[..i])| + j < |Concat(xss)|
    ensures Concat(xss)[|Concat(xss[..i])| + j] == xss[i][j]
  {
    assert xss == xss[..i] + [xss[i]] + xss[i + 1..];
    assert Concat([xss[i]]) == xss[i] by {
      assert [xss[i]][..0] == [];
    }
    ConcatAppend(xss[..i] + [xss[i]], xss[i + 1..]);
    ConcatAppend(xss[..i], [xss[i]]);
  }

  /** The join is empty exactly when every inner list is. */
  lemma {:induction false} ConcatEmpty<T>(xss: seq<seq<T>>)
    ensures Concat(xss) == [] <==> forall i :: 0 <= i < |xss| ==> xss[i] == []
    decreases |xss|
  {
    if xss != [] {
      var n := |xss| - 1;
      ConcatEmpty(xss[..n]);
      assert forall i :: 0 <= i < n ==> xss[..n][i] == xss[i];
    }
  }

  /** Rearranging the outer list rearranges the join. */
  lemma {:induction false} ConcatPermutation<T>(xss: seq<seq<T>>, yss: seq<seq<T>>)
    requires multiset(xss) == multiset(yss)
    ensures multiset(Concat(xss)) == multiset(Concat(yss))
    decreases |xss|
  {
    if xss != [] {
      var n := |xss| - 1;
      var xs := xss[n];
      var k := MatchLast(xss, yss);
      var before, after := yss[..k], yss[k + 1..];
      assert xss == xss[..n] + [xs];
      assert yss == before + [xs] + after;
      ConcatPermutation(xss[..n], before + after);
      assert Concat([xs]) == xs by {
        assert [xs][..0] == [];
      }
      ConcatAppend(xss[..n], [xs]);
      ConcatAppend(before + [xs], after);
      ConcatAppend(before, [xs]);
      ConcatAppend(before, after);
    }
  }

  /** Rearranging each inner list in place rearranges the join. */
  lemma {:induction false} ConcatPointwisePermutation<T>(xss: seq<seq<T>>, yss: seq<seq<T>>)
    requires |xss| == |yss|
    requires forall i :: 0 <= i < |xss| ==> multiset(xss[i]) == multiset(yss[i])
    ensures multiset(Concat(xss)) == multiset(Concat(yss))
    decreases |xss|
  {
    if xss != [] {
      var n := |xss| - 1;
      ConcatPointwisePermutation(xss[..n], yss[..n]);
    }
  }
}
