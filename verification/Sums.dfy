/** Finite sums over rows and over sets of services. */
module Sums {

  function SumOf<T>(xs: seq<T>, f: T -> real): real {
    if xs == [] then 0.0 else SumOf(xs[..|xs| - 1], f) + f(xs[|xs| - 1])
  }

  lemma SumGrows<T>(xs: seq<T>, x: T, f: T -> real)
    ensures SumOf(xs + [x], f) == SumOf(xs, f) + f(x)
  {
    assert (xs + [x])[..|xs|] == xs;
  }

  lemma {:induction false} SumSplit<T>(xs: seq<T>, ys: seq<T>, f: T -> real)
    ensures SumOf(xs + ys, f) == SumOf(xs, f) + SumOf(ys, f)
    decreases |ys|
  {
    if ys == [] {
      assert xs + ys == xs;
    } else {
      var zs := xs + ys;
      assert zs[..|zs| - 1] == xs + ys[..|ys| - 1];
      SumSplit(xs, ys[..|ys| - 1], f);
    }
  }

  lemma {:induction false} SumAgrees<T>(xs: seq<T>, f: T -> real, g: T -> real)
    requires forall x :: x in xs ==> f(x) == g(x)
    ensures SumOf(xs, f) == SumOf(xs, g)
    decreases |xs|
  {
    if xs != [] {
      SumAgrees(xs[..|xs| - 1], f, g);
    }
  }

  lemma {:induction false} SumAdds<T>(xs: seq<T>, f: T -> real, g: T -> real, h: T -> real)
    requires forall x :: x in xs ==> h(x) == f(x) + g(x)
    ensures SumOf(xs, h) == SumOf(xs, f) + SumOf(xs, g)
    decreases |xs|
  {
    if xs != [] {
      SumAdds(xs[..|xs| - 1], f, g, h);
    }
  }

  lemma {:induction false} SumDivides<T>(xs: seq<T>, f: T -> real, g: T -> real, d: real)
    requires d != 0.0
    requires forall x :: x in xs ==> g(x) == f(x) / d
    ensures SumOf(xs, g) == SumOf(xs, f) / d
    decreases |xs|
  {
    if xs != [] {
      SumDivides(xs[..|xs| - 1], f, g, d);
    }
  }

  lemma {:induction false} SumVanishes<T>(xs: seq<T>, f: T -> real)
    requires forall x :: x in xs ==> f(x) == 0.0
    ensures SumOf(xs, f) == 0.0
    decreases |xs|
  {
    if xs != [] {
      SumVanishes(xs[..|xs| - 1], f);
    }
  }

  /** A sum depends on the rows, not on their order. */
  lemma {:induction false} SumIgnoresOrder<T>(xs: seq<T>, ys: seq<T>, f: T -> real)
    requires multiset(xs) == multiset(ys)
    ensures SumOf(xs, f) == SumOf(ys, f)
    decreases |xs|
  {
    assert |xs| == |multiset(xs)| == |multiset(ys)| == |ys|;
    if xs != [] {
      var x := xs[|xs| - 1];
      assert x in multiset(ys);
      var k :| 0 <= k < |ys| && ys[k] == x;
      var rest := ys[..k] + ys[k + 1..];
      assert ys == ys[..k] + [x] + ys[k + 1..];
      assert xs == xs[..|xs| - 1] + [x];
      assert multiset(xs[..|xs| - 1]) == multiset(xs) - multiset{x};
      assert multiset(rest) == multiset(ys) - multiset{x};
      SumIgnoresOrder(xs[..|xs| - 1], rest, f);
      SumSplit(ys[..k], [x], f);
      SumSplit(ys[..k] + [x], ys[k + 1..], f);
      SumSplit(ys[..k], ys[k + 1..], f);
    }
  }

  ghost function Pick<K>(s: set<K>): (k: K)
    requires s != {}
    ensures k in s
  {
    var k :| k in s;
    k
  }

  /** The sum over a finite set of keys. */
  ghost function SumOver<K>(s: set<K>, f: K -> real): real
    decreases s
  {
    if s == {} then 0.0 else f(Pick(s)) + SumOver(s - {Pick(s)}, f)
  }
}
