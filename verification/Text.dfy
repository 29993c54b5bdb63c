/** Byte strings: the order used by `sort.Strings`, sorted listings of sets, and separated text.
    A `char` stands for one byte of a Go string. */
module Text {

  function Elements<T>(xs: seq<T>): set<T> { set x | x in xs }

  lemma EmptyElements<T>(xs: seq<T>)
    ensures Elements(xs) == {} <==> xs == []
  {
    if xs != [] {
      assert xs[0] in Elements(xs);
    }
  }

  /** The strict lexicographic order of `sort.Strings`. */
  predicate Before(a: string, b: string) {
    b != [] && (a == [] || a[0] < b[0] || (a[0] == b[0] && Before(a[1..], b[1..])))
  }

  lemma {:induction false} BeforeIsStrictTotal(a: string, b: string)
    ensures !(Before(a, b) && Before(b, a))
    ensures a == b <==> !Before(a, b) && !Before(b, a)
  {
    if a != [] && b != [] {
      assert a == [a[0]] + a[1..] && b == [b[0]] + b[1..];
      BeforeIsStrictTotal(a[1..], b[1..]);
    }
  }

  lemma {:induction false} BeforeIsTransitive(a: string, b: string, c: string)
    requires Before(a, b) && Before(b, c)
    ensures Before(a, c)
  {
    if a != [] && a[0] == b[0] == c[0] {
      BeforeIsTransitive(a[1..], b[1..], c[1..]);
    }
  }

  ghost predicate Ascending(xs: seq<string>) {
    forall i, j :: 0 <= i < j < |xs| ==> Before(xs[i], xs[j])
  }

  /** `xs` lists exactly the set `s`, strictly ascending. */
  ghost predicate Lists(xs: seq<string>, s: set<string>) {
    Ascending(xs) && Elements(xs) == s
  }

  lemma HeadIsLeast(xs: seq<string>, ys: seq<string>)
    requires xs != [] && ys != [] && Ascending(xs) && Ascending(ys) && Elements(xs) == Elements(ys)
    ensures xs[0] == ys[0]
  {
    assert xs[0] in Elements(ys) && ys[0] in Elements(xs);
    BeforeIsStrictTotal(xs[0], ys[0]);
  }

  /** A set has one sorted listing, so whatever order a map is iterated in, sorting erases it. */
  lemma {:induction false} ListingIsUnique(xs: seq<string>, ys: seq<string>)
    requires Ascending(xs) && Ascending(ys) && Elements(xs) == Elements(ys)
    ensures xs == ys
    decreases |xs|
  {
    EmptyElements(xs);
    EmptyElements(ys);
    if xs != [] {
      HeadIsLeast(xs, ys);
      RestOfListing(xs);
      RestOfListing(ys);
      ListingIsUnique(xs[1..], ys[1..]);
    }
  }

  lemma RestOfListing(xs: seq<string>)
    requires xs != [] && Ascending(xs)
    ensures Ascending(xs[1..]) && Elements(xs[1..]) == Elements(xs) - {xs[0]}
  {
    forall x | x in xs[1..] ensures x != xs[0] {
      BeforeIsStrictTotal(x, xs[0]);
    }
    assert xs == [xs[0]] + xs[1..];
  }

  lemma InsertedAscends(xs: seq<string>, x: string, i: nat)
    requires i <= |xs| && Ascending(xs)
    requires (forall j :: 0 <= j < i ==> Before(xs[j], x)) && forall j :: i <= j < |xs| ==> Before(x, xs[j])
    ensures Ascending(xs[..i] + [x] + xs[i..])
  {
    hide Before;
  }

  /** Puts `x` where it keeps `xs` ascending. */
  method InsertSorted(xs: seq<string>, x: string) returns (r: seq<string>)
    requires Ascending(xs) && x !in xs
    ensures Lists(r, Elements(xs) + {x})
  {
    var i := 0;
    while i < |xs| && Before(xs[i], x)
      invariant 0 <= i <= |xs|
      invariant forall j :: 0 <= j < i ==> Before(xs[j], x)
    {
      i := i + 1;
    }
    forall j | i <= j < |xs| ensures Before(x, xs[j]) {
      BeforeIsStrictTotal(xs[i], x);
      if i < j { BeforeIsTransitive(x, xs[i], xs[j]); }
    }
    r := xs[..i] + [x] + xs[i..];
    InsertedAscends(xs, x, i);
    assert Elements(r) == Elements(xs) + {x} by {
      assert xs == xs[..i] + xs[i..];
    }
  }

  /** Ranges over a set in no particular order and sorts what it collected. */
  method SortedKeys(s: set<string>) returns (xs: seq<string>)
    ensures Lists(xs, s)
  {
    xs := [];
    var rest := s;
    while rest != {}
      invariant rest <= s
      invariant Lists(xs, s - rest)
      decreases rest
    {
      var x :| x in rest;
      xs := InsertSorted(xs, x);
      rest := rest - {x};
      assert s - rest == (s - rest - {x}) + {x};
    }
  }

  /** The sorted listing as a value. */
  ghost function Sorted(s: set<string>): (xs: seq<string>)
    ensures Lists(xs, s)
  {
    ListingExists(s);
    var xs :| Lists(xs, s);
    xs
  }

  lemma {:induction false} ListingExists(s: set<string>)
    ensures exists xs :: Lists(xs, s)
    decreases s
  {
    if s == {} {
      assert Lists([], s);
    } else {
      var m := Least(s);
      ListingExists(s - {m});
      var xs :| Lists(xs, s - {m});
      assert forall i :: 0 <= i < |xs| ==> xs[i] in Elements(xs);
      assert Elements([m] + xs) == {m} + Elements(xs) == s;
      assert Lists([m] + xs, s);
    }
  }

  lemma {:induction false} Least(s: set<string>) returns (m: string)
    requires s != {}
    ensures m in s && forall x :: x in s - {m} ==> Before(m, x)
    decreases s
  {
    m :| m in s;
    if s != {m} {
      var n := Least(s - {m});
      BeforeIsStrictTotal(m, n);
      if Before(n, m) {
        m := n;
      } else {
        forall x | x in s - {m} ensures Before(m, x) {
          if x != n { BeforeIsTransitive(m, n, x); }
        }
      }
    }
  }

  /** Text up to the first separator and text after it are determined by the whole. */
  lemma SplitIsUnique(c: char, a: string, r: string, b: string, t: string)
    requires c !in a && c !in b
    requires a + [c] + r == b + [c] + t
    ensures a == b && r == t
  {
    var w := a + [c] + r;
    assert w[|a|] == c && w[|b|] == c;
    assert forall i :: 0 <= i < |a| ==> w[i] == a[i] != c;
    assert forall i :: 0 <= i < |b| ==> w[i] == b[i] != c;
    assert a == w[..|a|] && b == w[..|b|];
    assert r == w[|a| + 1..] && t == w[|b| + 1..];
  }

  /** `picked` are the elements of `xs` at the ascending positions `ks`. */
  ghost predicate Picks<T>(ks: seq<nat>, xs: seq<T>, picked: seq<T>) {
    && |ks| == |picked| && (forall i :: 0 <= i < |ks| ==> ks[i] < |xs| && picked[i] == xs[ks[i]])
    && (forall i, j :: 0 <= i < j < |ks| ==> ks[i] < ks[j])
  }

  lemma NothingPicked<T>(xs: seq<T>)
    ensures Picks([], xs, [])
  {
  }

  /** The next element may be left or taken. */
  lemma PickNext<T>(ks: seq<nat>, xs: seq<T>, picked: seq<T>, x: T)
    requires Picks(ks, xs, picked)
    ensures Picks(ks, xs + [x], picked) && Picks(ks + [|xs|], xs + [x], picked + [x])
    ensures forall k :: k in ks ==> k < |xs|
  {
  }

  /** `strings.Join`. */
  function Join(xs: seq<string>, sep: char): string {
    if xs == [] then "" else if |xs| == 1 then xs[0] else xs[0] + [sep] + Join(xs[1..], sep)
  }

  lemma JoinStarts(xs: seq<string>, sep: char)
    requires xs != []
    ensures var w, n := Join(xs, sep), |xs[0]|;
            && n <= |w| && w[..n] == xs[0] && (|xs| == 1 ==> w == xs[0])
            && (|xs| > 1 ==> n < |w| && w[n] == sep && w[n + 1..] == Join(xs[1..], sep))
  {
  }

  lemma AscendingTail(xs: seq<string>)
    requires xs != [] && Ascending(xs)
    ensures Ascending(xs[1..]) && (xs[1..] != [] ==> Before(xs[0], xs[1..][0]))
  {
  }

  /** What is left of a text after part of its first part: `r`, then `ys`. */
  function Reaching(r: string, ys: seq<string>, sep: char): string {
    if ys == [] then r else r + [sep] + Join(ys, sep)
  }

  lemma RestOfJoin(xs: seq<string>, sep: char, n: nat)
    requires xs != [] && n < |xs[0]|
    ensures n < |Join(xs, sep)|
    ensures Join(xs, sep)[n + 1..] == Reaching(xs[0][n + 1..], xs[1..], sep)
  {
  }

  /** `y` is `x`, a separator and more. */
  predicate Extends(y: string, x: string, sep: char) { |x| < |y| && y[..|x|] == x && y[|x|] == sep }

  /** A separator in `s` stands between an earlier and a later string. */
  predicate SplitsAscending(s: string, sep: char) {
    exists k :: 0 <= k < |s| && s[k] == sep && Before(s[..k], s[k + 1..])
  }

  /** Where two equal joins have different heads, the longer head extends the shorter. */
  lemma HeadsExtend(xs: seq<string>, ys: seq<string>, sep: char)
    requires xs != [] && ys != [] && Join(xs, sep) == Join(ys, sep) && |xs[0]| <= |ys[0]|
    ensures xs[0] == ys[0] || (|xs| > 1 && Extends(ys[0], xs[0], sep))
  {
    JoinStarts(xs, sep);
    JoinStarts(ys, sep);
    var w := Join(xs, sep);
    assert w[..|ys[0]|][..|xs[0]|] == w[..|xs[0]|];
  }

  /** Separated text determines its parts when no part extends another. */
  lemma {:induction false} JoinIsInjective(xs: seq<string>, ys: seq<string>, sep: char)
    requires xs != [] && ys != []
    requires forall x, y :: (x in xs || x in ys) && (y in xs || y in ys) ==> !Extends(y, x, sep)
    requires Join(xs, sep) == Join(ys, sep)
    ensures xs == ys
    decreases |xs|
  {
    hide Extends;
    if |xs[0]| <= |ys[0]| { HeadsExtend(xs, ys, sep); } else { HeadsExtend(ys, xs, sep); }
    assert xs[0] in xs && ys[0] in ys;
    JoinStarts(xs, sep);
    JoinStarts(ys, sep);
    if |xs| > 1 {
      JoinIsInjective(xs[1..], ys[1..], sep);
    }
    assert xs == [xs[0]] + xs[1..] && ys == [ys[0]] + ys[1..];
  }

  lemma {:induction false} PrefixIsNotAfter(a: string, r: string)
    requires |a| <= |r| && r[..|a|] == a
    ensures !Before(r, a)
  {
    if a != [] {
      assert a[0] == r[..|a|][0] && r[1..][..|a| - 1] == r[..|a|][1..];
      PrefixIsNotAfter(a[1..], r[1..]);
    }
  }

  /** Two readings of the same text: one first part is the beginning of the other. */
  lemma FirstPartsOverlap(xs: seq<string>, r: string, ys: seq<string>, sep: char)
    requires xs != [] && Join(xs, sep) == Reaching(r, ys, sep)
    ensures |xs[0]| <= |r| ==> r[..|xs[0]|] == xs[0]
    ensures |xs[0]| > |r| ==> ys != [] && xs[0][..|r|] == r && xs[0][|r|] == sep
                              && Join(ys, sep) == Reaching(xs[0][|r| + 1..], xs[1..], sep)
  {
    hide Join;
    var w, a := Join(xs, sep), xs[0];
    JoinStarts(xs, sep);
    CommonPrefixes(w, a, r);
    if |a| > |r| {
      assert a[|r|] == w[..|a|][|r|] == w[|r|];
      RestOfJoin(xs, sep, |r|);
      assert ys != [] ==> Join(ys, sep) == w[|r| + 1..];
    }
  }

  lemma CommonPrefixes(w: string, a: string, r: string)
    requires |a| <= |w| && w[..|a|] == a && |r| <= |w| && w[..|r|] == r
    ensures if |a| <= |r| then r[..|a|] == a else a[..|r|] == r
  {
    if |a| <= |r| {
      assert r[..|a|] == w[..|r|][..|a|];
    } else {
      assert a[..|r|] == w[..|a|][..|r|];
    }
  }

  /** Two ascending lists of parts that do not split ascending cannot run over the same text out of
      step: `xs` follows `x`, `ys` follows `y`, and `y` still reaches into the text by `r`. */
  lemma {:induction false} NeverOutOfStep(x: string, xs: seq<string>, y: string, r: string, ys: seq<string>, sep: char)
    requires xs != [] && Before(x, xs[0]) && Ascending(xs) && (ys != [] ==> Before(y, ys[0])) && Ascending(ys)
    requires forall s :: s in xs || s in ys ==> !SplitsAscending(s, sep)
    requires !Before(x, r) && !Before(y, r)
    ensures Join(xs, sep) != Reaching(r, ys, sep)
    decreases |xs| + |ys|
  {
    hide Before, SplitsAscending, Ascending, Join, Reaching;
    var a := xs[0];
    if Join(xs, sep) == Reaching(r, ys, sep) {
      FirstPartsOverlap(xs, r, ys, sep);
      NotBeforeThenBefore(x, r, a);
      if |a| <= |r| {
        PrefixIsNotAfter(a, r);
      }
      var q := a[|r| + 1..];
      assert a in xs;
      NotAscendingAt(a, sep, |r|);
      NotBeforeIsTransitive(y, r, q);
      if Before(a, q) { BeforeIsTransitive(r, a, q); }
      AscendingTail(xs);
      NeverOutOfStep(y, ys, a, q, xs[1..], sep);
    }
  }

  lemma NotBeforeThenBefore(x: string, r: string, a: string)
    requires !Before(x, r) && Before(x, a)
    ensures Before(r, a)
  {
    hide Before;
    BeforeIsStrictTotal(x, r);
    if r != x { BeforeIsTransitive(r, x, a); }
  }

  lemma NotAscendingAt(s: string, sep: char, k: nat)
    requires !SplitsAscending(s, sep) && k < |s| && s[k] == sep
    ensures !Before(s[..k], s[k + 1..])
  {
  }

  lemma NotBeforeIsTransitive(a: string, b: string, c: string)
    requires !Before(a, b) && !Before(b, c)
    ensures !Before(a, c)
  {
    hide Before;
    BeforeIsStrictTotal(a, b);
    BeforeIsStrictTotal(b, c);
    if Before(a, c) && a != b { BeforeIsTransitive(b, a, c); }
  }

  /** Ascending lists are determined by their separated text when no part splits ascending. */
  lemma {:induction false} AscendingJoinIsInjective(xs: seq<string>, ys: seq<string>, sep: char)
    requires xs != [] && ys != [] && Ascending(xs) && Ascending(ys)
    requires forall s :: s in xs || s in ys ==> !SplitsAscending(s, sep)
    requires Join(xs, sep) == Join(ys, sep)
    ensures xs == ys
    decreases |xs|
  {
    hide Before, SplitsAscending, Ascending;
    if |xs[0]| < |ys[0]| { HeadsAreInStep(xs, ys, sep); } else if |ys[0]| < |xs[0]| { HeadsAreInStep(ys, xs, sep); }
    JoinStarts(xs, sep);
    JoinStarts(ys, sep);
    if |xs| > 1 {
      AscendingTail(xs);
      AscendingTail(ys);
      AscendingJoinIsInjective(xs[1..], ys[1..], sep);
    }
    assert xs == [xs[0]] + xs[1..] && ys == [ys[0]] + ys[1..];
  }

  lemma HeadsAreInStep(xs: seq<string>, ys: seq<string>, sep: char)
    requires xs != [] && ys != [] && Ascending(xs) && Ascending(ys) && |xs[0]| < |ys[0]|
    requires forall s :: s in xs || s in ys ==> !SplitsAscending(s, sep)
    ensures Join(xs, sep) != Join(ys, sep)
  {
    hide Before, SplitsAscending, Ascending, Join;
    if Join(xs, sep) == Join(ys, sep) {
      var x, y := xs[0], ys[0];
      JoinIsReaching(xs, sep);
      FirstPartsOverlap(ys, x, xs[1..], sep);
      var r := y[|x| + 1..];
      assert y in ys;
      NotAscendingAt(y, sep, |x|);
      PrefixIsNotAfter(x, y);
      BeforeIsStrictTotal(x, y);
      if Before(y, r) { BeforeIsTransitive(x, y, r); }
      AscendingTail(xs);
      AscendingTail(ys);
      NeverOutOfStep(x, xs[1..], y, r, ys[1..], sep);
    }
  }

  lemma JoinIsReaching(xs: seq<string>, sep: char)
    requires xs != []
    ensures Join(xs, sep) == Reaching(xs[0], xs[1..], sep)
  {
  }
}
