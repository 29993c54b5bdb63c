/** Decoded series and their identity across scrapes (internal/scrape/scrape.go). */
module SeriesIdentity {
  import opened Text
  import opened Sums

  datatype Kind = Unsupported | Gauge | Counter

  datatype Series = Series(name: string, labels: map<string, string>, value: real, kind: Kind)

  /** A map read the way the source reads it: a missing key yields the empty string. */
  function Lookup(labels: map<string, string>, key: string): string {
    if key in labels then labels[key] else ""
  }

  function Digit(d: nat): (c: char)
    requires d < 10
    ensures c != ':'
  {
    "0123456789"[d]
  }

  /** `strconv.Itoa` on a length. */
  function Decimal(n: nat): (s: string)
    ensures s != [] && ':' !in s
  {
    if n < 10 then [Digit(n)] else Decimal(n / 10) + [Digit(n % 10)]
  }

  lemma DigitIsInjective(d: nat, e: nat)
    requires d < 10 && e < 10 && Digit(d) == Digit(e)
    ensures d == e
  {
  }

  lemma {:induction false} DecimalIsInjective(m: nat, n: nat)
    requires Decimal(m) == Decimal(n)
    ensures m == n
  {
    hide Digit;
    var s := Decimal(m);
    assert s[|s| - 1] == Digit(m % 10) == Digit(n % 10);
    DigitIsInjective(m % 10, n % 10);
    if m >= 10 && n >= 10 {
      assert s[..|s| - 1] == Decimal(m / 10) == Decimal(n / 10);
      DecimalIsInjective(m / 10, n / 10);
    }
  }

  /** What `writeLenPrefixed` appends for one part. */
  function Framed(s: string): string { Decimal(|s|) + ":" + s }

  lemma FrameIsPrefixFree(a: string, r: string, b: string, t: string)
    requires Framed(a) + r == Framed(b) + t
    ensures a == b && r == t
  {
    hide Decimal;
    assert Framed(a) + r == Decimal(|a|) + ":" + (a + r);
    assert Framed(b) + t == Decimal(|b|) + ":" + (b + t);
    SplitIsUnique(':', Decimal(|a|), a + r, Decimal(|b|), b + t);
    DecimalIsInjective(|a|, |b|);
    assert a == (a + r)[..|a|] && b == (b + t)[..|b|];
    assert r == (a + r)[|a|..] && t == (b + t)[|b|..];
  }

  function Frames(parts: seq<string>): string {
    if parts == [] then "" else Frames(parts[..|parts| - 1]) + Framed(parts[|parts| - 1])
  }

  lemma {:induction false} FramesConcatenate(xs: seq<string>, ys: seq<string>)
    ensures Frames(xs + ys) == Frames(xs) + Frames(ys)
    decreases |ys|
  {
    hide Framed;
    if ys == [] {
      assert xs + ys == xs;
    } else {
      var front, y := ys[..|ys| - 1], ys[|ys| - 1];
      assert xs + ys == (xs + front) + [y];
      FramesConcatenate(xs, front);
      FramesGrow(xs + front, y);
      assert (Frames(xs) + Frames(front)) + Framed(y) == Frames(xs) + (Frames(front) + Framed(y));
    }
  }

  lemma FramesGrow(parts: seq<string>, part: string)
    ensures Frames(parts + [part]) == Frames(parts) + Framed(part)
  {
    hide Framed;
    assert (parts + [part])[..|parts|] == parts;
  }

  lemma FramesFromHead(xs: seq<string>)
    requires xs != []
    ensures Frames(xs) == Framed(xs[0]) + Frames(xs[1..])
  {
    hide Framed;
    assert xs == [xs[0]] + xs[1..];
    FramesConcatenate([xs[0]], xs[1..]);
    FramesGrow([], xs[0]);
    assert [] + [xs[0]] == [xs[0]];
  }

  lemma {:induction false} FramesAreInjective(xs: seq<string>, ys: seq<string>)
    requires Frames(xs) == Frames(ys)
    ensures xs == ys
    decreases |xs|
  {
    hide Decimal;
    if xs != [] && ys != [] {
      FramesFromHead(xs);
      FramesFromHead(ys);
      FrameIsPrefixFree(xs[0], Frames(xs[1..]), ys[0], Frames(ys[1..]));
      FramesAreInjective(xs[1..], ys[1..]);
      assert xs == [xs[0]] + xs[1..] && ys == [ys[0]] + ys[1..];
    }
  }

  /** The label keys, each followed by its value. */
  function Pairs(labels: map<string, string>, keys: seq<string>): seq<string> {
    if keys == [] then [] else
    Pairs(labels, keys[..|keys| - 1]) + [keys[|keys| - 1], Lookup(labels, keys[|keys| - 1])]
  }

  lemma {:induction false} PairsAreInjective(a: map<string, string>, ka: seq<string>, b: map<string, string>,
                                             kb: seq<string>)
    requires Pairs(a, ka) == Pairs(b, kb)
    ensures ka == kb && forall k :: k in ka ==> Lookup(a, k) == Lookup(b, k)
    decreases |ka|
  {
    hide Lookup;
    if ka != [] && kb != [] {
      LastPair(a, ka);
      LastPair(b, kb);
      PairsAreInjective(a, ka[..|ka| - 1], b, kb[..|kb| - 1]);
      assert ka == ka[..|ka| - 1] + [ka[|ka| - 1]] && kb == kb[..|kb| - 1] + [kb[|kb| - 1]];
    }
  }

  lemma LastPair(labels: map<string, string>, keys: seq<string>)
    requires keys != []
    ensures var w, k := Pairs(labels, keys), keys[|keys| - 1];
            && |w| >= 2 && w[|w| - 2] == k && w[|w| - 1] == Lookup(labels, k)
            && w[..|w| - 2] == Pairs(labels, keys[..|keys| - 1])
  {
    hide Lookup;
    var p, k := Pairs(labels, keys[..|keys| - 1]), keys[|keys| - 1];
    assert Pairs(labels, keys) == p + [k, Lookup(labels, k)];
  }

  /** The identity of a series: its name, then its labels in key order, every part length-prefixed. */
  ghost function FingerprintOf(s: Series): string {
    Frames([s.name] + Pairs(s.labels, Sorted(s.labels.Keys)))
  }

  /** Two series share a fingerprint exactly when they are the same series, whatever bytes a peer
      puts in names and values. */
  lemma FingerprintIdentifies(a: Series, b: Series)
    ensures FingerprintOf(a) == FingerprintOf(b) <==> a.name == b.name && a.labels == b.labels
  {
    var ka, kb := Sorted(a.labels.Keys), Sorted(b.labels.Keys);
    var pa, pb := Pairs(a.labels, ka), Pairs(b.labels, kb);
    if FingerprintOf(a) == FingerprintOf(b) {
      FramesAreInjective([a.name] + pa, [b.name] + pb);
      assert ([a.name] + pa)[0] == ([b.name] + pb)[0];
      assert pa == ([a.name] + pa)[1..] == ([b.name] + pb)[1..] == pb;
      PairsAreInjective(a.labels, ka, b.labels, kb);
      assert a.labels.Keys == Elements(ka) == b.labels.Keys;
      assert forall k :: k in a.labels.Keys ==> k in Elements(ka) && k in ka;
    }
  }

  lemma FramesOfPair(k: string, v: string)
    ensures Frames([k, v]) == Framed(k) + Framed(v)
  {
    hide Framed;
    FramesGrow([k], v);
    assert [k][..0] == [] && Frames([]) == "" && Frames([k]) == "" + Framed(k) == Framed(k);
    assert [k] + [v] == [k, v];
  }

  lemma PairsGrow(labels: map<string, string>, keys: seq<string>, k: string)
    ensures Frames(Pairs(labels, keys + [k])) ==
            Frames(Pairs(labels, keys)) + (Framed(k) + Framed(Lookup(labels, k)))
  {
    var v := Lookup(labels, k);
    assert (keys + [k])[..|keys|] == keys;
    hide Framed, Frames, Lookup;
    FramesConcatenate(Pairs(labels, keys), [k, v]);
    FramesOfPair(k, v);
  }

  /** How many bytes one label adds to a fingerprint. */
  ghost function LabelSize(labels: map<string, string>): string -> real {
    k => (|Framed(k)| + |Framed(Lookup(labels, k))|) as real
  }

  lemma SizeGrows(labels: map<string, string>, keys: seq<string>, k: string)
    ensures |Frames(Pairs(labels, keys + [k]))| as real == |Frames(Pairs(labels, keys))| as real + LabelSize(labels)(k)
  {
    PairsGrow(labels, keys, k);
  }

  lemma {:induction false} SizeOfPairs(labels: map<string, string>, keys: seq<string>)
    ensures |Frames(Pairs(labels, keys))| as real == SumOf(keys, LabelSize(labels))
    decreases |keys|
  {
    if keys != [] {
      var front, k := keys[..|keys| - 1], keys[|keys| - 1];
      assert keys == front + [k];
      SizeOfPairs(labels, front);
      SizeGrows(labels, front, k);
      SumGrows(front, k, LabelSize(labels));
    }
  }

  lemma {:induction false} ListingMultiset(xs: seq<string>)
    requires forall i, j :: 0 <= i < j < |xs| ==> xs[i] != xs[j]
    ensures multiset(xs) == multiset(Elements(xs))
    decreases |xs|
  {
    if xs != [] {
      var front, x := xs[..|xs| - 1], xs[|xs| - 1];
      ListingMultiset(front);
      assert xs == front + [x];
      assert Elements(xs) == Elements(front) + {x} && x !in Elements(front);
    }
  }

  /** The size summed in map order equals the size of the sorted rendering. */
  lemma SizeIgnoresOrder(labels: map<string, string>, xs: seq<string>, ys: seq<string>)
    requires forall i, j :: 0 <= i < j < |xs| ==> xs[i] != xs[j]
    requires Lists(ys, Elements(xs))
    ensures |Frames(Pairs(labels, xs))| == |Frames(Pairs(labels, ys))|
  {
    forall i, j | 0 <= i < j < |ys| ensures ys[i] != ys[j] {
      BeforeIsStrictTotal(ys[i], ys[j]);
    }
    ListingMultiset(xs);
    ListingMultiset(ys);
    SumIgnoresOrder(xs, ys, LabelSize(labels));
    SizeOfPairs(labels, xs);
    SizeOfPairs(labels, ys);
  }

  /** Counts digits by repeated division instead of rendering the number. */
  method LenPrefixedSize(s: string) returns (size: nat)
    ensures size == |Framed(s)|
  {
    var digits, v := 1, |s|;
    while v >= 10
      invariant digits >= 1 && v >= 0
      invariant digits - 1 + |Decimal(v)| == |Decimal(|s|)|
      decreases v
    {
      v := v / 10;
      digits := digits + 1;
    }
    return digits + 1 + |s|;
  }

  lemma NoPairs(s: Series)
    ensures Frames(Pairs(s.labels, [])) == "" && Framed(s.name) + "" == Framed(s.name)
  {
  }

  /** The builder size, accumulated while the label map is ranged over in no particular order. */
  method PresizedLength(s: Series) returns (size: nat)
    ensures size == |FingerprintOf(s)|
  {
    hide Framed, Frames, Pairs, FingerprintOf;
    NoPairs(s);
    var keys, rest := [], s.labels.Keys;
    size := LenPrefixedSize(s.name);
    while rest != {}
      invariant rest <= s.labels.Keys && Elements(keys) == s.labels.Keys - rest
      invariant forall i, j :: 0 <= i < j < |keys| ==> keys[i] != keys[j]
      invariant size == |Framed(s.name)| + |Frames(Pairs(s.labels, keys))|
      decreases rest
    {
      var k :| k in rest;
      var forKey := LenPrefixedSize(k);
      var forValue := LenPrefixedSize(s.labels[k]);
      assert k !in Elements(keys);
      PairsGrow(s.labels, keys, k);
      assert Elements(keys + [k]) == Elements(keys) + {k};
      keys, rest := keys + [k], rest - {k};
      size := size + forKey + forValue;
    }
    SizeIgnoresOrder(s.labels, keys, Sorted(s.labels.Keys));
    FramesOfSeries(s);
  }

  lemma FramesOfSeries(s: Series)
    ensures FingerprintOf(s) == Framed(s.name) + Frames(Pairs(s.labels, Sorted(s.labels.Keys)))
  {
    var parts := [s.name] + Pairs(s.labels, Sorted(s.labels.Keys));
    FramesFromHead(parts);
    assert parts[1..] == Pairs(s.labels, Sorted(s.labels.Keys));
  }

  /** Writes the parts into a builder grown once to `size`, which is exactly what gets written. */
  method Fingerprint(s: Series) returns (fp: string, size: nat)
    ensures fp == FingerprintOf(s)
    ensures size == |fp|
  {
    hide Framed, Frames, Pairs, FingerprintOf;
    size := PresizedLength(s);
    NoPairs(s);
    var keys := SortedKeys(s.labels.Keys);
    fp := Framed(s.name);
    for i := 0 to |keys|
      invariant fp == Framed(s.name) + Frames(Pairs(s.labels, keys[..i]))
    {
      PairsGrow(s.labels, keys[..i], keys[i]);
      assert keys[..i + 1] == keys[..i] + [keys[i]];
      assert keys[i] in Elements(keys);
      fp := fp + (Framed(keys[i]) + Framed(s.labels[keys[i]]));
    }
    assert keys[..|keys|] == keys;
    ListingIsUnique(keys, Sorted(s.labels.Keys));
    FramesOfSeries(s);
  }
}
