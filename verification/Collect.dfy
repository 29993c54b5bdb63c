/** Gathering annotated Deployments and folding one answer of the metric source into their
    heartbeats (internal/agent/agent.go). */
module Collect {
  import opened Wrappers
  import opened Text
  import opened SlugIndex
  import opened Reduce

  const MAX_WARNED_SLUG_PAIRS := 1024
  const PAIR_SEPARATOR := '\U{1f}'

  datatype Status = Up | Degraded | Down

  datatype Pod = Pod(name: string, restarts: seq<int>)

  /** A Deployment as listed: its annotation (empty when absent), replica counts, rendered selector
      and the answer of listing its pods. */
  datatype Deployment = Deployment(name: string, slug: string, ready: int, desired: Option<int>,
                                   selector: string, pods: Option<seq<Pod>>)

  /** One configured namespace and what listing its Deployments returned. */
  datatype Listing = Listing(namespace: string, deployments: Option<seq<Deployment>>)

  datatype Heartbeat = Heartbeat(slug: string, name: string, status: Status, ready: int, desired: int,
                                 restarts: Option<int>, intervalSeconds: int, metrics: seq<MetricSample>)

  type Answers = map<string, seq<MetricSample>>

  function DeriveStatus(ready: int, desired: int): Status {
    if desired <= 0 || ready <= 0 then Down else if ready >= desired then Up else Degraded
  }

  /** Signed 32-bit wrap-around. */
  function Int32(x: int): int { (x + 0x8000_0000) % 0x1_0000_0000 - 0x8000_0000 }

  function SumInts(xs: seq<int>, n: nat): int
    requires n <= |xs|
  {
    if n == 0 then 0 else Int32(SumInts(xs, n - 1) + xs[n - 1])
  }

  function ExactSum(xs: seq<int>, n: nat): int
    requires n <= |xs|
  {
    if n == 0 then 0 else ExactSum(xs, n - 1) + xs[n - 1]
  }

  /** Wrapping at every step is wrapping the true total once. */
  lemma {:induction false} RestartsAreTheWrappedTotal(xs: seq<int>, n: nat)
    requires n <= |xs|
    ensures SumInts(xs, n) == Int32(ExactSum(xs, n))
  {
    if n > 0 {
      RestartsAreTheWrappedTotal(xs, n - 1);
    }
  }

  /** Wrapping is the signed 32-bit number congruent to the sum. */
  lemma Int32IsCongruent(x: int)
    ensures -0x8000_0000 <= Int32(x) < 0x8000_0000 && (x - Int32(x)) % 0x1_0000_0000 == 0
  {
  }

  /** The restarts of every container of every pod. */
  ghost function TotalRestarts(pods: seq<Pod>, n: nat): int
    requires n <= |pods|
  {
    if n == 0 then 0 else TotalRestarts(pods, n - 1) + ExactSum(pods[n - 1].restarts, |pods[n - 1].restarts|)
  }

  lemma {:induction false} SumsAppend(xs: seq<int>, ys: seq<int>, n: nat)
    requires n <= |ys|
    ensures ExactSum(xs + ys, |xs| + n) == ExactSum(xs, |xs|) + ExactSum(ys, n)
  {
    if n == 0 {
      SumOfPrefix(xs, ys, |xs|);
    } else {
      SumsAppend(xs, ys, n - 1);
    }
  }

  lemma {:induction false} SumOfPrefix(xs: seq<int>, ys: seq<int>, n: nat)
    requires n <= |xs|
    ensures ExactSum(xs + ys, n) == ExactSum(xs, n)
  {
    if n > 0 {
      SumOfPrefix(xs, ys, n - 1);
    }
  }

  lemma {:induction false} AllRestartsAreSummed(pods: seq<Pod>)
    ensures ExactSum(AllRestarts(pods), |AllRestarts(pods)|) == TotalRestarts(pods, |pods|)
    decreases |pods|
  {
    if pods != [] {
      var front, last := pods[..|pods| - 1], pods[|pods| - 1];
      AllRestartsAreSummed(front);
      SumsAppend(AllRestarts(front), last.restarts, |last.restarts|);
      TotalOfPrefix(pods, |front|);
    }
  }

  lemma {:induction false} TotalOfPrefix(pods: seq<Pod>, n: nat)
    requires n < |pods|
    ensures TotalRestarts(pods[..|pods| - 1], n) == TotalRestarts(pods, n)
  {
    if n > 0 {
      TotalOfPrefix(pods, n - 1);
    }
  }

  function AllRestarts(pods: seq<Pod>): seq<int> {
    if pods == [] then [] else AllRestarts(pods[..|pods| - 1]) + pods[|pods| - 1].restarts
  }

  function PodNames(pods: seq<Pod>): seq<string> { seq(|pods|, i requires 0 <= i < |pods| => pods[i].name) }

  /** The pods that were listed: none without a selector or when listing them failed. */
  function ListedPods(d: Deployment): Option<seq<Pod>> { if d.selector == "" then None else d.pods }

  function HeartbeatOf(d: Deployment, intervalSeconds: int): Heartbeat {
    var desired := if d.desired.Some? then d.desired.value else 0;
    var pods := ListedPods(d);
    var restarts := if pods.Some? then Some(SumInts(AllRestarts(pods.value), |AllRestarts(pods.value)|)) else None;
    Heartbeat(d.slug, d.name, DeriveStatus(d.ready, desired), d.ready, desired, restarts, intervalSeconds, [])
  }

  function TargetOf(namespace: string, d: Deployment): Target {
    Target(d.slug, namespace, d.selector, if ListedPods(d).Some? then PodNames(ListedPods(d).value) else [])
  }

  // ---- The Deployments in the order they are met -------------------------------------------------

  datatype Entry = Entry(namespace: string, d: Deployment) {
    function Workload(): string { namespace + "/" + d.name }
  }

  function EntriesOf(namespace: string, ds: seq<Deployment>): seq<Entry> {
    seq(|ds|, i requires 0 <= i < |ds| => Entry(namespace, ds[i]))
  }

  /** The entries of the namespaces that were listed before the first failure. */
  function Entries(listings: seq<Listing>): seq<Entry> {
    if listings == [] then [] else
    Entries(listings[..|listings| - 1]) +
      match listings[|listings| - 1].deployments
      case None => []
      case Some(ds) => EntriesOf(listings[|listings| - 1].namespace, ds)
  }

  /** The namespaces before the first one whose listing failed. */
  function Reached(listings: seq<Listing>): (r: seq<Listing>)
    ensures |r| <= |listings|
  {
    if listings == [] then [] else
    var before, last := Reached(listings[..|listings| - 1]), listings[|listings| - 1];
    if |before| == |listings| - 1 && last.deployments.Some? then before + [last] else before
  }

  ghost function SlugsIn(entries: seq<Entry>): set<string> {
    set e | e in entries && e.d.slug != "" :: e.d.slug
  }

  /** First Deployment wins: an entry is reported unless it has no slug or an earlier one has it. */
  ghost function Winners(entries: seq<Entry>): seq<Entry> {
    if entries == [] then [] else
    var front, e := entries[..|entries| - 1], entries[|entries| - 1];
    if e.d.slug != "" && e.d.slug !in SlugsIn(front) then Winners(front) + [e] else Winners(front)
  }

  /** The keys under which shadowed workloads are warned about, in order. */
  ghost function ShadowedKeys(entries: seq<Entry>): seq<string> {
    if entries == [] then [] else
    var front, e := entries[..|entries| - 1], entries[|entries| - 1];
    if e.d.slug in SlugsIn(front) then ShadowedKeys(front) + [PairKey(e.d.slug, e.Workload())] else ShadowedKeys(front)
  }

  ghost function Heartbeats(winners: seq<Entry>, intervalSeconds: int): seq<Heartbeat> {
    seq(|winners|, i requires 0 <= i < |winners| => HeartbeatOf(winners[i].d, intervalSeconds))
  }

  ghost function Targets(winners: seq<Entry>): seq<Target> {
    seq(|winners|, i requires 0 <= i < |winners| => TargetOf(winners[i].namespace, winners[i].d))
  }

  // ---- The entries, read off the listings --------------------------------------------------------

  predicate IsDeployment(listings: seq<Listing>, p: (nat, nat)) {
    p.0 < |listings| && listings[p.0].deployments.Some? && p.1 < |listings[p.0].deployments.value|
  }

  predicate Earlier(p: (nat, nat), q: (nat, nat)) { p.0 < q.0 || (p.0 == q.0 && p.1 < q.1) }

  /** The entries are all Deployments of all listings, in order, each under its listing's namespace; `ps`
      says which listing and which Deployment of it. */
  ghost predicate Met(ps: seq<(nat, nat)>, listings: seq<Listing>, entries: seq<Entry>) {
    && |ps| == |entries| && (forall p :: p in ps <==> IsDeployment(listings, p))
    && (forall i, j :: 0 <= i < j < |ps| ==> Earlier(ps[i], ps[j]))
    && (forall i :: 0 <= i < |ps| ==>
          IsDeployment(listings, ps[i]) &&
          entries[i] == Entry(listings[ps[i].0].namespace, listings[ps[i].0].deployments.value[ps[i].1]))
  }

  function Places(l: nat, n: nat): seq<(nat, nat)> { seq(n, j requires 0 <= j < n => (l, j)) }

  lemma PlacesAre(l: nat, n: nat, p: (nat, nat))
    ensures p in Places(l, n) <==> p.0 == l && p.1 < n
  {
    if p.0 == l && p.1 < n { assert Places(l, n)[p.1] == p; }
  }

  lemma MetOneMore(ps: seq<(nat, nat)>, front: seq<Listing>, entries: seq<Entry>, ns: string, ds: seq<Deployment>)
    requires Met(ps, front, entries)
    ensures Met(ps + Places(|front|, |ds|), front + [Listing(ns, Some(ds))], entries + EntriesOf(ns, ds))
  {
    var listings, all := front + [Listing(ns, Some(ds))], ps + Places(|front|, |ds|);
    forall p ensures p in all <==> IsDeployment(listings, p) {
      PlacesAre(|front|, |ds|, p);
      assert p in all <==> p in ps || p in Places(|front|, |ds|);
    }
    forall i | 0 <= i < |all|
      ensures IsDeployment(listings, all[i])
      ensures (entries + EntriesOf(ns, ds))[i] ==
              Entry(listings[all[i].0].namespace, listings[all[i].0].deployments.value[all[i].1])
    {
      if i < |ps| { assert IsDeployment(front, ps[i]); }
    }
    forall i, j | 0 <= i < j < |all| ensures Earlier(all[i], all[j]) {
      if i < |ps| { assert IsDeployment(front, ps[i]); }
    }
  }

  lemma {:induction false} EntriesAre(listings: seq<Listing>) returns (ps: seq<(nat, nat)>)
    ensures Met(ps, listings, Entries(listings))
    decreases |listings|
  {
    hide Met, EntriesOf, Places;
    if listings == [] {
      ps := [];
      NothingMet();
    } else {
      var front, last := listings[..|listings| - 1], listings[|listings| - 1];
      ps := EntriesAre(front);
      assert listings == front + [last];
      match last.deployments {
        case None =>
          MetUnlisted(ps, front, Entries(front), last);
          assert Entries(front) + [] == Entries(front);
        case Some(ds) =>
          assert last == Listing(last.namespace, Some(ds));
          MetOneMore(ps, front, Entries(front), last.namespace, ds);
          ps := ps + Places(|front|, |ds|);
      }
    }
  }

  lemma NothingMet()
    ensures Met([], [], [])
  {
  }

  lemma MetUnlisted(ps: seq<(nat, nat)>, front: seq<Listing>, entries: seq<Entry>, last: Listing)
    requires Met(ps, front, entries) && last.deployments.None?
    ensures Met(ps, front + [last], entries)
  {
    forall p ensures IsDeployment(front + [last], p) <==> IsDeployment(front, p) {
    }
  }

  /** An earlier entry has its slug. */
  ghost predicate IsShadowed(entries: seq<Entry>, k: nat)
    requires k < |entries|
  {
    entries[k].d.slug != "" && exists j :: 0 <= j < k && entries[j].d.slug == entries[k].d.slug
  }

  /** What a shadowed workload is warned about under: its slug, its namespace and its name. */
  function ShadowKey(e: Entry): string { e.d.slug + [PAIR_SEPARATOR] + (e.namespace + "/" + e.d.name) }

  function ShadowKeys(entries: seq<Entry>): seq<string> {
    seq(|entries|, k requires 0 <= k < |entries| => ShadowKey(entries[k]))
  }

  /** The shadowed workloads are the entries whose slug an earlier entry has, in the order met, each under
      its own key. */
  lemma {:induction false} ShadowedKeysAre(entries: seq<Entry>) returns (ks: seq<nat>)
    ensures Picks(ks, ShadowKeys(entries), ShadowedKeys(entries))
    ensures forall k :: 0 <= k < |entries| ==> (k in ks <==> IsShadowed(entries, k))
    decreases |entries|
  {
    hide SlugsIn, IsShadowed, ShadowKey, PairKey, Picks;
    ks := [];
    if entries == [] {
      NothingPicked(ShadowKeys(entries));
    } else {
      var front, e := entries[..|entries| - 1], entries[|entries| - 1];
      ks := ShadowedKeysAre(front);
      ShadowedStay(entries);
      KeyOfShadowed(e);
      PickNext(ks, ShadowKeys(front), ShadowedKeys(front), ShadowKey(e));
      assert ShadowKeys(entries) == ShadowKeys(front) + [ShadowKey(e)];
      if e.d.slug in SlugsIn(front) {
        ks := ks + [|front|];
      }
    }
  }

  lemma KeyOfShadowed(e: Entry)
    ensures PairKey(e.d.slug, e.Workload()) == ShadowKey(e)
  {
  }

  lemma ShadowedStay(entries: seq<Entry>)
    requires entries != []
    ensures var front := entries[..|entries| - 1];
            && (forall k :: 0 <= k < |front| ==> (IsShadowed(entries, k) <==> IsShadowed(front, k)))
            && (IsShadowed(entries, |front|) <==> entries[|front|].d.slug in SlugsIn(front))
  {
    hide SlugsIn;
    var front := entries[..|entries| - 1];
    SlugsAre(front, entries[|front|].d.slug);
  }

  lemma SlugsAre(entries: seq<Entry>, slug: string)
    ensures slug in SlugsIn(entries) <==> slug != "" && exists j :: 0 <= j < |entries| && entries[j].d.slug == slug
  {
    if j :| 0 <= j < |entries| && entries[j].d.slug == slug {
      assert entries[j] in entries;
    }
  }

  // ---- The duplicate-slug latch ------------------------------------------------------------------

  datatype Line = Named(key: string) | Overflow

  datatype Latch = Latch(pairs: set<string>, overflow: bool, log: seq<Line>)

  function PairKey(slug: string, shadowed: string): string { slug + [PAIR_SEPARATOR] + shadowed }

  function Warn(l: Latch, key: string): Latch {
    if key in l.pairs then l
    else if |l.pairs| >= MAX_WARNED_SLUG_PAIRS then
      Latch(l.pairs, true, if l.overflow then l.log else l.log + [Overflow])
    else Latch(l.pairs + {key}, l.overflow, l.log + [Named(key)])
  }

  /** What the log owes the latch: it is bounded, and names each pair once and the overflow once. */
  ghost predicate Faithful(l: Latch) {
    && |l.pairs| <= MAX_WARNED_SLUG_PAIRS
    && (forall key :: key in l.pairs <==> Named(key) in l.log)
    && (l.overflow <==> Overflow in l.log)
    && (forall i, j :: 0 <= i < j < |l.log| ==> l.log[i] != l.log[j])
    && |l.log| == |l.pairs| + (if l.overflow then 1 else 0)
  }

  ghost function WarnAll(l: Latch, keys: seq<string>): Latch {
    if keys == [] then l else Warn(WarnAll(l, keys[..|keys| - 1]), keys[|keys| - 1])
  }

  /** The distinct keys in the order first met. */
  function FirstSeen(keys: seq<string>): seq<string> {
    if keys == [] then [] else
    var before, key := FirstSeen(keys[..|keys| - 1]), keys[|keys| - 1];
    if key in before then before else before + [key]
  }

  ghost predicate AllDiffer(keys: seq<string>) { forall i, j :: 0 <= i < j < |keys| ==> keys[i] != keys[j] }

  lemma {:induction false} DifferentKeysCount(keys: seq<string>)
    requires AllDiffer(keys)
    ensures |Elements(keys)| == |keys|
    decreases |keys|
  {
    EmptyElements(keys);
    if keys != [] {
      var front, key := keys[..|keys| - 1], keys[|keys| - 1];
      DifferentKeysCount(front);
      assert keys == front + [key] && key !in Elements(front);
      assert Elements(keys) == Elements(front) + {key};
    }
  }

  lemma {:induction false} FirstSeenAre(keys: seq<string>)
    ensures AllDiffer(FirstSeen(keys)) && Elements(FirstSeen(keys)) == Elements(keys)
    decreases |keys|
  {
    if keys != [] {
      var front, key := keys[..|keys| - 1], keys[|keys| - 1];
      FirstSeenAre(front);
      assert keys == front + [key];
      assert key in FirstSeen(front) <==> key in Elements(FirstSeen(front));
      assert Elements(keys) == Elements(front) + {key};
      assert Elements(FirstSeen(front) + [key]) == Elements(FirstSeen(front)) + {key};
    }
  }

  function NamedLines(keys: seq<string>): seq<Line> {
    seq(|keys|, i requires 0 <= i < |keys| => Named(keys[i]))
  }

  /** The latch after `seen` were the distinct keys met: it holds and has logged the first 1024 of them,
      in order, and the overflow when there were more. */
  ghost function LatchFor(seen: seq<string>): Latch {
    if |seen| <= MAX_WARNED_SLUG_PAIRS then Latch(Elements(seen), false, NamedLines(seen)) else
    var first := seen[..MAX_WARNED_SLUG_PAIRS];
    Latch(Elements(first), true, NamedLines(first) + [Overflow])
  }

  lemma WarnFollowsSeen(seen: seq<string>, key: string)
    requires AllDiffer(seen)
    ensures Warn(LatchFor(seen), key) == LatchFor(if key in seen then seen else seen + [key])
  {
    var more := seen + [key];
    if |seen| < MAX_WARNED_SLUG_PAIRS {
      DifferentKeysCount(seen);
      assert key in seen <==> key in Elements(seen);
      assert Elements(more) == Elements(seen) + {key};
      assert NamedLines(more) == NamedLines(seen) + [Named(key)];
    } else {
      var first := seen[..MAX_WARNED_SLUG_PAIRS];
      DifferentKeysCount(first);
      assert more[..MAX_WARNED_SLUG_PAIRS] == first;
      assert key in Elements(first) ==> key in seen;
      if |seen| == MAX_WARNED_SLUG_PAIRS { assert first == seen; }
    }
  }

  /** Over every run of duplicates the log is exactly this: the first 1024 distinct pairs, each once and
      in the order met, and one overflow line when there are more. */
  lemma {:induction false} DuplicateLogIsExact(keys: seq<string>)
    ensures WarnAll(Latch({}, false, []), keys) == LatchFor(FirstSeen(keys))
    ensures WarnAll(Latch({}, false, []), keys).overflow <==> |Elements(keys)| > MAX_WARNED_SLUG_PAIRS
    decreases |keys|
  {
    hide Warn, AllDiffer;
    FirstSeenAre(keys);
    DifferentKeysCount(FirstSeen(keys));
    if keys == [] {
      assert LatchFor([]) == Latch({}, false, []);
    } else {
      var front := keys[..|keys| - 1];
      DuplicateLogIsExact(front);
      FirstSeenAre(front);
      WarnFollowsSeen(FirstSeen(front), keys[|keys| - 1]);
    }
  }

  /** So the latch never exceeds its bound and the log never repeats a line. */
  lemma DuplicateLogIsBounded(keys: seq<string>)
    ensures var l := WarnAll(Latch({}, false, []), keys);
            Faithful(l) && |l.log| <= MAX_WARNED_SLUG_PAIRS + 1
    ensures |Elements(keys)| <= MAX_WARNED_SLUG_PAIRS ==> WarnAll(Latch({}, false, []), keys).pairs == Elements(keys)
  {
    hide WarnAll, Elements;
    DuplicateLogIsExact(keys);
    FirstSeenAre(keys);
    DifferentKeysCount(FirstSeen(keys));
    LatchIsFaithful(FirstSeen(keys));
  }

  lemma LatchIsFaithful(seen: seq<string>)
    requires AllDiffer(seen)
    ensures Faithful(LatchFor(seen)) && |LatchFor(seen).log| <= MAX_WARNED_SLUG_PAIRS + 1
  {
    var first := if |seen| <= MAX_WARNED_SLUG_PAIRS then seen else seen[..MAX_WARNED_SLUG_PAIRS];
    DifferentKeysCount(first);
    assert forall i :: 0 <= i < |first| ==> NamedLines(first)[i] == Named(first[i]);
  }

  /** A key stands for one slug and workload: Kubernetes names never carry the separator, a slug may. */
  lemma PairKeyIdentifies(slug: string, shadowed: string, slug': string, shadowed': string)
    requires PAIR_SEPARATOR !in shadowed && PAIR_SEPARATOR !in shadowed'
    ensures PairKey(slug, shadowed) == PairKey(slug', shadowed') <==> slug == slug' && shadowed == shadowed'
  {
    var key, n := PairKey(slug, shadowed), |slug|;
    if key == PairKey(slug', shadowed') {
      var other := PairKey(slug', shadowed');
      assert forall i :: n < i < |key| ==> key[i] == shadowed[i - n - 1];
      assert forall i :: |slug'| < i < |key| ==> key[i] == other[i] == shadowed'[i - |slug'| - 1];
      assert key[n] == PAIR_SEPARATOR == key[|slug'|];
      assert slug == key[..n] && slug' == key[..n] && shadowed == key[n + 1..] && shadowed' == key[n + 1..];
    }
  }

  // ---- One heartbeat per slug --------------------------------------------------------------------

  /** The first entry carrying its slug. */
  ghost predicate IsFirst(entries: seq<Entry>, k: nat)
    requires k < |entries|
  {
    entries[k].d.slug != "" && forall j :: 0 <= j < k ==> entries[j].d.slug != entries[k].d.slug
  }

  /** What is reported are the first entries of every slug, each slug once, in the order met. */
  lemma {:induction false} WinnersAreFirst(entries: seq<Entry>) returns (ks: seq<nat>)
    ensures |ks| == |Winners(entries)|
    ensures forall i :: 0 <= i < |ks| ==>
              ks[i] < |entries| && Winners(entries)[i] == entries[ks[i]] && IsFirst(entries, ks[i])
    ensures forall i, j :: 0 <= i < j < |ks| ==> ks[i] < ks[j]
    ensures (set w | w in Winners(entries) :: w.d.slug) == SlugsIn(entries)
    decreases |entries|
  {
    hide SlugsIn, IsFirst;
    NoSlugs();
    ks := [];
    if entries != [] {
      var front, e := entries[..|entries| - 1], entries[|entries| - 1];
      ks := WinnersAreFirst(front);
      assert entries == front + [e];
      SlugsGrow(front, e);
      WinnerSlugsGrow(Winners(front), e);
      FirstsStayFirst(front, e);
      if e.d.slug != "" && e.d.slug !in SlugsIn(front) {
        ks := ks + [|front|];
      }
    }
  }

  lemma NoSlugs()
    ensures SlugsIn([]) == {}
  {
  }

  lemma FirstsStayFirst(front: seq<Entry>, e: Entry)
    ensures forall k :: 0 <= k < |front| && IsFirst(front, k) ==> IsFirst(front + [e], k)
    ensures e.d.slug != "" && e.d.slug !in SlugsIn(front) ==> IsFirst(front + [e], |front|)
  {
    var entries := front + [e];
    assert forall j :: 0 <= j < |front| ==> entries[j] == front[j] && front[j] in front;
  }

  lemma SlugsGrow(entries: seq<Entry>, e: Entry)
    ensures SlugsIn(entries + [e]) == SlugsIn(entries) + if e.d.slug != "" then {e.d.slug} else {}
  {
    assert forall x :: x in entries + [e] <==> x in entries || x == e;
  }

  lemma WinnerSlugsGrow(ws: seq<Entry>, e: Entry)
    ensures (set w | w in ws + [e] :: w.d.slug) == (set w | w in ws :: w.d.slug) + {e.d.slug}
  {
    assert forall x :: x in ws + [e] <==> x in ws || x == e;
  }

  /** Winners carry distinct slugs, none of them empty: what attribution relies on. */
  lemma WinnersAreDistinct(entries: seq<Entry>)
    ensures forall w :: w in Winners(entries) ==> w.d.slug != ""
    ensures forall i, j :: 0 <= i < j < |Winners(entries)| ==> Winners(entries)[i].d.slug != Winners(entries)[j].d.slug
  {
    hide Winners, SlugsIn;
    var ks := WinnersAreFirst(entries);
    forall i, j | 0 <= i < j < |Winners(entries)| ensures Winners(entries)[i].d.slug != Winners(entries)[j].d.slug {
      assert IsFirst(entries, ks[j]) && ks[i] < ks[j];
    }
  }

  // ---- Folding the answer in ---------------------------------------------------------------------

  function SamplesFor(samples: Answers, slug: string): seq<MetricSample> {
    if slug in samples then samples[slug] else []
  }

  ghost function Folded(hs: seq<Heartbeat>, samples: Answers): seq<Heartbeat> {
    seq(|hs|, i requires 0 <= i < |hs| => hs[i].(metrics := hs[i].metrics + SamplesFor(samples, hs[i].slug)))
  }

  /** How many of the first `n` samples carry the key. */
  function Occurrences(ms: seq<MetricSample>, key: string, n: nat): nat
    requires n <= |ms|
  {
    if n == 0 then 0 else Occurrences(ms, key, n - 1) + if ms[n - 1].key == key then 1 else 0
  }

  ghost function KeyCount(hs: seq<Heartbeat>, samples: Answers, key: string, n: nat): nat
    requires n <= |hs|
  {
    if n == 0 then 0 else
    var ms := SamplesFor(samples, hs[n - 1].slug);
    KeyCount(hs, samples, key, n - 1) + Occurrences(ms, key, |ms|)
  }

  ghost function MappedCount(hs: seq<Heartbeat>, samples: Answers, n: nat): nat
    requires n <= |hs|
  {
    if n == 0 then 0 else MappedCount(hs, samples, n - 1) + if SamplesFor(samples, hs[n - 1].slug) != [] then 1 else 0
  }

  function CountIn(perRole: map<string, nat>, key: string): nat { if key in perRole then perRole[key] else 0 }

  datatype Report = Report(heartbeats: seq<Heartbeat>, mapped: nat, cpuSamples: nat, memorySamples: nat)

  ghost function ReportOf(hs: seq<Heartbeat>, samples: Answers): Report {
    Report(Folded(hs, samples), MappedCount(hs, samples, |hs|),
           KeyCount(hs, samples, METRIC_CPU_MILLICORES, |hs|), KeyCount(hs, samples, METRIC_MEMORY_BYTES, |hs|))
  }

  method CountKeys(perRole: map<string, nat>, ms: seq<MetricSample>) returns (next: map<string, nat>)
    ensures forall key :: CountIn(next, key) == CountIn(perRole, key) + Occurrences(ms, key, |ms|)
  {
    next := perRole;
    for i := 0 to |ms|
      invariant forall key :: CountIn(next, key) == CountIn(perRole, key) + Occurrences(ms, key, i)
    {
      next := next[ms[i].key := CountIn(next, ms[i].key) + 1];
    }
  }

  /** Writes each heartbeat's samples into it and counts what was mapped. */
  method FoldIn(hs: seq<Heartbeat>, samples: Answers) returns (r: Report)
    ensures r == ReportOf(hs, samples) && |r.heartbeats| == |hs|
    ensures forall i :: 0 <= i < |hs| ==>
              r.heartbeats[i] == hs[i].(metrics := hs[i].metrics + Given(Some(samples), hs[i].slug))
  {
    hide Occurrences, SamplesFor, Given, Folded;
    var out, mapped: nat, perRole: map<string, nat> := hs, 0, map[];
    FoldedGives(hs, samples);
    for i := 0 to |hs|
      invariant |out| == |hs| && forall j :: 0 <= j < |hs| ==> out[j] == if j < i then Folded(hs, samples)[j] else hs[j]
      invariant mapped == MappedCount(hs, samples, i)
      invariant forall key :: CountIn(perRole, key) == KeyCount(hs, samples, key, i)
    {
      var ms := SamplesFor(samples, out[i].slug);
      NoOccurrences();
      GivenIs(samples, hs[i].slug);
      if ms != [] {
        out := out[i := out[i].(metrics := out[i].metrics + ms)];
        mapped := mapped + 1;
        perRole := CountKeys(perRole, ms);
      } else {
        assert hs[i].metrics + ms == hs[i].metrics;
      }
    }
    assert out == Folded(hs, samples);
    r := Report(out, mapped, CountIn(perRole, METRIC_CPU_MILLICORES), CountIn(perRole, METRIC_MEMORY_BYTES));
  }

  lemma NoOccurrences()
    ensures forall key :: Occurrences([], key, 0) == 0
  {
  }

  /** What there is to fold in: nothing without targets, and nothing when the source fails. */
  function Collected(targets: seq<Target>, source: seq<Target> -> Option<Answers>): Answers {
    if targets == [] then map[] else
    match source(targets)
    case None => map[]
    case Some(samples) => samples
  }

  // ---- What a report says, read off Deployments and the answer -----------------------------------

  /** The heartbeat's facts are its Deployment's. */
  ghost predicate Tells(h: Heartbeat, d: Deployment, intervalSeconds: int) {
    var desired := match d.desired case None => 0 case Some(n) => n;
    && h.slug == d.slug && h.name == d.name && h.ready == d.ready && h.desired == desired
    && h.intervalSeconds == intervalSeconds
    && (h.status == Up <==> 0 < desired <= d.ready) && (h.status == Degraded <==> 0 < d.ready < desired)
    && (h.status == Down <==> desired <= 0 || d.ready <= 0)
    && (h.restarts.Some? <==> d.selector != "" && d.pods.Some?)
    && (h.restarts.Some? ==>
          && -0x8000_0000 <= h.restarts.value < 0x8000_0000
          && (TotalRestarts(d.pods.value, |d.pods.value|) - h.restarts.value) % 0x1_0000_0000 == 0)
  }

  /** The target names its Deployment's pods: none without a selector or when listing them failed. */
  ghost predicate Identifies(t: Target, namespace: string, d: Deployment) {
    && t.slug == d.slug && t.namespace == namespace && t.selector == d.selector
    && if d.selector == "" || d.pods.None? then t.podNames == [] else
       |t.podNames| == |d.pods.value| && forall i :: 0 <= i < |t.podNames| ==> t.podNames[i] == d.pods.value[i].name
  }

  lemma HeartbeatTells(d: Deployment, intervalSeconds: int, metrics: seq<MetricSample>)
    ensures Tells(HeartbeatOf(d, intervalSeconds).(metrics := metrics), d, intervalSeconds)
  {
    hide AllRestarts, SumInts, ExactSum, TotalRestarts, Int32;
    if ListedPods(d).Some? {
      var restarts := AllRestarts(d.pods.value);
      RestartsAreTheWrappedTotal(restarts, |restarts|);
      AllRestartsAreSummed(d.pods.value);
      Int32IsCongruent(ExactSum(restarts, |restarts|));
    }
  }

  /** What the source returned for a slug, when asked about these targets. */
  ghost function Given(answer: Option<Answers>, slug: string): seq<MetricSample> {
    if answer.Some? && slug in answer.value then answer.value[slug] else []
  }

  lemma GivenIs(samples: Answers, slug: string)
    ensures Given(Some(samples), slug) == SamplesFor(samples, slug)
  {
  }

  lemma FoldedGives(hs: seq<Heartbeat>, samples: Answers)
    ensures |Folded(hs, samples)| == |hs|
    ensures forall i :: 0 <= i < |hs| ==>
              Folded(hs, samples)[i] == hs[i].(metrics := hs[i].metrics + Given(Some(samples), hs[i].slug))
  {
  }

  /** One heartbeat per winner, in order, with the Deployment's facts and exactly the samples the source
      returned for it when asked about the targets of all winners. */
  ghost predicate ReportsAll(hs: seq<Heartbeat>, winners: seq<Entry>, targets: seq<Target>, answer: Option<Answers>,
                             intervalSeconds: int) {
    && |hs| == |winners| == |targets|
    && forall i :: 0 <= i < |hs| ==>
         && Tells(hs[i], winners[i].d, intervalSeconds) && Identifies(targets[i], winners[i].namespace, winners[i].d)
         && hs[i].metrics == Given(answer, winners[i].d.slug)
  }

  lemma FoldedReportsAll(winners: seq<Entry>, source: seq<Target> -> Option<Answers>, intervalSeconds: int)
    ensures ReportsAll(Folded(Heartbeats(winners, intervalSeconds), Collected(Targets(winners), source)),
                       winners, Targets(winners), source(Targets(winners)), intervalSeconds)
  {
    hide Tells;
    var hs := Heartbeats(winners, intervalSeconds);
    var samples, answer := Collected(Targets(winners), source), source(Targets(winners));
    forall i | 0 <= i < |winners|
      ensures Tells(Folded(hs, samples)[i], winners[i].d, intervalSeconds)
      ensures Folded(hs, samples)[i].metrics == Given(answer, winners[i].d.slug)
    {
      HeartbeatTells(winners[i].d, intervalSeconds, Folded(hs, samples)[i].metrics);
      assert HeartbeatOf(winners[i].d, intervalSeconds).metrics == [];
    }
  }

  /** How many of the first `n` heartbeats carry a sample of the key. */
  ghost function CarryingCount(hs: seq<Heartbeat>, key: string, n: nat): nat
    requires n <= |hs|
  {
    if n == 0 then 0 else CarryingCount(hs, key, n - 1) + if Carries(hs[n - 1].metrics, key) then 1 else 0
  }

  /** How many of the first `n` heartbeats carry samples. */
  ghost function SampledCount(hs: seq<Heartbeat>, n: nat): nat
    requires n <= |hs|
  {
    if n == 0 then 0 else SampledCount(hs, n - 1) + if hs[n - 1].metrics != [] then 1 else 0
  }

  /** The report's counts are those of its own heartbeats: how many carry samples, and, given one sample per
      key and service, how many carry each role. */
  ghost predicate CountsSamples(r: Report, answer: Option<Answers>) {
    && r.mapped == SampledCount(r.heartbeats, |r.heartbeats|)
    && (answer.None? || OncePerKey(answer.value) ==>
          && r.cpuSamples == CarryingCount(r.heartbeats, METRIC_CPU_MILLICORES, |r.heartbeats|)
          && r.memorySamples == CarryingCount(r.heartbeats, METRIC_MEMORY_BYTES, |r.heartbeats|))
  }

  lemma FoldedMetrics(hs: seq<Heartbeat>, samples: Answers)
    requires forall i :: 0 <= i < |hs| ==> hs[i].metrics == []
    ensures |Folded(hs, samples)| == |hs|
    ensures forall i :: 0 <= i < |hs| ==> Folded(hs, samples)[i].metrics == SamplesFor(samples, hs[i].slug)
  {
    hide SamplesFor;
  }

  lemma {:induction false} SampledHeartbeats(hs: seq<Heartbeat>, samples: Answers, n: nat)
    requires n <= |hs| && forall i :: 0 <= i < |hs| ==> hs[i].metrics == []
    ensures |Folded(hs, samples)| == |hs| && MappedCount(hs, samples, n) == SampledCount(Folded(hs, samples), n)
  {
    hide Folded, SamplesFor;
    FoldedMetrics(hs, samples);
    if n > 0 {
      SampledHeartbeats(hs, samples, n - 1);
    }
  }

  /** What the report of the winners says and counts. */
  lemma ReportHolds(winners: seq<Entry>, source: seq<Target> -> Option<Answers>, intervalSeconds: int)
    ensures var targets := Targets(winners);
            var r := ReportOf(Heartbeats(winners, intervalSeconds), Collected(targets, source));
            && ReportsAll(r.heartbeats, winners, targets, source(targets), intervalSeconds)
            && CountsSamples(r, source(targets))
  {
    hide HeartbeatOf, Folded, ReportsAll, CarryingCount, SampledCount, OncePerKey, MappedCount, KeyCount;
    var hs, samples := Heartbeats(winners, intervalSeconds), Collected(Targets(winners), source);
    FoldedReportsAll(winners, source, intervalSeconds);
    forall i | 0 <= i < |hs| ensures hs[i].metrics == [] {
      NoMetricsYet(winners[i].d, intervalSeconds);
    }
    SampledHeartbeats(hs, samples, |hs|);
    NothingOncePerKey();
    if OncePerKey(samples) {
      CarryingHeartbeats(hs, samples, METRIC_CPU_MILLICORES, |hs|);
      CarryingHeartbeats(hs, samples, METRIC_MEMORY_BYTES, |hs|);
    }
  }

  lemma NoMetricsYet(d: Deployment, intervalSeconds: int)
    ensures HeartbeatOf(d, intervalSeconds).metrics == []
  {
  }

  lemma NothingOncePerKey()
    ensures OncePerKey(map[])
  {
  }

  lemma {:induction false} CarryingHeartbeats(hs: seq<Heartbeat>, samples: Answers, key: string, n: nat)
    requires n <= |hs| && OncePerKey(samples) && forall i :: 0 <= i < |hs| ==> hs[i].metrics == []
    ensures |Folded(hs, samples)| == |hs| && KeyCount(hs, samples, key, n) == CarryingCount(Folded(hs, samples), key, n)
  {
    hide Carries, OncePerKey, Occurrences, Folded, SamplesFor;
    FoldedMetrics(hs, samples);
    if n > 0 {
      CarryingHeartbeats(hs, samples, key, n - 1);
      OccurrencesAre(samples, hs[n - 1].slug, key);
    }
  }

  /** The namespaces reached are those before the first failed listing. */
  lemma {:induction false} ReachedIs(listings: seq<Listing>)
    ensures var n := |Reached(listings)|;
            && Reached(listings) == listings[..n] && (forall i :: 0 <= i < n ==> listings[i].deployments.Some?)
            && (n < |listings| ==> listings[n].deployments.None?)
    decreases |listings|
  {
    if listings != [] {
      var front := listings[..|listings| - 1];
      ReachedIs(front);
      var n := |Reached(front)|;
      assert front[..n] == listings[..n];
      if n == |front| { assert listings == front + [listings[|front|]]; }
    }
  }

  class Agent {
    const intervalSeconds: int
    var warnedSlugs: set<string>
    var warnedOverflow: bool
    var log: seq<Line>

    constructor (intervalSeconds: int)
      ensures Seen() == Latch({}, false, []) && this.intervalSeconds == intervalSeconds
    {
      this.intervalSeconds := intervalSeconds;
      warnedSlugs, warnedOverflow, log := {}, false, [];
    }

    function Seen(): Latch
      reads this
    {
      Latch(warnedSlugs, warnedOverflow, log)
    }

    method WarnDuplicateSlug(slug: string, shadowed: string)
      modifies this
      ensures Seen() == Warn(old(Seen()), PairKey(slug, shadowed))
    {
      var key := PairKey(slug, shadowed);
      if key in warnedSlugs {
        return;
      }
      if |warnedSlugs| >= MAX_WARNED_SLUG_PAIRS {
        var first := !warnedOverflow;
        warnedOverflow := true;
        if first {
          log := log + [Overflow];
        }
        return;
      }
      warnedSlugs := warnedSlugs + {key};
      log := log + [Named(key)];
    }

    /** First phase: one heartbeat and one target per slug, the first Deployment winning. */
    method Gather(listings: seq<Listing>) returns (ok: bool, out: seq<Heartbeat>, targets: seq<Target>)
      modifies this
      ensures ok <==> Reached(listings) == listings
      ensures var winners := Winners(Entries(Reached(listings)));
              out == Heartbeats(winners, intervalSeconds) && targets == Targets(winners)
      ensures Seen() == WarnAll(old(Seen()), ShadowedKeys(Entries(Reached(listings))))
    {
      hide Winners, ShadowedKeys, SlugsIn, WarnAll, EntriesOf, Heartbeats, Targets, Reached, Entries;
      var claimed: map<string, string> := map[];
      out, targets := [], [];
      NothingGathered(Seen(), intervalSeconds);
      assert listings[..0] == [];
      for i := 0 to |listings|
        invariant Reached(listings[..i]) == listings[..i]
        invariant Gathered(out, targets, claimed, Seen(), Entries(listings[..i]), old(Seen()), intervalSeconds)
      {
        if listings[i].deployments.None? {
          FailureStops(listings, i);
          return false, out, targets;
        }
        ListingStep(listings, i);
        claimed, out, targets := GatherNamespace(listings[i].namespace, listings[i].deployments.value,
                                                 claimed, out, targets, Entries(listings[..i]), old(Seen()));
      }
      assert listings[..|listings|] == listings;
      ok := true;
    }

    /** The inner loop: one namespace's Deployments, on top of what is gathered already. */
    method GatherNamespace(ns: string, ds: seq<Deployment>, claimed0: map<string, string>, out0: seq<Heartbeat>,
                           targets0: seq<Target>, ghost before: seq<Entry>, ghost l0: Latch)
      returns (claimed: map<string, string>, out: seq<Heartbeat>, targets: seq<Target>)
      requires Gathered(out0, targets0, claimed0, Seen(), before, l0, intervalSeconds)
      modifies this
      ensures Gathered(out, targets, claimed, Seen(), before + EntriesOf(ns, ds), l0, intervalSeconds)
    {
      hide HeartbeatOf, TargetOf, Gathered, Warn;
      claimed, out, targets := claimed0, out0, targets0;
      assert before + EntriesOf(ns, ds[..0]) == before;
      for j := 0 to |ds|
        invariant Gathered(out, targets, claimed, Seen(), before + EntriesOf(ns, ds[..j]), l0, intervalSeconds)
      {
        ghost var entries, e := before + EntriesOf(ns, ds[..j]), Entry(ns, ds[j]);
        assert before + EntriesOf(ns, ds[..j + 1]) == entries + [e];
        GatherStep(out, targets, claimed, Seen(), entries, l0, intervalSeconds, e);
        var d := ds[j];
        if d.slug != "" {
          if d.slug in claimed {
            WarnDuplicateSlug(d.slug, ns + "/" + d.name);
          } else {
            targets := targets + [TargetOf(ns, d)];
            claimed := claimed[d.slug := ns + "/" + d.name];
            out := out + [HeartbeatOf(d, intervalSeconds)];
          }
        }
      }
      assert ds[..|ds|] == ds;
    }

    /** Both phases: gather every target, ask the source for all of them, fold its answer in. A failed
        source costs the metrics only, a failed listing the whole tick. */
    method Collect(listings: seq<Listing>, source: seq<Target> -> Option<Answers>) returns (r: Option<Report>)
      modifies this
      ensures r == if Reached(listings) != listings then None
                   else var winners := Winners(Entries(listings));
                        Some(ReportOf(Heartbeats(winners, intervalSeconds), Collected(Targets(winners), source)))
      ensures r.Some? <==> forall i :: 0 <= i < |listings| ==> listings[i].deployments.Some?
      ensures r.Some? ==> var winners := Winners(Entries(listings));
                          && ReportsAll(r.value.heartbeats, winners, Targets(winners), source(Targets(winners)),
                                        intervalSeconds)
                          && CountsSamples(r.value, source(Targets(winners)))
      ensures Seen() == WarnAll(old(Seen()), ShadowedKeys(Entries(Reached(listings))))
    {
      hide Winners, Entries, Reached, ReportOf, ReportsAll, CountsSamples, Collected, Heartbeats, Targets;
      var ok, out, targets := Gather(listings);
      ReachedIs(listings);
      ReportHolds(Winners(Entries(listings)), source, intervalSeconds);
      if !ok {
        return None;
      }
      var report := FoldIn(out, Collected(targets, source));
      r := Some(report);
    }
  }

  /** What the gathering loop has built after the given entries. */
  ghost predicate Gathered(out: seq<Heartbeat>, targets: seq<Target>, claimed: map<string, string>, l: Latch,
                           entries: seq<Entry>, l0: Latch, intervalSeconds: int) {
    && out == Heartbeats(Winners(entries), intervalSeconds) && targets == Targets(Winners(entries))
    && claimed.Keys == SlugsIn(entries) && l == WarnAll(l0, ShadowedKeys(entries))
  }

  lemma NothingGathered(l: Latch, intervalSeconds: int)
    ensures Gathered([], [], map[], l, [], l, intervalSeconds)
    ensures Reached([]) == [] && Entries([]) == []
  {
  }

  lemma GatherStep(out: seq<Heartbeat>, targets: seq<Target>, claimed: map<string, string>, l: Latch,
                   entries: seq<Entry>, l0: Latch, intervalSeconds: int, e: Entry)
    requires Gathered(out, targets, claimed, l, entries, l0, intervalSeconds)
    ensures if e.d.slug == "" then Gathered(out, targets, claimed, l, entries + [e], l0, intervalSeconds)
            else if e.d.slug in claimed then
              Gathered(out, targets, claimed, Warn(l, PairKey(e.d.slug, e.Workload())), entries + [e], l0,
                       intervalSeconds)
            else Gathered(out + [HeartbeatOf(e.d, intervalSeconds)], targets + [TargetOf(e.namespace, e.d)],
                          claimed[e.d.slug := e.Workload()], l, entries + [e], l0, intervalSeconds)
  {
    hide HeartbeatOf, TargetOf, Warn, PairKey, Winners, ShadowedKeys, SlugsIn;
    GatheredEntries(entries, e);
    SlugsGrow(entries, e);
    var keys, key := ShadowedKeys(entries), PairKey(e.d.slug, e.Workload());
    assert (keys + [key])[..|keys|] == keys;
    assert Heartbeats(Winners(entries) + [e], intervalSeconds) ==
           Heartbeats(Winners(entries), intervalSeconds) + [HeartbeatOf(e.d, intervalSeconds)];
    assert Targets(Winners(entries) + [e]) == Targets(Winners(entries)) + [TargetOf(e.namespace, e.d)];
  }

  lemma GatheredEntries(entries: seq<Entry>, e: Entry)
    ensures Winners(entries + [e]) ==
            if e.d.slug != "" && e.d.slug !in SlugsIn(entries) then Winners(entries) + [e] else Winners(entries)
    ensures ShadowedKeys(entries + [e]) ==
            if e.d.slug in SlugsIn(entries) then ShadowedKeys(entries) + [PairKey(e.d.slug, e.Workload())]
            else ShadowedKeys(entries)
    ensures "" !in SlugsIn(entries)
  {
    hide PairKey;
    assert (entries + [e])[..|entries|] == entries;
  }

  lemma ListingStep(listings: seq<Listing>, i: nat)
    requires i < |listings| && listings[i].deployments.Some? && Reached(listings[..i]) == listings[..i]
    ensures Reached(listings[..i + 1]) == listings[..i + 1]
    ensures Entries(listings[..i + 1]) ==
            Entries(listings[..i]) + EntriesOf(listings[i].namespace, listings[i].deployments.value)
  {
    hide EntriesOf;
    assert listings[..i + 1][..i] == listings[..i];
  }

  lemma {:induction false} FailureStops(listings: seq<Listing>, i: nat)
    requires i < |listings| && listings[i].deployments.None? && Reached(listings[..i]) == listings[..i]
    ensures Reached(listings) == listings[..i]
    decreases |listings|
  {
    var front := listings[..|listings| - 1];
    if i == |listings| - 1 {
      assert front == listings[..i];
    } else {
      assert front[..i] == listings[..i];
      FailureStops(front, i);
    }
  }

  // ---- What the counts and batches mean ----------------------------------------------------------

  /** Targets stay aligned with heartbeats, with distinct, non-empty slugs. */
  lemma TargetsAlignWithHeartbeats(entries: seq<Entry>, intervalSeconds: int)
    ensures var hs, ts := Heartbeats(Winners(entries), intervalSeconds), Targets(Winners(entries));
            && |hs| == |ts| && (forall i :: 0 <= i < |hs| ==> hs[i].slug == ts[i].slug != "")
            && (forall i, j :: 0 <= i < j < |hs| ==> hs[i].slug != hs[j].slug)
  {
    hide Winners;
    WinnersAreDistinct(entries);
    assert forall i :: 0 <= i < |Winners(entries)| ==> Winners(entries)[i] in Winners(entries);
  }

  /** Two answers of the metric source yield batches that differ in their metrics only. */
  lemma AnswersChangeOnlyMetrics(hs: seq<Heartbeat>, samples: Answers, others: Answers, i: nat)
    requires i < |hs|
    ensures |Folded(hs, samples)| == |Folded(hs, others)| == |hs|
    ensures Folded(hs, samples)[i] == Folded(hs, others)[i].(metrics := Folded(hs, samples)[i].metrics)
  {
  }

  ghost predicate Distinct(hs: seq<Heartbeat>) { forall i, j :: 0 <= i < j < |hs| ==> hs[i].slug != hs[j].slug }

  predicate Carries(ms: seq<MetricSample>, key: string) { exists m :: m in ms && m.key == key }

  ghost predicate OncePerKey(samples: Answers) {
    forall slug, key :: slug in samples ==> Occurrences(samples[slug], key, |samples[slug]|) <= 1
  }

  lemma {:induction false} OccurrencesSeen(ms: seq<MetricSample>, key: string, n: nat)
    requires n <= |ms|
    ensures Occurrences(ms, key, n) > 0 <==> exists i :: 0 <= i < n && ms[i].key == key
  {
    if n > 0 {
      OccurrencesSeen(ms, key, n - 1);
    }
  }

  /** The services among the first `n` whose samples carry the key. */
  ghost function Carriers(hs: seq<Heartbeat>, samples: Answers, key: string, n: nat): set<string>
    requires n <= |hs|
  {
    if n == 0 then {} else
    var before := Carriers(hs, samples, key, n - 1);
    if Carries(SamplesFor(samples, hs[n - 1].slug), key) then before + {hs[n - 1].slug} else before
  }

  lemma {:induction false} CarriersAre(hs: seq<Heartbeat>, samples: Answers, key: string, n: nat)
    requires n <= |hs|
    ensures forall slug :: slug in Carriers(hs, samples, key, n) <==>
              Carries(SamplesFor(samples, slug), key) && exists i :: 0 <= i < n && hs[i].slug == slug
  {
    hide Carries;
    if n > 0 {
      CarriersAre(hs, samples, key, n - 1);
    }
  }

  /** A per-role count is the number of services carrying that role, given one sample per role and
      service: each sample is folded into exactly one heartbeat. */
  lemma {:induction false} KeyCountIsServices(hs: seq<Heartbeat>, samples: Answers, key: string, n: nat)
    requires n <= |hs| && Distinct(hs) && OncePerKey(samples)
    ensures KeyCount(hs, samples, key, n) == |Carriers(hs, samples, key, n)|
  {
    hide Occurrences, Carries, OncePerKey, Distinct, SamplesFor;
    if n > 0 {
      KeyCountIsServices(hs, samples, key, n - 1);
      OccurrencesAre(samples, hs[n - 1].slug, key);
      NewCarrier(hs, samples, key, n - 1);
    }
  }

  lemma NewCarrier(hs: seq<Heartbeat>, samples: Answers, key: string, n: nat)
    requires n < |hs| && Distinct(hs)
    ensures hs[n].slug !in Carriers(hs, samples, key, n)
  {
    hide Carries;
    CarriersAre(hs, samples, key, n);
  }

  lemma OccurrencesAre(samples: Answers, slug: string, key: string)
    requires OncePerKey(samples)
    ensures var ms := SamplesFor(samples, slug);
            Occurrences(ms, key, |ms|) == if Carries(ms, key) then 1 else 0
  {
    var ms := SamplesFor(samples, slug);
    OccurrencesSeen(ms, key, |ms|);
  }

  /** The services among the first `n` that received samples. */
  ghost function MappedSlugs(hs: seq<Heartbeat>, samples: Answers, n: nat): set<string>
    requires n <= |hs|
  {
    if n == 0 then {} else
    var before := MappedSlugs(hs, samples, n - 1);
    if SamplesFor(samples, hs[n - 1].slug) != [] then before + {hs[n - 1].slug} else before
  }

  lemma {:induction false} MappedSlugsAre(hs: seq<Heartbeat>, samples: Answers, n: nat)
    requires n <= |hs|
    ensures forall slug :: slug in MappedSlugs(hs, samples, n) <==>
              SamplesFor(samples, slug) != [] && exists i :: 0 <= i < n && hs[i].slug == slug
  {
    hide SamplesFor;
    if n > 0 {
      MappedSlugsAre(hs, samples, n - 1);
    }
  }

  lemma {:induction false} MappedCountIsServices(hs: seq<Heartbeat>, samples: Answers, n: nat)
    requires n <= |hs| && Distinct(hs)
    ensures MappedCount(hs, samples, n) == |MappedSlugs(hs, samples, n)|
  {
    hide SamplesFor, Distinct;
    if n > 0 {
      MappedCountIsServices(hs, samples, n - 1);
      NewlyMapped(hs, samples, n - 1);
    }
  }

  lemma NewlyMapped(hs: seq<Heartbeat>, samples: Answers, n: nat)
    requires n < |hs| && Distinct(hs)
    ensures hs[n].slug !in MappedSlugs(hs, samples, n)
  {
    hide SamplesFor;
    MappedSlugsAre(hs, samples, n);
  }

  /** Nothing is lost: an answer that names reported services only is folded in completely. */
  lemma EveryAnswerIsMapped(hs: seq<Heartbeat>, samples: Answers)
    requires Distinct(hs)
    requires forall slug :: slug in samples ==> samples[slug] != [] && exists i :: 0 <= i < |hs| && hs[i].slug == slug
    ensures MappedCount(hs, samples, |hs|) == |samples|
  {
    MappedSlugsAre(hs, samples, |hs|);
    MappedCountIsServices(hs, samples, |hs|);
    assert MappedSlugs(hs, samples, |hs|) == samples.Keys;
    assert |samples| == |samples.Keys|;
  }
}
