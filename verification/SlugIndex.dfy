/** Attributing an exposition row to a service (internal/agent/exposition.go, `slugIndex`). */
module SlugIndex {
  import opened Wrappers
  import opened Text
  import opened SeriesIdentity
  import opened RowPolicy

  /** One annotated workload, with the pods behind it. */
  datatype Target = Target(slug: string, namespace: string, selector: string, podNames: seq<string>)

  datatype Index = Index(known: set<string>, byNamespacedPod: map<string, string>, byPod: map<string, string>) {
    /** The slug label first, then pod and namespace; an unknown slug label does not fall back. */
    function Resolve(row: Series, slugLabel: string): Option<string> {
      var slug := Lookup(row.labels, slugLabel);
      if slug != "" then (if slug in known then Some(slug) else None)
      else if PodOf(row) == "" then None
      else match PodRef(row)
        case Some(key) => Owned(Lookup(byNamespacedPod, key))
        case None => Owned(Lookup(byPod, PodOf(row)))
    }
  }

  function Owned(slug: string): Option<string> { if slug == "" then None else Some(slug) }

  // ---- Building the index ------------------------------------------------------------------------

  /** One pod listed by one target, which is the `owner`-th. */
  datatype Claim = Claim(owner: nat, namespace: string, pod: string, slug: string)

  function ClaimsOf(owner: nat, t: Target, n: nat): seq<Claim>
    requires n <= |t.podNames|
  {
    if n == 0 then [] else ClaimsOf(owner, t, n - 1) + [Claim(owner, t.namespace, t.podNames[n - 1], t.slug)]
  }

  /** Every claim of the first `n` targets, in order. */
  function Claims(targets: seq<Target>, n: nat): seq<Claim>
    requires n <= |targets|
  {
    if n == 0 then [] else Claims(targets, n - 1) + ClaimsOf(n - 1, targets[n - 1], |targets[n - 1].podNames|)
  }

  ghost predicate LastClaim(claims: seq<Claim>, key: string, i: int) {
    0 <= i < |claims| && PodKey(claims[i].namespace, claims[i].pod) == Some(key)
    && forall j :: i < j < |claims| ==> PodKey(claims[j].namespace, claims[j].pod) != Some(key)
  }

  /** The key was claimed, last by `slug`. */
  ghost predicate LastClaimedBy(claims: seq<Claim>, key: string, slug: string) {
    exists i :: LastClaim(claims, key, i) && claims[i].slug == slug
  }

  ghost predicate ClaimedBy(claims: seq<Claim>, pod: string, slug: string) {
    exists c :: c in claims && c.pod == pod && c.slug == slug
  }

  /** Everyone who claims the pod name claims it for `slug`. */
  ghost predicate OnlyClaimedBy(claims: seq<Claim>, pod: string, slug: string) {
    ClaimedBy(claims, pod, slug) && forall c :: c in claims && c.pod == pod ==> c.slug == slug
  }

  ghost predicate Namespaced(m: map<string, string>, claims: seq<Claim>) {
    forall key :: (key in m <==> exists c :: c in claims && PodKey(c.namespace, c.pod) == Some(key)) &&
                  (key in m ==> LastClaimedBy(claims, key, m[key]))
  }

  /** A pod name is indexed when claimed, and blanked as soon as two slugs claim it. */
  ghost predicate ByName(m: map<string, string>, claims: seq<Claim>) {
    forall pod :: (pod in m <==> exists c :: c in claims && c.pod == pod) &&
                  (pod in m && m[pod] != "" ==> OnlyClaimedBy(claims, pod, m[pod])) &&
                  (pod in m && m[pod] == "" ==> forall slug :: slug != "" ==> !OnlyClaimedBy(claims, pod, slug))
  }

  lemma NamespacedStep(m: map<string, string>, claims: seq<Claim>, c: Claim)
    requires Namespaced(m, claims)
    ensures match PodKey(c.namespace, c.pod)
            case Some(key) => Namespaced(m[key := c.slug], claims + [c])
            case None => Namespaced(m, claims + [c])
  {
    hide PodKey;
    var more := claims + [c];
    forall key | key in m && PodKey(c.namespace, c.pod) != Some(key) ensures LastClaimedBy(more, key, m[key]) {
      var i :| LastClaim(claims, key, i) && claims[i].slug == m[key];
      assert more[i] == claims[i] && LastClaim(more, key, i);
    }
    if PodKey(c.namespace, c.pod).Some? {
      assert more[|claims|] == c && LastClaim(more, PodKey(c.namespace, c.pod).value, |claims|);
      assert LastClaimedBy(more, PodKey(c.namespace, c.pod).value, c.slug);
    }
  }

  lemma ByNameStep(m: map<string, string>, claims: seq<Claim>, c: Claim)
    requires ByName(m, claims)
    ensures ByName(m[c.pod := if c.pod in m && m[c.pod] != c.slug then "" else c.slug], claims + [c])
  {
    var more := claims + [c];
    var next := m[c.pod := if c.pod in m && m[c.pod] != c.slug then "" else c.slug];
    assert forall d :: d in more <==> d in claims || d == c;
    forall pod | pod in next
      ensures next[pod] != "" ==> OnlyClaimedBy(more, pod, next[pod])
      ensures next[pod] == "" ==> forall slug :: slug != "" ==> !OnlyClaimedBy(more, pod, slug)
    {
      if pod == c.pod {
        ByNameHit(m, claims, c);
      } else {
        assert forall slug :: OnlyClaimedBy(more, pod, slug) <==> OnlyClaimedBy(claims, pod, slug);
      }
    }
  }

  lemma ByNameHit(m: map<string, string>, claims: seq<Claim>, c: Claim)
    requires ByName(m, claims)
    ensures var slug := if c.pod in m && m[c.pod] != c.slug then "" else c.slug;
            if slug != "" then OnlyClaimedBy(claims + [c], c.pod, slug)
            else forall other :: other != "" ==> !OnlyClaimedBy(claims + [c], c.pod, other)
  {
    var more := claims + [c];
    assert forall d :: d in more <==> d in claims || d == c;
    if c.pod in m && m[c.pod] != c.slug && m[c.pod] == "" {
      forall other | other != "" ensures !OnlyClaimedBy(more, c.pod, other) {
        assert !OnlyClaimedBy(claims, c.pod, other);
      }
    }
  }

  function ByNamespace(claims: seq<Claim>): map<string, string> {
    if claims == [] then map[] else
    var m, c := ByNamespace(claims[..|claims| - 1]), claims[|claims| - 1];
    match PodKey(c.namespace, c.pod)
    case Some(key) => m[key := c.slug]
    case None => m
  }

  function ByPodName(claims: seq<Claim>): map<string, string> {
    if claims == [] then map[] else
    var m, c := ByPodName(claims[..|claims| - 1]), claims[|claims| - 1];
    m[c.pod := if c.pod in m && m[c.pod] != c.slug then "" else c.slug]
  }

  function IndexFor(targets: seq<Target>): Index {
    var claims := Claims(targets, |targets|);
    Index(set t | t in targets :: t.slug, ByNamespace(claims), ByPodName(claims))
  }

  lemma {:induction false} FoldsAreSound(claims: seq<Claim>)
    ensures Namespaced(ByNamespace(claims), claims) && ByName(ByPodName(claims), claims)
    decreases |claims|
  {
    hide Namespaced, ByName, PodKey;
    if claims == [] {
      NothingClaimed();
    } else {
      var front, c := claims[..|claims| - 1], claims[|claims| - 1];
      FoldsAreSound(front);
      NamespacedStep(ByNamespace(front), front, c);
      ByNameStep(ByPodName(front), front, c);
      assert claims == front + [c];
    }
  }

  lemma FoldsOfNothing()
    ensures ByNamespace([]) == map[] && ByPodName([]) == map[]
  {
  }

  lemma NothingClaimed()
    ensures Namespaced(map[], []) && ByName(map[], [])
  {
  }

  method NewIndex(targets: seq<Target>) returns (idx: Index)
    ensures idx == IndexFor(targets)
  {
    hide ByNamespace, ByPodName;
    var known: set<string>, namespaced: map<string, string>, byPod: map<string, string> := {}, map[], map[];
    FoldsOfNothing();
    for i := 0 to |targets|
      invariant known == set t | t in targets[..i] :: t.slug
      invariant namespaced == ByNamespace(Claims(targets, i)) && byPod == ByPodName(Claims(targets, i))
    {
      assert targets[..i + 1] == targets[..i] + [targets[i]];
      known := known + {targets[i].slug};
      namespaced, byPod := IndexPods(i, targets[i], namespaced, byPod, Claims(targets, i));
    }
    assert targets[..|targets|] == targets;
    idx := Index(known, namespaced, byPod);
  }

  /** The inner loop: one target's pods, on top of what is indexed already. */
  method IndexPods(owner: nat, t: Target, namespaced: map<string, string>, byPod: map<string, string>,
                   ghost claims: seq<Claim>)
    returns (namespaced': map<string, string>, byPod': map<string, string>)
    requires namespaced == ByNamespace(claims) && byPod == ByPodName(claims)
    ensures namespaced' == ByNamespace(claims + ClaimsOf(owner, t, |t.podNames|))
    ensures byPod' == ByPodName(claims + ClaimsOf(owner, t, |t.podNames|))
  {
    hide PodKey, ByNamespace, ByPodName;
    namespaced', byPod' := namespaced, byPod;
    assert claims + ClaimsOf(owner, t, 0) == claims;
    for j := 0 to |t.podNames|
      invariant namespaced' == ByNamespace(claims + ClaimsOf(owner, t, j))
      invariant byPod' == ByPodName(claims + ClaimsOf(owner, t, j))
    {
      var name := t.podNames[j];
      ghost var c := Claim(owner, t.namespace, name, t.slug);
      assert (claims + ClaimsOf(owner, t, j)) + [c] == claims + ClaimsOf(owner, t, j + 1);
      FoldsGrow(claims + ClaimsOf(owner, t, j), c);
      match PodKey(t.namespace, name) {
        case Some(key) => namespaced' := namespaced'[key := t.slug];
        case None =>
      }
      byPod' := byPod'[name := if name in byPod' && byPod'[name] != t.slug then "" else t.slug];
    }
  }

  lemma FoldsGrow(claims: seq<Claim>, c: Claim)
    ensures ByNamespace(claims + [c]) == match PodKey(c.namespace, c.pod)
                                         case Some(key) => ByNamespace(claims)[key := c.slug]
                                         case None => ByNamespace(claims)
    ensures ByPodName(claims + [c]) ==
            ByPodName(claims)[c.pod :=
              if c.pod in ByPodName(claims) && ByPodName(claims)[c.pod] != c.slug then "" else c.slug]
  {
    hide PodKey;
    assert (claims + [c])[..|claims|] == claims;
  }

  // ---- The relation the index decides ------------------------------------------------------------

  /** The target lists this pod of this namespace. */
  predicate HasPod(t: Target, namespace: string, pod: string) { t.namespace == namespace && pod in t.podNames }

  /** Which slug a row belongs to, read off the targets. */
  ghost predicate BelongsTo(targets: seq<Target>, row: Series, slugLabel: string, slug: string) {
    var given, ns, pod := Lookup(row.labels, slugLabel), NamespaceOf(row), PodOf(row);
    if given != "" then slug == given && exists t :: t in targets && t.slug == given
    else slug != "" && pod != "" &&
         if ns != "" then
           exists i :: 0 <= i < |targets| && targets[i].slug == slug && HasPod(targets[i], ns, pod)
                       && forall j :: i < j < |targets| ==> !HasPod(targets[j], ns, pod)
         else
           (exists t :: t in targets && pod in t.podNames && t.slug == slug) &&
           forall t :: t in targets && pod in t.podNames ==> t.slug == slug
  }

  /** Kubernetes names never carry the key separator; rows may carry anything. */
  ghost predicate SeparatorFree(targets: seq<Target>) {
    forall t :: t in targets ==> SEPARATOR !in t.namespace && forall p :: p in t.podNames ==> SEPARATOR !in p
  }

  lemma {:induction false} ClaimsOfAre(owner: nat, t: Target, n: nat)
    requires n <= |t.podNames|
    ensures forall c :: c in ClaimsOf(owner, t, n) <==>
              c.owner == owner && c.namespace == t.namespace && c.slug == t.slug && c.pod in t.podNames[..n]
  {
    if n > 0 {
      ClaimsOfAre(owner, t, n - 1);
      assert t.podNames[..n] == t.podNames[..n - 1] + [t.podNames[n - 1]];
    }
  }

  ghost predicate Makes(targets: seq<Target>, c: Claim) {
    c.owner < |targets| && c.slug == targets[c.owner].slug && HasPod(targets[c.owner], c.namespace, c.pod)
  }

  lemma {:induction false} ClaimsAre(targets: seq<Target>, n: nat)
    requires n <= |targets|
    ensures forall c :: c in Claims(targets, n) <==> c.owner < n && Makes(targets, c)
  {
    if n > 0 {
      var t := targets[n - 1];
      ClaimsAre(targets, n - 1);
      ClaimsOfAre(n - 1, t, |t.podNames|);
      assert t.podNames[..|t.podNames|] == t.podNames;
    }
  }

  /** Claims come in target order. */
  lemma {:induction false} OwnersAscend(targets: seq<Target>, n: nat, i: int, j: int)
    requires n <= |targets| && 0 <= i <= j < |Claims(targets, n)|
    ensures Claims(targets, n)[i].owner <= Claims(targets, n)[j].owner < n
  {
    hide ClaimsOf, Makes;
    var front, t := Claims(targets, n - 1), targets[n - 1];
    var back := ClaimsOf(n - 1, t, |t.podNames|);
    ClaimsOfAre(n - 1, t, |t.podNames|);
    if j < |front| {
      OwnersAscend(targets, n - 1, i, j);
    } else {
      assert Claims(targets, n)[j] == back[j - |front|] && back[j - |front|] in back;
      if i < |front| {
        OwnersAscend(targets, n - 1, i, i);
      } else {
        assert Claims(targets, n)[i] == back[i - |front|] && back[i - |front|] in back;
      }
    }
  }

  /** The key a row asks for is the key of a listed pod only if it names that very pod. */
  lemma KeyOfListedPod(ns: string, pod: string, ns': string, pod': string)
    requires SEPARATOR !in ns && SEPARATOR !in pod
    requires PodKey(ns, pod).Some? && PodKey(ns, pod) == PodKey(ns', pod')
    ensures ns == ns' && pod == pod'
  {
    assert ReadsOneWay(ns, pod);
    KeyReadsOneWay(ns, pod);
  }

  ghost predicate LastWith(targets: seq<Target>, i: int, ns: string, pod: string) {
    0 <= i < |targets| && HasPod(targets[i], ns, pod) && forall j :: i < j < |targets| ==> !HasPod(targets[j], ns, pod)
  }

  /** A namespaced pod is indexed when some target lists it there, under the last such target. */
  lemma NamespacedLookup(m: map<string, string>, targets: seq<Target>, ns: string, pod: string)
    requires Namespaced(m, Claims(targets, |targets|)) && SeparatorFree(targets) && PodKey(ns, pod).Some?
    ensures var key := PodKey(ns, pod).value;
            && (key in m <==> exists i :: 0 <= i < |targets| && HasPod(targets[i], ns, pod))
            && (key in m ==> exists i :: LastWith(targets, i, ns, pod) && targets[i].slug == m[key])
  {
    hide PodKey, Claims;
    var key, claims := PodKey(ns, pod).value, Claims(targets, |targets|);
    ClaimsAre(targets, |targets|);
    forall c | c in claims && PodKey(c.namespace, c.pod) == Some(key) ensures c.namespace == ns && c.pod == pod {
      assert HasPod(targets[c.owner], c.namespace, c.pod) && targets[c.owner] in targets;
      KeyOfListedPod(c.namespace, c.pod, ns, pod);
    }
    if i :| 0 <= i < |targets| && HasPod(targets[i], ns, pod) {
      assert Claim(i, ns, pod, targets[i].slug) in claims;
    }
    if key in m {
      LastClaimIsLastTarget(targets, ns, pod, key, m[key]);
    }
  }

  lemma LastClaimIsLastTarget(targets: seq<Target>, ns: string, pod: string, key: string, slug: string)
    requires PodKey(ns, pod) == Some(key) && LastClaimedBy(Claims(targets, |targets|), key, slug)
    requires forall c :: c in Claims(targets, |targets|) && PodKey(c.namespace, c.pod) == Some(key) ==>
               c.namespace == ns && c.pod == pod
    ensures exists i :: LastWith(targets, i, ns, pod) && targets[i].slug == slug
  {
    hide PodKey, Claims, Makes, HasPod;
    var claims := Claims(targets, |targets|);
    var i :| LastClaim(claims, key, i) && claims[i].slug == slug;
    assert claims[i] in claims;
    OwnerLists(targets, claims[i]);
    forall j | claims[i].owner < j < |targets| ensures !HasPod(targets[j], ns, pod) {
      NoLaterTarget(targets, key, i, j, ns, pod);
    }
    assert LastWith(targets, claims[i].owner, ns, pod);
  }

  lemma OwnerLists(targets: seq<Target>, c: Claim)
    requires c in Claims(targets, |targets|)
    ensures c.owner < |targets| && c.slug == targets[c.owner].slug && HasPod(targets[c.owner], c.namespace, c.pod)
  {
    hide Claims;
    ClaimsAre(targets, |targets|);
  }

  lemma NoLaterTarget(targets: seq<Target>, key: string, i: int, j: int, ns: string, pod: string)
    requires LastClaim(Claims(targets, |targets|), key, i) && PodKey(ns, pod) == Some(key)
    requires Claims(targets, |targets|)[i].owner < j < |targets|
    ensures !HasPod(targets[j], ns, pod)
  {
    hide PodKey, Claims;
    var claims := Claims(targets, |targets|);
    ClaimsAre(targets, |targets|);
    if HasPod(targets[j], ns, pod) {
      var d := Claim(j, ns, pod, targets[j].slug);
      assert Makes(targets, d);
      var k :| 0 <= k < |claims| && claims[k] == d;
      if k <= i { OwnersAscend(targets, |targets|, k, i); }
    }
  }

  lemma ByNameLookup(m: map<string, string>, targets: seq<Target>, pod: string, slug: string)
    requires ByName(m, Claims(targets, |targets|)) && slug != ""
    ensures pod in m && m[pod] == slug <==>
              (exists t :: t in targets && pod in t.podNames && t.slug == slug) &&
              forall t :: t in targets && pod in t.podNames ==> t.slug == slug
  {
    hide Claims;
    var claims := Claims(targets, |targets|);
    ClaimsAre(targets, |targets|);
    forall t | t in targets && pod in t.podNames ensures ClaimedBy(claims, pod, t.slug) {
      var i :| 0 <= i < |targets| && targets[i] == t;
      assert Claim(i, t.namespace, pod, t.slug) in claims;
    }
    forall c | c in claims && c.pod == pod
      ensures targets[c.owner] in targets && pod in targets[c.owner].podNames && targets[c.owner].slug == c.slug
    {
    }
    assert OnlyClaimedBy(claims, pod, slug) ==> pod in m && OnlyClaimedBy(claims, pod, m[pod]);
  }

  /** The index attributes a row exactly where the targets say it belongs: by a known slug label and
      nothing else when there is one, by the target that lists the pod in that namespace, or, for a
      bare pod name, by the one slug all targets listing that name share. */
  lemma ResolveDecidesBelonging(targets: seq<Target>, row: Series, slugLabel: string, slug: string)
    requires SeparatorFree(targets)
    ensures IndexFor(targets).Resolve(row, slugLabel) == Some(slug) <==> BelongsTo(targets, row, slugLabel, slug)
  {
    hide Namespaced, ByName, SeparatorFree, FirstLabel, Claims, ByNamespace, ByPodName;
    FoldsAreSound(Claims(targets, |targets|));
    var idx := IndexFor(targets);
    var ns, pod := NamespaceOf(row), PodOf(row);
    if Lookup(row.labels, slugLabel) == "" && pod != "" {
      if ns != "" {
        NamespacedLookup(idx.byNamespacedPod, targets, ns, pod);
        LastIsUnique(targets, ns, pod);
        BelongsByLast(targets, row, slugLabel, slug);
      } else if slug != "" {
        ByNameLookup(idx.byPod, targets, pod, slug);
      }
    }
  }

  lemma LastIsUnique(targets: seq<Target>, ns: string, pod: string)
    ensures forall i, j :: LastWith(targets, i, ns, pod) && LastWith(targets, j, ns, pod) ==> i == j
  {
  }

  lemma BelongsByLast(targets: seq<Target>, row: Series, slugLabel: string, slug: string)
    requires Lookup(row.labels, slugLabel) == "" && PodOf(row) != "" && NamespaceOf(row) != ""
    ensures BelongsTo(targets, row, slugLabel, slug) <==>
              slug != "" && exists i :: LastWith(targets, i, NamespaceOf(row), PodOf(row)) && targets[i].slug == slug
  {
    hide FirstLabel;
    if i :| LastWith(targets, i, NamespaceOf(row), PodOf(row)) && targets[i].slug == slug {
      assert HasPod(targets[i], NamespaceOf(row), PodOf(row));
    }
    if slug != "" && BelongsTo(targets, row, slugLabel, slug) {
      var i :| 0 <= i < |targets| && targets[i].slug == slug && HasPod(targets[i], NamespaceOf(row), PodOf(row))
               && forall j :: i < j < |targets| ==> !HasPod(targets[j], NamespaceOf(row), PodOf(row));
      assert LastWith(targets, i, NamespaceOf(row), PodOf(row));
    }
  }

  /** No pod of a namespace is listed by targets of two different slugs. */
  ghost predicate OneOwner(targets: seq<Target>) {
    forall t, u, ns, p :: t in targets && u in targets && HasPod(t, ns, p) && HasPod(u, ns, p) ==> t.slug == u.slug
  }

  lemma {:induction false} SomeLast(targets: seq<Target>, i: nat, ns: string, pod: string) returns (k: nat)
    requires i < |targets| && HasPod(targets[i], ns, pod)
    ensures LastWith(targets, k, ns, pod)
    decreases |targets| - i
  {
    if j :| i < j < |targets| && HasPod(targets[j], ns, pod) {
      k := SomeLast(targets, j, ns, pod);
    } else {
      k := i;
    }
  }

  /** When pods have one owner, listing the same targets in another order attributes alike. */
  lemma BelongingIgnoresTargetOrder(targets: seq<Target>, others: seq<Target>, row: Series, slugLabel: string,
                                    slug: string)
    requires Elements(targets) == Elements(others) && OneOwner(targets)
    requires BelongsTo(targets, row, slugLabel, slug)
    ensures BelongsTo(others, row, slugLabel, slug)
  {
    hide FirstLabel;
    var ns, pod := NamespaceOf(row), PodOf(row);
    assert forall t :: t in targets <==> t in Elements(others);
    if Lookup(row.labels, slugLabel) == "" && ns != "" {
      BelongsByLast(targets, row, slugLabel, slug);
      BelongsByLast(others, row, slugLabel, slug);
      var i :| LastWith(targets, i, ns, pod) && targets[i].slug == slug;
      assert targets[i] in Elements(others);
      var j :| 0 <= j < |others| && others[j] == targets[i];
      var k := SomeLast(others, j, ns, pod);
      assert others[k] in Elements(others);
      assert HasPod(others[k], ns, pod) && HasPod(targets[i], ns, pod);
    }
  }

  lemma ResolveIgnoresTargetOrder(targets: seq<Target>, others: seq<Target>, row: Series, slugLabel: string)
    requires SeparatorFree(targets)
    requires Elements(targets) == Elements(others) && OneOwner(targets)
    ensures IndexFor(targets).Resolve(row, slugLabel) == IndexFor(others).Resolve(row, slugLabel)
  {
    hide BelongsTo, IndexFor, FirstLabel;
    assert forall t :: t in others ==> t in Elements(targets);
    assert SeparatorFree(others) && OneOwner(others);
    var a, b := IndexFor(targets).Resolve(row, slugLabel), IndexFor(others).Resolve(row, slugLabel);
    if a.Some? {
      ResolveDecidesBelonging(targets, row, slugLabel, a.value);
      BelongingIgnoresTargetOrder(targets, others, row, slugLabel, a.value);
      ResolveDecidesBelonging(others, row, slugLabel, a.value);
    }
    if b.Some? {
      ResolveDecidesBelonging(others, row, slugLabel, b.value);
      BelongingIgnoresTargetOrder(others, targets, row, slugLabel, b.value);
      ResolveDecidesBelonging(targets, row, slugLabel, b.value);
    }
  }

  /** Every attributed slug is a target's slug, whatever the names contain. */
  lemma ResolvedSlugIsATargets(targets: seq<Target>, row: Series, slugLabel: string)
    requires IndexFor(targets).Resolve(row, slugLabel).Some?
    ensures exists t :: t in targets && t.slug == IndexFor(targets).Resolve(row, slugLabel).value
  {
    hide FirstLabel, Claims, ByNamespace, ByPodName, PodKey;
    var idx, claims := IndexFor(targets), Claims(targets, |targets|);
    FoldsAreSound(claims);
    if Lookup(row.labels, slugLabel) == "" {
      var c: Claim;
      match PodRef(row) {
        case Some(key) =>
          assert LastClaimedBy(claims, key, idx.byNamespacedPod[key]);
          var i :| LastClaim(claims, key, i) && claims[i].slug == idx.byNamespacedPod[key];
          c := claims[i];
        case None =>
          assert ClaimedBy(claims, PodOf(row), idx.byPod[PodOf(row)]);
          c :| c in claims && c.slug == idx.byPod[PodOf(row)];
      }
      OwnerLists(targets, c);
      assert targets[c.owner] in targets;
    }
  }
}
