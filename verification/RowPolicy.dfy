/** Which rows of a family may be summed (internal/scrape/resolve.go, `summable`). */
module RowPolicy {
  import opened Wrappers
  import opened Text
  import opened SeriesIdentity

  const POD_LABELS := ["pod", "k8s_pod_name"]
  const NAMESPACE_LABELS := ["namespace", "k8s_namespace_name"]
  const CONTAINER_LABELS := ["container", "k8s_container_name"]
  const PAUSE_CONTAINER := "POD"
  const SEPARATOR := '\U{1f}'

  function FirstLabel(labels: map<string, string>, names: seq<string>): string {
    if names == [] then "" else
    if Lookup(labels, names[0]) != "" then Lookup(labels, names[0]) else FirstLabel(labels, names[1..])
  }

  function PodOf(row: Series): string { FirstLabel(row.labels, POD_LABELS) }

  function NamespaceOf(row: Series): string { FirstLabel(row.labels, NAMESPACE_LABELS) }

  function ContainerOf(row: Series): string { FirstLabel(row.labels, CONTAINER_LABELS) }

  function PodKey(namespace: string, pod: string): Option<string> {
    if namespace == "" || pod == "" then None else Some(namespace + [SEPARATOR] + pod)
  }

  function PodRef(row: Series): Option<string> { PodKey(NamespaceOf(row), PodOf(row)) }

  /** The key names one pod as long as namespaces do not carry the separator. */
  lemma PodKeyIdentifies(ns: string, pod: string, ns': string, pod': string)
    requires SEPARATOR !in ns && SEPARATOR !in ns'
    requires PodKey(ns, pod).Some? && PodKey(ns, pod) == PodKey(ns', pod')
    ensures ns == ns' && pod == pod'
  {
    SplitIsUnique(SEPARATOR, ns, pod, ns', pod');
  }

  /** Every separator in the key that could end a namespace ends this one. */
  predicate ReadsOneWay(ns: string, pod: string) {
    var key := ns + [SEPARATOR] + pod;
    forall k :: 0 < k < |key| - 1 && key[k] == SEPARATOR ==> k == |ns|
  }

  /** With arbitrary names, a key names one pod exactly when it reads one way. */
  lemma KeyReadsOneWay(ns: string, pod: string)
    requires PodKey(ns, pod).Some?
    ensures ReadsOneWay(ns, pod) <==>
              forall ns', pod' :: PodKey(ns', pod') == PodKey(ns, pod) ==> ns' == ns && pod' == pod
  {
    var key := ns + [SEPARATOR] + pod;
    if k :| 0 < k < |key| - 1 && key[k] == SEPARATOR && k != |ns| {
      assert key == key[..k] + [SEPARATOR] + key[k + 1..];
      assert PodKey(key[..k], key[k + 1..]) == PodKey(ns, pod);
    } else {
      forall ns', pod' | PodKey(ns', pod') == PodKey(ns, pod) ensures ns' == ns && pod' == pod {
        assert key == ns' + [SEPARATOR] + pod';
        assert 0 < |ns'| < |key| - 1 && key[|ns'|] == SEPARATOR;
        assert ns == key[..|ns|] == ns' && pod == key[|ns| + 1..] == pod';
      }
    }
  }

  predicate IsPause(row: Series) { ContainerOf(row) == PAUSE_CONTAINER }

  predicate IsContainer(row: Series) { ContainerOf(row) != "" && ContainerOf(row) != PAUSE_CONTAINER }

  predicate IsTotal(row: Series) { ContainerOf(row) == "" }

  /** `c` is a container row of the pod that the total `row` sums up: the same namespace and pod
      when the total names both, the same pod name when it names no namespace. */
  predicate Covers(c: Series, row: Series) {
    IsContainer(c) && PodOf(row) != "" &&
    if NamespaceOf(row) != "" then PodRef(c) == PodRef(row) else PodOf(c) == PodOf(row)
  }

  ghost predicate Superseded(row: Series, all: set<Series>) {
    IsTotal(row) && exists c :: c in all && Covers(c, row)
  }

  ghost predicate Kept(row: Series, all: set<Series>) { !IsPause(row) && !Superseded(row, all) }

  /** The rows that survive next to `all`, in order. */
  ghost function Keep(rows: seq<Series>, all: set<Series>): (kept: seq<Series>)
    ensures |kept| <= |rows|
  {
    if rows == [] then [] else
    var front, row := Keep(rows[..|rows| - 1], all), rows[|rows| - 1];
    if Kept(row, all) then front + [row] else front
  }

  ghost function SummableRows(rows: seq<Series>): seq<Series> { Keep(rows, Elements(rows)) }

  /** A pod with a total that names no namespace next to container rows that do. */
  ghost predicate AmbiguousPod(pod: string, all: set<Series>) {
    pod != "" &&
    (exists t :: t in all && IsTotal(t) && NamespaceOf(t) == "" && PodOf(t) == pod) &&
    (exists c :: c in all && IsContainer(c) && NamespaceOf(c) != "" && PodOf(c) == pod)
  }

  ghost function AmbiguousPods(all: set<Series>): set<string> {
    set row | row in all && AmbiguousPod(PodOf(row), all) :: PodOf(row)
  }

  // ---- The three sweeps over the rows ------------------------------------------------------------

  ghost predicate Registered(namespaced: set<string>, podOnly: set<string>, mixed: set<string>, seen: set<Series>) {
    && (forall k :: k in namespaced <==> exists c :: c in seen && IsContainer(c) && PodRef(c) == Some(k))
    && (forall p :: p in podOnly <==> p != "" && exists c :: c in seen && IsContainer(c) && PodOf(c) == p)
    && (forall p :: p in mixed <==>
          p != "" && exists c :: c in seen && IsContainer(c) && NamespaceOf(c) != "" && PodOf(c) == p)
  }

  lemma RegisterStep(namespaced: set<string>, podOnly: set<string>, mixed: set<string>, seen: set<Series>, row: Series)
    requires Registered(namespaced, podOnly, mixed, seen)
    ensures if IsContainer(row) && PodRef(row).Some? then
              Registered(namespaced + {PodRef(row).value}, podOnly + {PodOf(row)}, mixed + {PodOf(row)}, seen + {row})
            else if IsContainer(row) && PodOf(row) != "" && NamespaceOf(row) == "" then
              Registered(namespaced, podOnly + {PodOf(row)}, mixed, seen + {row})
            else Registered(namespaced, podOnly, mixed, seen + {row})
  {
    hide FirstLabel;
  }

  method RegisterContainers(rows: seq<Series>)
    returns (namespaced: set<string>, podOnly: set<string>, mixed: set<string>)
    ensures Registered(namespaced, podOnly, mixed, Elements(rows))
  {
    namespaced, podOnly, mixed := {}, {}, {};
    assert rows[..0] == [];
    for i := 0 to |rows|
      invariant Registered(namespaced, podOnly, mixed, Elements(rows[..i]))
    {
      hide PodOf, NamespaceOf, IsContainer, PodRef, Registered;
      var row := rows[i];
      assert rows[..i + 1] == rows[..i] + [row];
      assert Elements(rows[..i + 1]) == Elements(rows[..i]) + {row};
      RegisterStep(namespaced, podOnly, mixed, Elements(rows[..i]), row);
      if IsContainer(row) {
        var pod := PodOf(row);
        match PodRef(row) {
          case Some(key) =>
            namespaced, podOnly, mixed := namespaced + {key}, podOnly + {pod}, mixed + {pod};
          case None =>
            if pod != "" && NamespaceOf(row) == "" {
              podOnly := podOnly + {pod};
            }
        }
      }
    }
    assert rows[..|rows|] == rows;
  }

  predicate IsSupersededRollup(row: Series, namespaced: set<string>, podOnly: set<string>) {
    if ContainerOf(row) != "" then false else
    match PodRef(row)
    case Some(key) => key in namespaced
    case None => PodOf(row) != "" && NamespaceOf(row) == "" && PodOf(row) in podOnly
  }

  lemma RollupIsSuperseded(row: Series, namespaced: set<string>, podOnly: set<string>, mixed: set<string>,
                           all: set<Series>)
    requires Registered(namespaced, podOnly, mixed, all)
    ensures IsSupersededRollup(row, namespaced, podOnly) <==> Superseded(row, all)
  {
    hide FirstLabel;
    if PodRef(row).Some? {
      assert PodRef(row).value in namespaced <==>
             exists c :: c in all && IsContainer(c) && PodRef(c) == Some(PodRef(row).value);
    }
  }

  method Summable(rows: seq<Series>) returns (out: seq<Series>, excluded: nat, ambiguous: seq<string>)
    ensures out == SummableRows(rows)
    ensures excluded == |rows| - |out|
    ensures Lists(ambiguous, AmbiguousPods(Elements(rows)))
  {
    hide FirstLabel, Superseded, IsSupersededRollup, IsPause, AmbiguousPod;
    var namespaced, podOnly, mixed := RegisterContainers(rows);
    ghost var all := Elements(rows);
    out := [];
    var pods := {};
    for i := 0 to |rows|
      invariant out == Keep(rows[..i], all) && |out| <= i
      invariant pods == AmbiguousAmong(rows[..i], all)
    {
      var row := rows[i];
      assert rows[..i + 1][..i] == rows[..i];
      RollupIsSuperseded(row, namespaced, podOnly, mixed, all);
      AmbiguousStep(row, namespaced, podOnly, mixed, all);
      if !IsPause(row) {
        if IsSupersededRollup(row, namespaced, podOnly) {
          if NamespaceOf(row) == "" && PodOf(row) in mixed {
            pods := pods + {PodOf(row)};
          }
        } else {
          out := out + [row];
        }
      }
    }
    assert rows[..|rows|] == rows;
    AmbiguousAmongAll(rows);
    ambiguous := SortedKeys(pods);
    excluded := |rows| - |out|;
  }

  /** `row` is a dropped total that makes its pod ambiguous. */
  ghost predicate Ambiguates(row: Series, all: set<Series>) {
    IsTotal(row) && NamespaceOf(row) == "" && AmbiguousPod(PodOf(row), all)
  }

  ghost function AmbiguousAmong(rows: seq<Series>, all: set<Series>): set<string> {
    if rows == [] then {} else
    var row := rows[|rows| - 1];
    AmbiguousAmong(rows[..|rows| - 1], all) + (if Ambiguates(row, all) then {PodOf(row)} else {})
  }

  lemma AmbiguousStep(row: Series, namespaced: set<string>, podOnly: set<string>, mixed: set<string>, all: set<Series>)
    requires Registered(namespaced, podOnly, mixed, all) && row in all
    ensures !IsPause(row) && IsSupersededRollup(row, namespaced, podOnly) && NamespaceOf(row) == ""
            && PodOf(row) in mixed
            <==> Ambiguates(row, all)
  {
    hide FirstLabel;
  }

  lemma {:induction false} AmbiguousAmongAre(rows: seq<Series>, all: set<Series>)
    ensures AmbiguousAmong(rows, all) == set row | row in rows && Ambiguates(row, all) :: PodOf(row)
    decreases |rows|
  {
    hide FirstLabel, Ambiguates;
    if rows != [] {
      AmbiguousAmongAre(rows[..|rows| - 1], all);
      assert rows == rows[..|rows| - 1] + [rows[|rows| - 1]];
    }
  }

  lemma AmbiguousAmongAll(rows: seq<Series>)
    ensures AmbiguousAmong(rows, Elements(rows)) == AmbiguousPods(Elements(rows))
  {
    hide FirstLabel;
    var all := Elements(rows);
    AmbiguousAmongAre(rows, all);
    forall pod | pod in AmbiguousPods(all) ensures pod in AmbiguousAmong(rows, all) {
      var t :| t in all && IsTotal(t) && NamespaceOf(t) == "" && PodOf(t) == pod;
      assert t in rows && Ambiguates(t, all);
    }
  }

  // ---- What the policy guarantees ----------------------------------------------------------------

  lemma {:induction false} KeepCounts(rows: seq<Series>, all: set<Series>, row: Series)
    ensures multiset(Keep(rows, all))[row] == if Kept(row, all) then multiset(rows)[row] else 0
    decreases |rows|
  {
    hide Kept;
    if rows != [] {
      KeepCounts(rows[..|rows| - 1], all, row);
      assert rows == rows[..|rows| - 1] + [rows[|rows| - 1]];
    }
  }

  lemma {:induction false} KeepElements(rows: seq<Series>, all: set<Series>)
    ensures forall row :: row in Keep(rows, all) <==> row in rows && Kept(row, all)
    ensures Elements(Keep(rows, all)) == set row | row in rows && Kept(row, all)
    decreases |rows|
  {
    hide Kept;
    if rows != [] {
      KeepElements(rows[..|rows| - 1], all);
      assert rows == rows[..|rows| - 1] + [rows[|rows| - 1]];
    }
  }

  // ---- The policy, read off the labels -----------------------------------------------------------

  function EitherLabel(labels: map<string, string>, name: string, other: string): string {
    if Lookup(labels, name) != "" then Lookup(labels, name) else Lookup(labels, other)
  }

  lemma TwoSpellings(labels: map<string, string>, name: string, other: string)
    ensures FirstLabel(labels, [name, other]) == EitherLabel(labels, name, other)
  {
    hide Lookup;
    assert [name, other][1..] == [other];
    assert FirstLabel(labels, [other]) == Lookup(labels, other);
  }

  /** Which labels identify a row: the first spelling with a value. */
  lemma LabelsOf(row: Series)
    ensures PodOf(row) == EitherLabel(row.labels, "pod", "k8s_pod_name")
    ensures NamespaceOf(row) == EitherLabel(row.labels, "namespace", "k8s_namespace_name")
    ensures ContainerOf(row) == EitherLabel(row.labels, "container", "k8s_container_name")
  {
    hide Lookup;
    TwoSpellings(row.labels, "pod", "k8s_pod_name");
    TwoSpellings(row.labels, "namespace", "k8s_namespace_name");
    TwoSpellings(row.labels, "container", "k8s_container_name");
  }

  /** By its labels, `c` measures a real container of the pod that `row` names. */
  predicate MeasuresPodOf(c: Series, row: Series) {
    var container := EitherLabel(c.labels, "container", "k8s_container_name");
    var ns, pod := EitherLabel(row.labels, "namespace", "k8s_namespace_name"),
                   EitherLabel(row.labels, "pod", "k8s_pod_name");
    var ns', pod' := EitherLabel(c.labels, "namespace", "k8s_namespace_name"),
                     EitherLabel(c.labels, "pod", "k8s_pod_name");
    container != "" && container != "POD" && pod != "" &&
    if ns == "" then pod' == pod
    else ns' != "" && pod' != "" && ns' + [SEPARATOR] + pod' == ns + [SEPARATOR] + pod
  }

  /** By its labels, the row is no pause container and no total that a container row of its pod covers. */
  ghost predicate Survives(row: Series, rows: seq<Series>) {
    var container := EitherLabel(row.labels, "container", "k8s_container_name");
    container != "POD" && !(container == "" && exists c :: c in rows && MeasuresPodOf(c, row))
  }

  lemma CoversByLabels(c: Series, row: Series)
    ensures Covers(c, row) <==> MeasuresPodOf(c, row)
  {
    hide FirstLabel, EitherLabel;
    LabelsOf(c);
    LabelsOf(row);
  }

  lemma KeptByLabels(row: Series, rows: seq<Series>)
    ensures Kept(row, Elements(rows)) <==> Survives(row, rows)
  {
    hide FirstLabel, EitherLabel, Covers, MeasuresPodOf;
    LabelsOf(row);
    forall c ensures Covers(c, row) <==> MeasuresPodOf(c, row) {
      CoversByLabels(c, row);
    }
    assert forall c :: c in Elements(rows) <==> c in rows;
  }

  lemma {:induction false} KeepPositions(rows: seq<Series>, all: set<Series>) returns (ks: seq<nat>)
    ensures Picks(ks, rows, Keep(rows, all))
    ensures forall k :: 0 <= k < |rows| ==> (k in ks <==> Kept(rows[k], all))
    decreases |rows|
  {
    hide Kept, Picks;
    ks := [];
    if rows == [] {
      NothingPicked(rows);
    } else {
      var front := rows[..|rows| - 1];
      ks := KeepPositions(front, all);
      PickNext(ks, front, Keep(front, all), rows[|rows| - 1]);
      assert rows == front + [rows[|rows| - 1]];
      if Kept(rows[|rows| - 1], all) {
        ks := ks + [|rows| - 1];
      }
    }
  }

  /** By their labels, the rows hold a total of the pod that names no namespace and a container row of it that does. */
  ghost predicate MixesShapes(pod: string, rows: seq<Series>) {
    && pod != ""
    && (exists t :: t in rows && EitherLabel(t.labels, "pod", "k8s_pod_name") == pod
                    && EitherLabel(t.labels, "container", "k8s_container_name") == ""
                    && EitherLabel(t.labels, "namespace", "k8s_namespace_name") == "")
    && (exists c :: c in rows && EitherLabel(c.labels, "pod", "k8s_pod_name") == pod
                    && EitherLabel(c.labels, "container", "k8s_container_name") !in ["", "POD"]
                    && EitherLabel(c.labels, "namespace", "k8s_namespace_name") != "")
  }

  lemma AmbiguousByLabels(pod: string, rows: seq<Series>)
    ensures pod in AmbiguousPods(Elements(rows)) <==> MixesShapes(pod, rows)
  {
    hide FirstLabel, EitherLabel;
    forall row ensures PodOf(row) == EitherLabel(row.labels, "pod", "k8s_pod_name")
               ensures NamespaceOf(row) == EitherLabel(row.labels, "namespace", "k8s_namespace_name")
               ensures ContainerOf(row) == EitherLabel(row.labels, "container", "k8s_container_name")
    {
      LabelsOf(row);
    }
    assert forall row :: row in Elements(rows) <==> row in rows;
  }

  /** Exactly the rows that survive by their labels are summed, each at its place. */
  lemma SummableRowsSurvive(rows: seq<Series>) returns (ks: seq<nat>)
    ensures Picks(ks, rows, SummableRows(rows))
    ensures forall k :: 0 <= k < |rows| ==> (k in ks <==> Survives(rows[k], rows))
    ensures forall row :: row in SummableRows(rows) <==> row in rows && Survives(row, rows)
  {
    hide Kept, Survives, Keep;
    ks := KeepPositions(rows, Elements(rows));
    KeepElements(rows, Elements(rows));
    forall row ensures Kept(row, Elements(rows)) <==> Survives(row, rows) {
      KeptByLabels(row, rows);
    }
  }

  /** No pod is counted twice: a kept total has no container row of its pod next to it, whatever the
      labels contain. */
  lemma NoPodIsCountedTwice(rows: seq<Series>, total: Series, c: Series)
    requires total in SummableRows(rows) && IsTotal(total)
    requires c in rows && IsContainer(c) && PodOf(total) != ""
    ensures NamespaceOf(total) == "" ==> PodOf(c) != PodOf(total)
    ensures !(NamespaceOf(c) == NamespaceOf(total) && PodOf(c) == PodOf(total))
  {
    hide FirstLabel;
    KeepElements(rows, Elements(rows));
    assert total in Elements(SummableRows(rows));
    assert !Superseded(total, Elements(rows));
    assert c in Elements(rows) && !Covers(c, total);
  }

  /** No pod is lost: every container row is kept, and a row that is dropped without being a pause
      row leaves a kept container row of its pod behind. */
  lemma NoPodIsLost(rows: seq<Series>, row: Series)
    requires row in rows && !IsPause(row)
    ensures IsContainer(row) ==> multiset(SummableRows(rows))[row] == multiset(rows)[row]
    ensures row !in SummableRows(rows) ==>
              IsTotal(row) && exists c :: c in SummableRows(rows) && Covers(c, row)
  {
    hide FirstLabel;
    var all := Elements(rows);
    KeepElements(rows, all);
    KeepCounts(rows, all, row);
    if row !in SummableRows(rows) {
      assert row !in Elements(SummableRows(rows)) && Superseded(row, all);
      var c :| c in all && Covers(c, row);
      assert Kept(c, all) && c in Elements(SummableRows(rows));
    }
  }

  ghost function ContainerRow(ns: string, pod: string): (c: Series)
    ensures NamespaceOf(c) == ns && PodOf(c) == pod && IsContainer(c)
  {
    var c := Series("", map["namespace" := ns, "pod" := pod, "container" := "x"], 0.0, Gauge);
    LabelsOf(c);
    c
  }

  predicate SamePod(c: Series, row: Series) { PodOf(c) == PodOf(row) && NamespaceOf(c) == NamespaceOf(row) }

  /** A total that names its namespace is dropped for container rows of that very pod only, whatever
      rows a peer sends, exactly when its own key reads one way. */
  lemma CoverNamesThePod(total: Series)
    requires IsTotal(total) && NamespaceOf(total) != "" && PodOf(total) != ""
    ensures (forall c :: Covers(c, total) ==> SamePod(c, total)) <==> ReadsOneWay(NamespaceOf(total), PodOf(total))
  {
    hide FirstLabel, ReadsOneWay, IsContainer;
    KeyReadsOneWay(NamespaceOf(total), PodOf(total));
    if ns, pod :| PodKey(ns, pod) == PodRef(total) && !(ns == NamespaceOf(total) && pod == PodOf(total)) {
      assert Covers(ContainerRow(ns, pod), total);
    }
  }

  /** Otherwise one namespace's container does delete another namespace's total: the container of pod
      "c" in a namespace whose name holds the separator, the total of a pod whose name holds it. */
  lemma AForeignContainerDeletesATotal()
    ensures exists c, total ::
              && IsContainer(c) && IsTotal(total) && NamespaceOf(c) != NamespaceOf(total) && PodOf(c) != PodOf(total)
              && SummableRows([total, c]) == [c]
  {
    var ns, pod := "a" + [SEPARATOR] + "b", "b" + [SEPARATOR] + "c";
    var c := ContainerRow(ns, "c");
    var total := Series("", map["namespace" := "a", "pod" := pod], 0.0, Gauge);
    LabelsOf(total);
    hide FirstLabel;
    assert ns + [SEPARATOR] + "c" == "a" + [SEPARATOR] + pod;
    var rows := [total, c];
    assert c in Elements(rows) && Covers(c, total);
    assert rows[..1] == [total] && rows[..1][..0] == [];
    assert Keep([total], Elements(rows)) == [];
    assert ns[0] == 'a' && |ns| == 3;
  }

  /** Permuting the rows permutes what is kept and changes neither diagnostic. */
  lemma PolicyIgnoresOrder(rows: seq<Series>, permuted: seq<Series>)
    requires multiset(rows) == multiset(permuted)
    ensures multiset(SummableRows(rows)) == multiset(SummableRows(permuted))
    ensures |rows| - |SummableRows(rows)| == |permuted| - |SummableRows(permuted)|
    ensures AmbiguousPods(Elements(rows)) == AmbiguousPods(Elements(permuted))
  {
    hide Kept, AmbiguousPod, FirstLabel;
    SameElements(rows, permuted);
    var a, b := SummableRows(rows), SummableRows(permuted);
    forall row ensures multiset(a)[row] == multiset(b)[row] {
      KeepCounts(rows, Elements(rows), row);
      KeepCounts(permuted, Elements(rows), row);
    }
    assert multiset(a) == multiset(b);
    assert |rows| == |multiset(rows)| == |permuted| && |a| == |multiset(a)| == |multiset(b)| == |b|;
  }

  lemma SameElements<T>(xs: seq<T>, ys: seq<T>)
    requires multiset(xs) == multiset(ys)
    ensures Elements(xs) == Elements(ys)
  {
    assert forall x :: x in xs <==> x in multiset(xs);
    assert forall y :: y in ys <==> y in multiset(ys);
  }

  /** Reapplying the policy removes nothing: removing rows never supersedes a survivor. */
  lemma PolicyIsIdempotent(rows: seq<Series>)
    ensures SummableRows(SummableRows(rows)) == SummableRows(rows)
  {
    hide FirstLabel;
    var all, kept := Elements(rows), SummableRows(rows);
    KeepElements(rows, all);
    forall row | row in kept ensures Kept(row, Elements(kept)) {
      assert row in Elements(kept);
      assert Elements(kept) <= all;
    }
    KeepsAll(kept, Elements(kept));
  }

  /** After one application no pod is ambiguous any more. */
  lemma NothingStaysAmbiguous(rows: seq<Series>, pod: string)
    ensures !AmbiguousPod(pod, Elements(SummableRows(rows)))
  {
    hide FirstLabel, SummableRows;
    var kept := SummableRows(rows);
    KeepIsSubset(rows);
    forall t, c | t in kept && c in kept && IsTotal(t) && NamespaceOf(t) == "" && PodOf(t) != "" && IsContainer(c)
      ensures PodOf(c) != PodOf(t)
    {
      NoPodIsCountedTwice(rows, t, c);
    }
  }

  lemma KeepIsSubset(rows: seq<Series>)
    ensures forall row :: row in SummableRows(rows) ==> row in rows
  {
    hide Kept;
    KeepElements(rows, Elements(rows));
    assert forall row :: row in SummableRows(rows) ==> row in Elements(SummableRows(rows));
  }

  lemma {:induction false} KeepsAll(rows: seq<Series>, all: set<Series>)
    requires forall row :: row in rows ==> Kept(row, all)
    ensures Keep(rows, all) == rows
    decreases |rows|
  {
    hide Kept;
    if rows != [] {
      KeepsAll(rows[..|rows| - 1], all);
      assert rows == rows[..|rows| - 1] + [rows[|rows| - 1]];
    }
  }
}
