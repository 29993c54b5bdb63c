/** When the order in which a peer writes its rows and families can matter to an answer
    (internal/scrape/resolve.go, internal/agent/exposition.go). */
module RowOrder {
  import opened Wrappers
  import opened Text
  import opened SeriesIdentity
  import opened Rate
  import opened RowPolicy
  import opened Resolve
  import opened Decode
  import opened SlugIndex
  import opened Reduce
  import opened Exposition
  import opened ExpositionRuns

  predicate SameKind(s: Series, t: Series) { s.name == t.name ==> s.kind == t.kind }

  /** The rows of one name have one kind. */
  ghost predicate OneKindPerName(rows: seq<Series>) {
    forall s, t {:trigger SameKind(s, t)} :: s in rows && t in rows ==> SameKind(s, t)
  }

  /** A decoded body whose family names are distinct has it. */
  lemma DecodedRowsHaveOneKind(families: seq<Family>, keep: set<string>)
    requires DistinctNames(families)
    ensures OneKindPerName(AdmittedRows(families, keep))
  {
    hide AdmittedRows, KindOf;
    var rows := AdmittedRows(families, keep);
    forall s, t | s in rows && t in rows ensures SameKind(s, t) {
      var i := RowComesFromFamily(families, keep, s);
      var j := RowComesFromFamily(families, keep, t);
    }
  }

  /** The candidate's family does not depend on the order: its own spelling is there, or only one
      matching name is. */
  ghost predicate OneFamily(c: Candidate, rows: seq<Series>) {
    || (exists s :: s in rows && s.name == c.name)
    || (forall s, t :: s in rows && t in rows && Matches(c, s.name) && Matches(c, t.name) ==> s.name == t.name)
  }

  lemma {:induction false} OfNameCounts(all: seq<Series>, name: string, row: Series)
    ensures multiset(OfName(all, name))[row] == if row.name == name then multiset(all)[row] else 0
    decreases |all|
  {
    if all != [] {
      OfNameCounts(all[..|all| - 1], name, row);
      assert all == all[..|all| - 1] + [all[|all| - 1]];
    }
  }

  lemma OfNameIgnoresOrder(rows: seq<Series>, permuted: seq<Series>, name: string)
    requires multiset(rows) == multiset(permuted)
    ensures multiset(OfName(rows, name)) == multiset(OfName(permuted, name))
  {
    forall row ensures multiset(OfName(rows, name))[row] == multiset(OfName(permuted, name))[row] {
      OfNameCounts(rows, name, row);
      OfNameCounts(permuted, name, row);
    }
  }

  lemma {:induction false} FirstMatchIsHead(c: Candidate, all: seq<Series>)
    requires all != [] && Matches(c, all[0].name)
    ensures FirstMatch(c, all) == Some(all[0].name)
    decreases |all|
  {
    hide Matches;
    if |all| > 1 {
      FirstMatchIsHead(c, all[..|all| - 1]);
    } else {
      assert FirstMatch(c, all[..0]) == None;
    }
  }

  lemma MoveToFront(rows: seq<Series>, row: Series) returns (permuted: seq<Series>)
    requires row in rows
    ensures permuted != [] && permuted[0] == row && multiset(permuted) == multiset(rows)
  {
    var k :| 0 <= k < |rows| && rows[k] == row;
    permuted := [row] + (rows[..k] + rows[k + 1..]);
    assert rows == rows[..k] + [row] + rows[k + 1..];
  }

  /** The winning family is the same in every order of the rows exactly when it is unmistakable. */
  lemma WinnerIgnoresOrder(c: Candidate, rows: seq<Series>)
    requires c.name != ""
    ensures OneFamily(c, rows) <==>
              forall permuted :: multiset(permuted) == multiset(rows) ==> Winner(c, permuted) == Winner(c, rows)
  {
    hide Matches, FirstMatch;
    FirstMatchHolds(c, rows);
    forall permuted | multiset(permuted) == multiset(rows)
      ensures OneFamily(c, rows) ==> Winner(c, permuted) == Winner(c, rows)
      ensures forall s :: s in permuted <==> s in rows
    {
      assert forall s :: s in permuted <==> s in multiset(permuted);
      assert forall s :: s in rows <==> s in multiset(rows);
      FirstMatchHolds(c, permuted);
    }
    if !OneFamily(c, rows) {
      var t :| t in rows && Matches(c, t.name) && t.name != Winner(c, rows).value;
      var permuted := MoveToFront(rows, t);
      FirstMatchIsHead(c, permuted);
      assert Winner(c, permuted) != Winner(c, rows);
    }
  }

  lemma FamilyIgnoresOrder(c: Candidate, rows: seq<Series>, permuted: seq<Series>)
    requires c.name != "" && multiset(rows) == multiset(permuted)
    ensures FamilyRows(c, rows) == [] <==> FamilyRows(c, permuted) == []
    ensures OneFamily(c, rows) ==> multiset(FamilyRows(c, rows)) == multiset(FamilyRows(c, permuted))
  {
    hide Matches, OfName, Winner, OneFamily;
    assert forall s :: s in rows <==> s in multiset(rows);
    assert forall s :: s in permuted <==> s in multiset(permuted);
    FamilyIsOne(c, rows);
    FamilyIsOne(c, permuted);
    WinnerIgnoresOrder(c, rows);
    if OneFamily(c, rows) && Winner(c, rows).Some? {
      OfNameIgnoresOrder(rows, permuted, Winner(c, rows).value);
    }
  }

  /** The same selection, its rows in another order. */
  predicate Reordered(a: Option<Selection>, b: Option<Selection>) {
    if a.None? then b.None? else
    b.Some? && b.value == a.value.(series := b.value.series) && multiset(a.value.series) == multiset(b.value.series)
  }

  lemma LastKind(rows: seq<Series>, all: seq<Series>, permuted: seq<Series>)
    requires OneKindPerName(all) && rows != [] && multiset(rows) == multiset(permuted)
    requires forall s :: s in rows ==> s in all && s.name == rows[|rows| - 1].name
    ensures permuted != [] && rows[|rows| - 1].kind == permuted[|permuted| - 1].kind
  {
    assert |rows| == |multiset(rows)| == |permuted|;
    var s, t := rows[|rows| - 1], permuted[|permuted| - 1];
    assert t in multiset(permuted) && t in rows && s in rows;
    assert SameKind(s, t);
  }

  lemma {:induction false} SelectedIgnoresOrder(cs: seq<Candidate>, i: nat, role: Role, rows: seq<Series>,
                                                permuted: seq<Series>)
    requires i <= |cs| && forall c :: c in cs ==> c.name != ""
    requires multiset(rows) == multiset(permuted) && OneKindPerName(rows)
    requires Selected(cs, i, role, rows).Some? ==> OneFamily(Selected(cs, i, role, rows).value.candidate, rows)
    ensures Reordered(Selected(cs, i, role, rows), Selected(cs, i, role, permuted))
    decreases |cs| - i
  {
    hide Winner, OfName, SummableRows, AmbiguousPods, OneFamily, OneKindPerName, Matches;
    if i < |cs| {
      var family, other := FamilyRows(cs[i], rows), FamilyRows(cs[i], permuted);
      FamilyIgnoresOrder(cs[i], rows, permuted);
      if family == [] {
        SelectedIgnoresOrder(cs, i + 1, role, rows, permuted);
      } else {
        FamilyIsOne(cs[i], rows);
        assert family[|family| - 1] in family;
        LastKind(family, rows, other);
        PolicyIgnoresOrder(family, other);
      }
    }
  }

  // ---- Rating ------------------------------------------------------------------------------------

  lemma SnapshotIgnoresOrder<K>(rows: seq<Row<K>>, permuted: seq<Row<K>>, at: int)
    requires Elements(rows) == Elements(permuted) && Coherent(rows)
    ensures Coherent(permuted) && Fingerprints(rows) == Fingerprints(permuted)
    ensures Snapshot(rows, at) == Snapshot(permuted, at)
  {
    hide FirstFingerprints;
    assert forall r :: r in rows <==> r in Elements(rows);
    assert forall r :: r in permuted <==> r in Elements(rows);
    FingerprintsAre(rows, |rows|);
    FingerprintsAre(permuted, |permuted|);
    forall fp ensures fp in Fingerprints(rows) <==> fp in Fingerprints(permuted) {
      if fp in Fingerprints(rows) { assert RowNaming(rows, fp) in permuted; }
      if fp in Fingerprints(permuted) { assert RowNaming(permuted, fp) in rows; }
    }
    forall fp | fp in Fingerprints(rows) ensures RowNaming(rows, fp).value == RowNaming(permuted, fp).value {
      assert Agree(RowNaming(rows, fp), RowNaming(permuted, fp));
    }
  }

  /** A scrape that fits the ceiling is remembered and rated alike in every order. */
  lemma ObservedIgnoresOrder<K>(prev: Table<K>, ceiling: nat, rows: seq<Row<K>>, permuted: seq<Row<K>>, at: int)
    requires Elements(rows) == Elements(permuted) && Coherent(rows) && |Fingerprints(rows)| <= ceiling
    ensures Observed(prev, ceiling, rows, at).table == Observed(prev, ceiling, permuted, at).table
    ensures Observed(prev, ceiling, rows, at).rates == Observed(prev, ceiling, permuted, at).rates
  {
    hide Observed, Snapshot, Differences, Fingerprints, Coherent;
    SnapshotIgnoresOrder(rows, permuted, at);
    ObservedIsDifference(prev, ceiling, rows, at);
    ObservedIsDifference(prev, ceiling, permuted, at);
  }

  lemma RowsOfElements(series: seq<Series>, permuted: seq<Series>)
    requires multiset(series) == multiset(permuted)
    ensures Elements(RowsOf(series)) == Elements(RowsOf(permuted))
  {
    hide FingerprintOf;
    SameElements(series, permuted);
    RowsOfSubset(series, permuted);
    RowsOfSubset(permuted, series);
  }

  lemma RowsOfSubset(series: seq<Series>, more: seq<Series>)
    requires Elements(series) <= Elements(more)
    ensures Elements(RowsOf(series)) <= Elements(RowsOf(more))
  {
    hide FingerprintOf;
    forall r | r in RowsOf(series) ensures r in RowsOf(more) {
      RowsOfMember(series, r);
      var s :| s in series && r.fp == FingerprintOf(s) && r.value == s.value;
      assert s in Elements(series) && s in more;
      var i :| 0 <= i < |more| && more[i] == s;
      assert RowsOf(more)[i] == r;
    }
  }

  // ---- A tick whose rows came in another order ---------------------------------------------------

  /** The same tick, its rows in another order. */
  predicate PermutedTick(tick: Tick, other: Tick) {
    if tick.fetched.Err? then other == tick else
    other.fetched.Ok? && other == tick.(fetched := other.fetched)
    && multiset(tick.fetched.value) == multiset(other.fetched.value)
  }

  /** The rows of a role's family are the same in whatever order the peer writes them. */
  ghost predicate Unmistakable(cfg: Config, tick: Tick, role: Role) {
    SelectionOf(cfg, tick, role).Some? ==> OneFamily(SelectionOf(cfg, tick, role).value.candidate, tick.fetched.value)
  }

  /** What makes an answer independent of the order of rows: rows of one series agree, a name has one kind,
      each role's family is unmistakable and the counters fit the ceiling. */
  ghost predicate OrderFree(cfg: Config, tick: Tick) {
    && ConsistentScrape(tick) && FitsCeiling(cfg, tick)
    && Unmistakable(cfg, tick, Cpu) && Unmistakable(cfg, tick, Memory)
    && (tick.fetched.Ok? ==> OneKindPerName(tick.fetched.value))
  }

  lemma SelectionIsReordered(cfg: Config, tick: Tick, other: Tick, role: Role)
    requires PermutedTick(tick, other) && Unmistakable(cfg, tick, role)
    requires tick.fetched.Ok? ==> OneKindPerName(tick.fetched.value)
    ensures Reordered(SelectionOf(cfg, tick, role), SelectionOf(cfg, other, role))
  {
    hide Selected, OneFamily, OneKindPerName;
    if tick.fetched.Ok? {
      SelectedIgnoresOrder(cfg.resolver.Candidates(role), 0, role, tick.fetched.value, other.fetched.value);
    }
  }

  lemma RatingIgnoresRowOrder(cfg: Config, table: Table<string>, tick: Tick, other: Tick)
    requires PermutedTick(tick, other) && OrderFree(cfg, tick)
    ensures RatedNow(cfg, table, tick) == RatedNow(cfg, table, other)
    ensures NextTable(cfg, table, tick) == NextTable(cfg, table, other)
  {
    hide SelectionOf, Observed, RowsOf, Coherent, Fingerprints, OneKindPerName, Unmistakable, ConsistentScrape;
    SelectionIsReordered(cfg, tick, other, Cpu);
    if Counters(cfg, tick).Some? {
      var series, permuted := Counters(cfg, tick).value, Counters(cfg, other).value;
      CountersAreCoherent(cfg, tick);
      RowsOfElements(series, permuted);
      ObservedIgnoresOrder(table, cfg.ceiling, RowsOf(series), RowsOf(permuted), tick.at);
    }
  }

  lemma EmissionIsSame(cfg: Config, tick: Tick, other: Tick, role: Role, rated: map<string, real>)
    requires PermutedTick(tick, other) && Reordered(SelectionOf(cfg, tick, role), SelectionOf(cfg, other, role))
    ensures RoleEmission(cfg, tick, role, rated) == RoleEmission(cfg, other, role, rated)
  {
    hide SelectionOf, Emitted, IndexFor;
    if SelectionOf(cfg, tick, role).Some? {
      var sel, permuted := SelectionOf(cfg, tick, role).value, SelectionOf(cfg, other, role).value;
      EmissionIgnoresRowOrder(ContextFor(sel, rated, IndexFor(tick.targets), cfg.slugLabel),
                              sel.series, permuted.series, sel.candidate.scale);
    }
  }

  /** In whatever order a peer writes the rows and families of such a scrape, the answer and what is
      remembered for the next tick are the same. */
  lemma AnswerIgnoresRowOrder(cfg: Config, table: Table<string>, tick: Tick, other: Tick)
    requires PermutedTick(tick, other) && OrderFree(cfg, tick)
    ensures Answer(cfg, table, tick) == Answer(cfg, table, other)
    ensures NextTable(cfg, table, tick) == NextTable(cfg, table, other)
  {
    hide SelectionOf, RoleEmission, RatedNow, NextTable, Appended, Unmistakable, OneKindPerName, ConsistentScrape,
         FitsCeiling;
    RatingIgnoresRowOrder(cfg, table, tick, other);
    SelectionIsReordered(cfg, tick, other, Cpu);
    SelectionIsReordered(cfg, tick, other, Memory);
    EmissionIsSame(cfg, tick, other, Cpu, RatedNow(cfg, table, tick));
    EmissionIsSame(cfg, tick, other, Memory, RatedNow(cfg, table, tick));
  }

  /** Over a whole run of such scrapes the order of rows never shows. */
  lemma {:induction false} RunIgnoresRowOrder(cfg: Config, ticks: seq<Tick>, others: seq<Tick>, n: nat)
    requires |ticks| == |others| && n < |ticks|
    requires forall i :: 0 <= i <= n ==> PermutedTick(ticks[i], others[i]) && OrderFree(cfg, ticks[i])
    ensures TableAt(cfg, ticks, n) == TableAt(cfg, others, n)
    ensures Answer(cfg, TableAt(cfg, ticks, n), ticks[n]) == Answer(cfg, TableAt(cfg, others, n), others[n])
  {
    hide Answer, NextTable, PermutedTick, OrderFree;
    if n > 0 {
      RunIgnoresRowOrder(cfg, ticks, others, n - 1);
      AnswerIgnoresRowOrder(cfg, TableAt(cfg, ticks, n - 1), ticks[n - 1], others[n - 1]);
    }
    AnswerIgnoresRowOrder(cfg, TableAt(cfg, ticks, n), ticks[n], others[n]);
  }
}
