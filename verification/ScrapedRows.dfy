/** What in a scrape reaches an answer: the types of its families decide what is rated, and rows of the
    pause container never show (internal/scrape/scrape.go, internal/scrape/resolve.go). */
module ScrapedRows {
  import opened Text
  import opened SeriesIdentity
  import opened Rate
  import opened RowPolicy
  import opened Resolve
  import opened Decode
  import opened Reduce
  import opened Exposition
  import opened ExpositionRuns

  // ---- The type of the winning family ------------------------------------------------------------

  /** The family a selection's kind was taken from. */
  ghost predicate TakenFrom(cfg: Config, tick: Tick, role: Role, f: Family) {
    && SelectionOf(cfg, tick, role).Some?
    && exists name :: TakesFamily(SelectionOf(cfg, tick, role).value, name, tick.fetched.value) && f.name == name
  }

  lemma RowIsDescribed(families: seq<Family>, keep: set<string>, s: Series) returns (f: Family, m: Metric)
    requires s in AdmittedRows(families, keep)
    ensures f in families && Describes(s, f, m)
  {
    hide Describes, Usable, AdmittedRows;
    var ks := AdmittedLocated(families, keep);
    var i :| 0 <= i < |AdmittedRows(families, keep)| && AdmittedRows(families, keep)[i] == s;
    f, m := Flat(families)[ks[i]].0, Flat(families)[ks[i]].1;
    FlatIsOfFamilies(families, ks[i]);
  }

  lemma {:induction false} FlatIsOfFamilies(families: seq<Family>, k: nat)
    requires k < |Flat(families)|
    ensures Flat(families)[k].0 in families
    decreases |families|
  {
    var front := families[..|families| - 1];
    if k < |Flat(front)| {
      FlatIsOfFamilies(front, k);
    }
  }

  /** With distinct family names, a role's selection is a counter exactly when the family it takes is of
      type COUNTER, and CPU is rated exactly then. */
  lemma CounterFamiliesAreRated(cfg: Config, tick: Tick, e: ParsedBody, keep: set<string>, role: Role, f: Family)
    requires DistinctNames(e.families) && tick.fetched == Decoded(e, keep)
    requires f in e.families
    ensures TakenFrom(cfg, tick, role, f) ==>
              && SelectionOf(cfg, tick, role).value.kind == (if f.mtype == CounterType then Counter else Gauge)
              && (role == Cpu ==> (Counters(cfg, tick).Some? <==> f.mtype == CounterType))
  {
    hide Selected, AdmittedRows, Describes, Survives;
    SelectionHasItsRole(cfg, tick, role);
    if TakenFrom(cfg, tick, role, f) {
      var sel := SelectionOf(cfg, tick, role).value;
      var s :| s in tick.fetched.value && s.name == f.name && s.kind == sel.kind;
      var g, m := RowIsDescribed(e.families, keep, s);
      KindOfDescribed(s, g, m);
      SameFamily(e.families, f, g);
    }
  }

  lemma KindOfDescribed(s: Series, f: Family, m: Metric)
    requires Describes(s, f, m)
    ensures s.name == f.name && s.kind == if f.mtype == CounterType then Counter else Gauge
  {
  }

  lemma SameFamily(families: seq<Family>, f: Family, g: Family)
    requires DistinctNames(families) && f in families && g in families && f.name == g.name
    ensures f == g
  {
  }

  // ---- Pause rows --------------------------------------------------------------------------------

  predicate PauseEdit(row: Series, edited: Series) {
    edited == row ||
    (EitherLabel(row.labels, "container", "k8s_container_name") == "POD" && edited == row.(value := edited.value))
  }

  /** The same rows, except for the values of pause rows. */
  ghost predicate PauseEdited(rows: seq<Series>, edited: seq<Series>) {
    |rows| == |edited| && forall i :: 0 <= i < |rows| ==> PauseEdit(rows[i], edited[i])
  }

  lemma EditKeepsLabels(row: Series, edited: Series)
    requires PauseEdit(row, edited)
    ensures edited.name == row.name && edited.labels == row.labels && edited.kind == row.kind
    ensures PodOf(edited) == PodOf(row) && NamespaceOf(edited) == NamespaceOf(row)
    ensures ContainerOf(edited) == ContainerOf(row) && (edited != row ==> IsPause(row))
  {
    hide FirstLabel, EitherLabel;
    LabelsOf(row);
    LabelsOf(edited);
  }

  lemma {:induction false} EditedFirstMatch(c: Candidate, rows: seq<Series>, edited: seq<Series>)
    requires PauseEdited(rows, edited)
    ensures FirstMatch(c, rows) == FirstMatch(c, edited)
    decreases |rows|
  {
    hide PauseEdit, Matches;
    if rows != [] {
      EditedFirstMatch(c, rows[..|rows| - 1], edited[..|edited| - 1]);
      EditKeepsLabels(rows[|rows| - 1], edited[|edited| - 1]);
    }
  }

  lemma {:induction false} EditedFamily(rows: seq<Series>, edited: seq<Series>, name: string)
    requires PauseEdited(rows, edited)
    ensures PauseEdited(OfName(rows, name), OfName(edited, name))
    decreases |rows|
  {
    hide PauseEdit;
    if rows != [] {
      EditedFamily(rows[..|rows| - 1], edited[..|edited| - 1], name);
      EditKeepsLabels(rows[|rows| - 1], edited[|edited| - 1]);
    }
  }

  lemma EditedName(rows: seq<Series>, edited: seq<Series>, name: string)
    requires PauseEdited(rows, edited)
    ensures (exists s :: s in rows && s.name == name) <==> exists s :: s in edited && s.name == name
  {
    hide PauseEdit;
    forall i | 0 <= i < |rows| ensures rows[i].name == edited[i].name {
      EditKeepsLabels(rows[i], edited[i]);
    }
    assert forall i :: 0 <= i < |rows| ==> rows[i] in rows && edited[i] in edited;
  }

  lemma EditedWinner(c: Candidate, rows: seq<Series>, edited: seq<Series>)
    requires PauseEdited(rows, edited)
    ensures Winner(c, rows) == Winner(c, edited)
    ensures PauseEdited(FamilyRows(c, rows), FamilyRows(c, edited))
  {
    hide PauseEdit, FirstMatch, OfName;
    EditedFirstMatch(c, rows, edited);
    EditedName(rows, edited, c.name);
    if Winner(c, rows).Some? {
      EditedFamily(rows, edited, Winner(c, rows).value);
    }
  }

  /** A row that is no pause row is among the edited rows too. */
  lemma OthersStay(rows: seq<Series>, edited: seq<Series>, row: Series)
    requires PauseEdited(rows, edited) && row in rows && !IsPause(row)
    ensures row in edited
  {
    hide PauseEdit, IsPause;
    var i :| 0 <= i < |rows| && rows[i] == row;
    EditKeepsLabels(row, edited[i]);
  }

  lemma EditIsSymmetric(rows: seq<Series>, edited: seq<Series>)
    requires PauseEdited(rows, edited)
    ensures PauseEdited(edited, rows)
  {
  }

  lemma EditedSuperseded(rows: seq<Series>, edited: seq<Series>, row: Series)
    requires PauseEdited(rows, edited) && Superseded(row, Elements(rows))
    ensures Superseded(row, Elements(edited))
  {
    hide PauseEdit, PauseEdited, FirstLabel;
    var c :| c in Elements(rows) && Covers(c, row);
    OthersStay(rows, edited, c);
    assert c in Elements(edited);
  }

  lemma {:induction false} EditedKeep(rows: seq<Series>, edited: seq<Series>, all: set<Series>, all': set<Series>)
    requires PauseEdited(rows, edited)
    requires forall row :: Superseded(row, all) <==> Superseded(row, all')
    ensures Keep(rows, all) == Keep(edited, all')
    decreases |rows|
  {
    hide PauseEdit, Superseded;
    if rows != [] {
      EditedKeep(rows[..|rows| - 1], edited[..|edited| - 1], all, all');
      EditKeepsLabels(rows[|rows| - 1], edited[|edited| - 1]);
    }
  }

  lemma EditedAmbiguous(rows: seq<Series>, edited: seq<Series>, pod: string)
    requires PauseEdited(rows, edited) && AmbiguousPod(pod, Elements(rows))
    ensures pod in AmbiguousPods(Elements(edited))
  {
    hide PauseEdit, PauseEdited, FirstLabel;
    var t :| t in Elements(rows) && IsTotal(t) && NamespaceOf(t) == "" && PodOf(t) == pod;
    var c :| c in Elements(rows) && IsContainer(c) && NamespaceOf(c) != "" && PodOf(c) == pod;
    OthersStay(rows, edited, t);
    OthersStay(rows, edited, c);
    assert t in Elements(edited) && c in Elements(edited);
  }

  /** The row policy answers the same, whatever the pause rows measure. */
  lemma EditedPolicy(rows: seq<Series>, edited: seq<Series>)
    requires PauseEdited(rows, edited)
    ensures SummableRows(rows) == SummableRows(edited)
    ensures AmbiguousPods(Elements(rows)) == AmbiguousPods(Elements(edited))
  {
    hide PauseEdited, Superseded, AmbiguousPod, Keep, FirstLabel;
    EditIsSymmetric(rows, edited);
    forall row ensures Superseded(row, Elements(rows)) <==> Superseded(row, Elements(edited)) {
      if Superseded(row, Elements(rows)) { EditedSuperseded(rows, edited, row); }
      if Superseded(row, Elements(edited)) { EditedSuperseded(edited, rows, row); }
    }
    EditedKeep(rows, edited, Elements(rows), Elements(edited));
    forall pod ensures pod in AmbiguousPods(Elements(rows)) <==> pod in AmbiguousPods(Elements(edited)) {
      if pod in AmbiguousPods(Elements(rows)) { EditedAmbiguous(rows, edited, pod); }
      if pod in AmbiguousPods(Elements(edited)) { EditedAmbiguous(edited, rows, pod); }
    }
  }

  lemma EditedLast(rows: seq<Series>, edited: seq<Series>)
    requires PauseEdited(rows, edited)
    ensures |rows| == |edited| && (rows != [] ==> edited[|edited| - 1].kind == rows[|rows| - 1].kind)
  {
    hide PauseEdit;
    if rows != [] {
      EditKeepsLabels(rows[|rows| - 1], edited[|edited| - 1]);
    }
  }

  lemma {:induction false} EditedSelection(cs: seq<Candidate>, i: nat, role: Role, rows: seq<Series>,
                                           edited: seq<Series>)
    requires i <= |cs| && PauseEdited(rows, edited)
    ensures Selected(cs, i, role, rows) == Selected(cs, i, role, edited)
    decreases |cs| - i
  {
    hide PauseEdit, PauseEdited, FamilyRows, SummableRows, AmbiguousPods;
    if i < |cs| {
      var family, other := FamilyRows(cs[i], rows), FamilyRows(cs[i], edited);
      EditedWinner(cs[i], rows, edited);
      EditedSelection(cs, i + 1, role, rows, edited);
      EditedPolicy(family, other);
      EditedLast(family, other);
    }
  }

  /** The same tick, except for the values of the scrape's pause rows. */
  ghost predicate PauseEditedTick(tick: Tick, other: Tick) {
    if tick.fetched.Err? then other == tick else
    other.fetched.Ok? && other == tick.(fetched := other.fetched)
    && PauseEdited(tick.fetched.value, other.fetched.value)
  }

  lemma PauseRowsNeverShow(cfg: Config, table: Table<string>, tick: Tick, other: Tick)
    requires PauseEditedTick(tick, other)
    ensures Answer(cfg, table, tick) == Answer(cfg, table, other)
    ensures NextTable(cfg, table, tick) == NextTable(cfg, table, other)
    ensures forall role :: ReducedNow(cfg, table, tick, role) == ReducedNow(cfg, table, other, role)
  {
    hide Selected, PauseEdited, EmissionOf, ReducedOf, Observed, RowsOf, Appended;
    if tick.fetched.Ok? {
      EditedSelection(cfg.resolver.Candidates(Cpu), 0, Cpu, tick.fetched.value, other.fetched.value);
      EditedSelection(cfg.resolver.Candidates(Memory), 0, Memory, tick.fetched.value, other.fetched.value);
    }
  }

  /** Over every run, whatever the pause containers measure changes no answer, rate or report. */
  lemma {:induction false} PauseRowsNeverShowInRuns(cfg: Config, ticks: seq<Tick>, others: seq<Tick>, n: nat)
    requires |ticks| == |others| && n < |ticks|
    requires forall i :: 0 <= i <= n ==> PauseEditedTick(ticks[i], others[i])
    ensures TableAt(cfg, ticks, n) == TableAt(cfg, others, n)
    ensures Answer(cfg, TableAt(cfg, ticks, n), ticks[n]) == Answer(cfg, TableAt(cfg, others, n), others[n])
    ensures forall role :: ReducedNow(cfg, TableAt(cfg, ticks, n), ticks[n], role) ==
                           ReducedNow(cfg, TableAt(cfg, others, n), others[n], role)
  {
    hide Answer, NextTable, PauseEditedTick, ReducedNow;
    if n > 0 {
      PauseRowsNeverShowInRuns(cfg, ticks, others, n - 1);
      PauseRowsNeverShow(cfg, TableAt(cfg, ticks, n - 1), ticks[n - 1], others[n - 1]);
    }
    PauseRowsNeverShow(cfg, TableAt(cfg, ticks, n), ticks[n], others[n]);
  }
}
