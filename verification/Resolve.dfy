/** Which exposition family supplies a role (internal/scrape/resolve.go). */
module Resolve {
  import opened Wrappers
  import opened Text
  import opened SeriesIdentity
  import opened MetricNames
  import opened RowPolicy

  datatype Role = Cpu | Memory

  datatype Candidate = Candidate(name: string, scale: real, exact: bool)

  datatype Selection = Selection(candidate: Candidate, role: Role, kind: Kind, series: seq<Series>,
                                 excluded: nat, ambiguous: seq<string>) {
    /** Only cumulative CPU may be differenced into a rate. */
    predicate Rateable() { kind == Counter && role == Cpu }
  }

  const CPU_CANDIDATES := [
    Candidate("k8s_pod_cpu_usage", 1000.0, false),
    Candidate("k8s_pod_cpu_time", 1000.0, false),
    Candidate("container_cpu_usage", 1000.0, false)]
  const MEMORY_CANDIDATES := [
    Candidate("k8s_pod_memory_working_set", 1.0, false),
    Candidate("container_memory_working_set", 1.0, false)]

  /** A candidate's claim on a family name. */
  predicate Matches(c: Candidate, name: string) {
    if c.exact then name == c.name else Base(name) == Base(c.name)
  }

  /** The name of the first matching row. */
  function FirstMatch(c: Candidate, all: seq<Series>): Option<string> {
    if all == [] then None else
    var before, last := FirstMatch(c, all[..|all| - 1]), all[|all| - 1];
    if before.Some? then before else if Matches(c, last.name) then Some(last.name) else None
  }

  /** The candidate's own spelling wins; failing that, the first family that matches. The empty name
      stands for "none" in the source, so it never wins. */
  ghost function Winner(c: Candidate, all: seq<Series>): Option<string> {
    if c.name == "" then None
    else if exists s :: s in all && s.name == c.name then Some(c.name)
    else FirstMatch(c, all)
  }

  function OfName(all: seq<Series>, name: string): seq<Series> {
    if all == [] then [] else
    var before, last := OfName(all[..|all| - 1], name), all[|all| - 1];
    if last.name == name then before + [last] else before
  }

  /** The winning family's rows. */
  ghost function FamilyRows(c: Candidate, all: seq<Series>): seq<Series> {
    match Winner(c, all)
    case None => []
    case Some(name) => OfName(all, name)
  }

  lemma {:induction false} OfNameHolds(all: seq<Series>, name: string)
    ensures forall s :: s in OfName(all, name) <==> s in all && s.name == name
    decreases |all|
  {
    if all != [] {
      OfNameHolds(all[..|all| - 1], name);
      assert all == all[..|all| - 1] + [all[|all| - 1]];
    }
  }

  lemma {:induction false} FirstMatchHolds(c: Candidate, all: seq<Series>)
    ensures FirstMatch(c, all).None? <==> forall s :: s in all ==> !Matches(c, s.name)
    ensures FirstMatch(c, all).Some? ==>
              Matches(c, FirstMatch(c, all).value) && exists s :: s in all && s.name == FirstMatch(c, all).value
    decreases |all|
  {
    hide Matches;
    if all != [] {
      FirstMatchHolds(c, all[..|all| - 1]);
      assert all == all[..|all| - 1] + [all[|all| - 1]];
    }
  }

  /** A family is found exactly when some row matches; it is one family, it matches, every row of it
      is taken, and the candidate's own spelling is preferred over the order families arrive in. */
  lemma FamilyIsOne(c: Candidate, all: seq<Series>)
    requires c.name != ""
    ensures FamilyRows(c, all) == [] <==> forall s :: s in all ==> !Matches(c, s.name)
    ensures Winner(c, all).Some? ==>
              && Matches(c, Winner(c, all).value) && FamilyRows(c, all) != []
              && (forall s :: s in FamilyRows(c, all) <==> s in all && s.name == Winner(c, all).value)
    ensures (exists s :: s in all && s.name == c.name) ==> Winner(c, all) == Some(c.name)
  {
    hide Base;
    FirstMatchHolds(c, all);
    match Winner(c, all)
    case None =>
    case Some(name) => OfNameHolds(all, name);
  }

  lemma OnlyEmptyMatchesEmpty(c: Candidate, name: string)
    requires Matches(c, name) && (name == "" || c.name == "")
    ensures name == c.name == ""
  {
    hide Base;
    var _ := BaseDecomposes(c.name);
    var _ := BaseDecomposes(name);
    EmptyBase();
  }

  lemma EmptyBase()
    ensures Base("") == ""
  {
  }

  method MatchFamily(c: Candidate, all: seq<Series>) returns (matched: seq<Series>, kind: Kind, ok: bool)
    ensures matched == FamilyRows(c, all) && ok == (matched != [])
    ensures kind == if matched == [] then Unsupported else matched[|matched| - 1].kind
  {
    hide Base;
    var winner := FindWinner(c, all);
    matched, kind := [], Unsupported;
    if winner == "" {
      return [], Unsupported, false;
    }
    for i := 0 to |all|
      invariant matched == OfName(all[..i], winner)
      invariant kind == if matched == [] then Unsupported else matched[|matched| - 1].kind
    {
      assert all[..i + 1][..i] == all[..i];
      if all[i].name == winner {
        matched := matched + [all[i]];
        kind := all[i].kind;
      }
    }
    assert all[..|all|] == all;
    ok := |matched| > 0;
  }

  /** Stops at the candidate's own spelling and otherwise remembers the first match. */
  method FindWinner(c: Candidate, all: seq<Series>) returns (winner: string)
    ensures Winner(c, all) == if winner == "" then None else Some(winner)
  {
    hide Base;
    var base := NormalizeName(c.name, UNIT_SUFFIXES);
    winner := "";
    for i := 0 to |all|
      invariant forall j :: 0 <= j < i ==> all[j].name != c.name
      invariant FirstMatch(c, all[..i]) == if winner == "" then None else Some(winner)
    {
      assert all[..i + 1][..i] == all[..i];
      var s := all[i];
      var sBase := NormalizeName(s.name, UNIT_SUFFIXES);
      if (if c.exact then s.name == c.name else sBase == base) {
        OnlyEmptyMatchesEmptyIf(c, s.name);
        if s.name == c.name {
          return s.name;
        }
        if winner == "" {
          winner := s.name;
        }
      }
    }
    assert all[..|all|] == all;
    if c.name == "" {
      FirstMatchHolds(c, all);
      forall s | s in all ensures !Matches(c, s.name) {
        OnlyEmptyMatchesEmptyIf(c, s.name);
      }
    }
  }

  lemma OnlyEmptyMatchesEmptyIf(c: Candidate, name: string)
    ensures Matches(c, name) && (name == "" || c.name == "") ==> name == c.name == ""
  {
    hide Base;
    if Matches(c, name) && (name == "" || c.name == "") {
      OnlyEmptyMatchesEmpty(c, name);
    }
  }

  /** An override names a family exactly and replaces the role's built-in candidates. */
  datatype Resolver = Resolver(cpuOverride: string, memoryOverride: string) {
    function Candidates(role: Role): (cs: seq<Candidate>)
      ensures cs != [] && forall c :: c in cs ==> c.name != ""
    {
      var name, defaults := if role == Memory then memoryOverride else cpuOverride,
                            if role == Memory then MEMORY_CANDIDATES else CPU_CANDIDATES;
      if name != "" then [Candidate(name, defaults[0].scale, true)] else defaults
    }

    /** The base names some role may still select. */
    ghost function Wanted(): set<string> {
      set c | c in Candidates(Cpu) + Candidates(Memory) :: Base(c.name)
    }

    method CandidateNames() returns (keep: set<string>)
      ensures keep == Wanted()
    {
      hide Base, Candidates;
      keep := {};
      var cs := Candidates(Cpu) + Candidates(Memory);
      for i := 0 to |cs|
        invariant keep == set c | c in cs[..i] :: Base(c.name)
      {
        assert cs[..i + 1] == cs[..i] + [cs[i]];
        var base := NormalizeName(cs[i].name, UNIT_SUFFIXES);
        keep := keep + {base};
      }
      assert cs[..|cs|] == cs;
    }

    /** The winning metric for a role with the rows a caller may sum. */
    method Select(role: Role, all: seq<Series>) returns (r: Option<Selection>)
      ensures r == Selected(Candidates(role), 0, role, all)
    {
      hide Candidates, FamilyRows, AmbiguousPods, SummableRows, Base;
      var cs := Candidates(role);
      for i := 0 to |cs|
        invariant Selected(cs, 0, role, all) == Selected(cs, i, role, all)
      {
        var matched, kind, ok := MatchFamily(cs[i], all);
        if ok {
          var rows, excluded, ambiguous := Summable(matched);
          ListingIsUnique(ambiguous, Sorted(AmbiguousPods(Elements(matched))));
          return Some(Selection(cs[i], role, kind, rows, excluded, ambiguous));
        }
      }
      r := None;
    }
  }

  /** The first candidate, from the i-th on, that some row matches. */
  ghost function Selected(cs: seq<Candidate>, i: nat, role: Role, all: seq<Series>): Option<Selection>
    requires i <= |cs|
    decreases |cs| - i
  {
    if i == |cs| then None else
    var rows := FamilyRows(cs[i], all);
    if rows == [] then Selected(cs, i + 1, role, all) else
    Some(Selection(cs[i], role, rows[|rows| - 1].kind, SummableRows(rows), |rows| - |SummableRows(rows)|,
                   Sorted(AmbiguousPods(Elements(rows)))))
  }

  // ---- What is selected, in names and rows -------------------------------------------------------

  /** The candidate that wins, if any: the first with a family. */
  lemma {:induction false} SelectedWhich(cs: seq<Candidate>, i: nat, role: Role, all: seq<Series>) returns (k: nat)
    requires i <= |cs|
    ensures i <= k <= |cs| && forall j :: i <= j < k ==> FamilyRows(cs[j], all) == []
    ensures Selected(cs, i, role, all).None? <==> k == |cs|
    ensures k < |cs| ==>
              var sel, rows := Selected(cs, i, role, all).value, FamilyRows(cs[k], all);
              && rows != [] && sel == Selection(cs[k], role, rows[|rows| - 1].kind, SummableRows(rows),
                                                |rows| - |SummableRows(rows)|, Sorted(AmbiguousPods(Elements(rows))))
    decreases |cs| - i
  {
    hide FamilyRows, SummableRows, AmbiguousPods;
    k := i;
    if i < |cs| && FamilyRows(cs[i], all) == [] {
      k := SelectedWhich(cs, i + 1, role, all);
    }
  }

  /** The selection has the rows of that name that survive the row policy, and the kind of one of them. */
  ghost predicate TakesFamily(sel: Selection, name: string, all: seq<Series>) {
    && (exists s :: s in all && s.name == name && s.kind == sel.kind)
    && (forall s :: s in sel.series <==> s in all && s.name == name && Survives(s, OfName(all, name)))
    && sel.excluded + |sel.series| == |OfName(all, name)|
    && Ascending(sel.ambiguous) && forall pod :: pod in sel.ambiguous <==> MixesShapes(pod, OfName(all, name))
  }

  /** An override selects the family of that very name and nothing else. */
  ghost predicate SelectsOverride(r: Option<Selection>, role: Role, name: string, scale: real, all: seq<Series>) {
    && (r.Some? <==> exists s :: s in all && s.name == name)
    && (r.Some? ==> r.value.role == role && r.value.candidate.scale == scale && TakesFamily(r.value, name, all))
  }

  /** `name` is the family to take for a base: the base itself when some row has it, or else the first
      name in the scrape that normalizes to it. */
  ghost predicate Preferred(name: string, base: string, all: seq<Series>) {
    if exists s :: s in all && s.name == base then name == base else
    exists i :: 0 <= i < |all| && all[i].name == name && Base(name) == base
                && forall j :: 0 <= j < i ==> Base(all[j].name) != base
  }

  /** Without an override the earliest base wins that some row's name normalizes to. */
  ghost predicate SelectsBuiltIn(r: Option<Selection>, role: Role, bases: seq<string>, scale: real, all: seq<Series>) {
    && (r.Some? <==> exists s :: s in all && Base(s.name) in bases)
    && (r.Some? ==>
          && r.value.role == role && r.value.candidate.scale == scale
          && exists k, name :: 0 <= k < |bases| && Preferred(name, bases[k], all) && TakesFamily(r.value, name, all)
                               && forall s, j :: s in all && 0 <= j < k ==> Base(s.name) != bases[j])
  }

  lemma WinnerIsTaken(c: Candidate, all: seq<Series>, sel: Selection)
    requires Winner(c, all).Some? && c.name != ""
    requires var rows := FamilyRows(c, all);
             rows != [] && sel.series == SummableRows(rows) && sel.kind == rows[|rows| - 1].kind
             && sel.excluded == |rows| - |sel.series| && sel.ambiguous == Sorted(AmbiguousPods(Elements(rows)))
    ensures TakesFamily(sel, Winner(c, all).value, all)
  {
    hide Winner, Keep, Survives, MixesShapes, AmbiguousPods;
    var name := Winner(c, all).value;
    var rows := OfName(all, name);
    OfNameHolds(all, name);
    var _ := SummableRowsSurvive(rows);
    assert rows[|rows| - 1] in rows;
    forall pod ensures pod in AmbiguousPods(Elements(rows)) <==> MixesShapes(pod, rows) {
      AmbiguousByLabels(pod, rows);
    }
    assert forall pod :: pod in sel.ambiguous <==> pod in Elements(sel.ambiguous);
  }

  lemma OverrideSelects(name: string, scale: real, role: Role, all: seq<Series>)
    requires name != ""
    ensures SelectsOverride(Selected([Candidate(name, scale, true)], 0, role, all), role, name, scale, all)
  {
    hide TakesFamily, SummableRows, FirstMatch, OfName;
    var c := Candidate(name, scale, true);
    var k := SelectedWhich([c], 0, role, all);
    FamilyIsOne(c, all);
    if k < 1 {
      WinnerIsTaken(c, all, Selected([c], 0, role, all).value);
    }
  }

  lemma {:induction false} FirstMatchIsFirst(c: Candidate, all: seq<Series>)
    requires FirstMatch(c, all).Some?
    ensures exists i :: 0 <= i < |all| && all[i].name == FirstMatch(c, all).value && Matches(c, all[i].name)
                        && forall j :: 0 <= j < i ==> !Matches(c, all[j].name)
    decreases |all|
  {
    hide Matches;
    var front := all[..|all| - 1];
    if FirstMatch(c, front).Some? {
      FirstMatchIsFirst(c, front);
      var i :| 0 <= i < |front| && front[i].name == FirstMatch(c, front).value && Matches(c, front[i].name)
               && forall j :: 0 <= j < i ==> !Matches(c, front[j].name);
      assert all[i] == front[i] && forall j :: 0 <= j < i ==> all[j] == front[j];
    } else {
      FirstMatchHolds(c, front);
      assert forall j :: 0 <= j < |front| ==> all[j] == front[j] && front[j] in front;
    }
  }

  lemma WinnerIsPreferred(c: Candidate, all: seq<Series>)
    requires !c.exact && c.name != "" && Base(c.name) == c.name && Winner(c, all).Some?
    ensures Preferred(Winner(c, all).value, c.name, all)
  {
    hide Base, FirstMatch;
    if !exists s :: s in all && s.name == c.name {
      FirstMatchIsFirst(c, all);
    }
  }

  lemma BuiltInSelects(cs: seq<Candidate>, bases: seq<string>, scale: real, role: Role, all: seq<Series>)
    requires |cs| == |bases|
    requires forall k :: 0 <= k < |cs| ==>
               cs[k] == Candidate(bases[k], scale, false) && bases[k] != "" && Base(bases[k]) == bases[k]
    ensures SelectsBuiltIn(Selected(cs, 0, role, all), role, bases, scale, all)
  {
    hide TakesFamily, Preferred, SummableRows, Base, FamilyRows, Winner;
    var k := SelectedWhich(cs, 0, role, all);
    forall j | 0 <= j < |cs|
      ensures FamilyRows(cs[j], all) == [] <==> forall s :: s in all ==> Base(s.name) != bases[j]
    {
      FamilyIsOne(cs[j], all);
    }
    if k < |cs| {
      FamilyWinner(cs[k], all);
      WinnerIsTaken(cs[k], all, Selected(cs, 0, role, all).value);
      WinnerIsPreferred(cs[k], all);
      var name := Winner(cs[k], all).value;
      assert Preferred(name, bases[k], all);
    }
  }

  lemma FamilyWinner(c: Candidate, all: seq<Series>)
    requires FamilyRows(c, all) != []
    ensures Winner(c, all).Some?
  {
  }

  lemma BuiltInsAreBare(name: string)
    requires name != "" && name[|name| - 1] != 'l' && name[|name| - 1] != 's'
    ensures Base(name) == name
  {
    forall s | s in UNIT_SUFFIXES ensures !Strips(name, s) {
      assert s[|s| - 1] == 'l' || s[|s| - 1] == 's';
    }
    BaseOfBare(name);
  }

  /** CPU is what its own override names, in cores, or else the first of three bases the scrape has. */
  lemma CpuIsSelected(r: Resolver, all: seq<Series>)
    ensures var sel := Selected(r.Candidates(Cpu), 0, Cpu, all);
            if r.cpuOverride != "" then SelectsOverride(sel, Cpu, r.cpuOverride, 1000.0, all)
            else SelectsBuiltIn(sel, Cpu, ["k8s_pod_cpu_usage", "k8s_pod_cpu_time", "container_cpu_usage"], 1000.0, all)
  {
    hide SelectsOverride, SelectsBuiltIn, Selected, Base;
    var bases := ["k8s_pod_cpu_usage", "k8s_pod_cpu_time", "container_cpu_usage"];
    if r.cpuOverride != "" {
      OverrideSelects(r.cpuOverride, 1000.0, Cpu, all);
    } else {
      BuiltInsAreBare(bases[0]);
      BuiltInsAreBare(bases[1]);
      BuiltInsAreBare(bases[2]);
      BuiltInSelects(CPU_CANDIDATES, bases, 1000.0, Cpu, all);
    }
  }

  /** Memory is what its own override names, in bytes, or else the first of two bases the scrape has. */
  lemma MemoryIsSelected(r: Resolver, all: seq<Series>)
    ensures var sel := Selected(r.Candidates(Memory), 0, Memory, all);
            if r.memoryOverride != "" then SelectsOverride(sel, Memory, r.memoryOverride, 1.0, all)
            else SelectsBuiltIn(sel, Memory, ["k8s_pod_memory_working_set", "container_memory_working_set"], 1.0, all)
  {
    hide SelectsOverride, SelectsBuiltIn, Selected, Base;
    var bases := ["k8s_pod_memory_working_set", "container_memory_working_set"];
    if r.memoryOverride != "" {
      OverrideSelects(r.memoryOverride, 1.0, Memory, all);
    } else {
      BuiltInsAreBare(bases[0]);
      BuiltInsAreBare(bases[1]);
      BuiltInSelects(MEMORY_CANDIDATES, bases, 1.0, Memory, all);
    }
  }

  /** The names worth decoding are the bases of what either role could select: its override, or its
      built-in bases. */
  lemma WantedBases(r: Resolver, base: string)
    ensures base in r.Wanted() <==>
              || (if r.cpuOverride != "" then base == Base(r.cpuOverride)
                  else base in ["k8s_pod_cpu_usage", "k8s_pod_cpu_time", "container_cpu_usage"])
              || (if r.memoryOverride != "" then base == Base(r.memoryOverride)
                  else base in ["k8s_pod_memory_working_set", "container_memory_working_set"])
  {
    hide Base;
    BuiltInsAreBare("k8s_pod_cpu_usage");
    BuiltInsAreBare("k8s_pod_cpu_time");
    BuiltInsAreBare("container_cpu_usage");
    BuiltInsAreBare("k8s_pod_memory_working_set");
    BuiltInsAreBare("container_memory_working_set");
    var cpu, memory := r.Candidates(Cpu), r.Candidates(Memory);
    assert forall c :: c in cpu + memory <==> c in cpu || c in memory;
    assert base in r.Wanted() <==> exists c :: (c in cpu || c in memory) && Base(c.name) == base;
    WantedOf(cpu, base);
    WantedOf(memory, base);
  }

  lemma WantedOf(cs: seq<Candidate>, base: string)
    ensures (exists c :: c in cs && Base(c.name) == base) <==> exists k :: 0 <= k < |cs| && Base(cs[k].name) == base
  {
  }

  /** The other role's override does not matter to a role. */
  lemma RolesAreIndependent(r: Resolver, other: string, all: seq<Series>)
    ensures Selected(r.Candidates(Cpu), 0, Cpu, all) ==
            Selected(r.(memoryOverride := other).Candidates(Cpu), 0, Cpu, all)
    ensures Selected(r.Candidates(Memory), 0, Memory, all) ==
            Selected(r.(cpuOverride := other).Candidates(Memory), 0, Memory, all)
  {
  }

  // ---- Filter pushdown ---------------------------------------------------------------------------

  /** The rows whose family base name is wanted. */
  ghost function Narrow(all: seq<Series>, keep: set<string>): seq<Series> {
    if all == [] then [] else
    var before, last := Narrow(all[..|all| - 1], keep), all[|all| - 1];
    if Base(last.name) in keep then before + [last] else before
  }

  lemma {:induction false} NarrowHolds(all: seq<Series>, keep: set<string>)
    ensures forall s :: s in Narrow(all, keep) <==> s in all && Base(s.name) in keep
    decreases |all|
  {
    hide Base;
    if all != [] {
      NarrowHolds(all[..|all| - 1], keep);
      assert all == all[..|all| - 1] + [all[|all| - 1]];
    }
  }

  lemma {:induction false} NarrowKeepsFirstMatch(c: Candidate, all: seq<Series>, keep: set<string>)
    requires Base(c.name) in keep
    ensures FirstMatch(c, Narrow(all, keep)) == FirstMatch(c, all)
    decreases |all|
  {
    hide Base;
    if all != [] {
      var front, last := all[..|all| - 1], all[|all| - 1];
      NarrowKeepsFirstMatch(c, front, keep);
      assert (Narrow(front, keep) + [last])[..|Narrow(front, keep)|] == Narrow(front, keep);
    }
  }

  lemma {:induction false} NarrowKeepsName(all: seq<Series>, keep: set<string>, name: string)
    requires Base(name) in keep
    ensures OfName(Narrow(all, keep), name) == OfName(all, name)
    decreases |all|
  {
    hide Base;
    if all != [] {
      var front, last := all[..|all| - 1], all[|all| - 1];
      NarrowKeepsName(front, keep, name);
      assert (Narrow(front, keep) + [last])[..|Narrow(front, keep)|] == Narrow(front, keep);
    }
  }

  lemma NarrowKeepsFamily(c: Candidate, all: seq<Series>, keep: set<string>)
    requires Base(c.name) in keep
    ensures FamilyRows(c, Narrow(all, keep)) == FamilyRows(c, all)
  {
    hide Base, FirstMatch, OfName, Narrow;
    NarrowHolds(all, keep);
    NarrowKeepsFirstMatch(c, all, keep);
    FirstMatchHolds(c, all);
    assert Winner(c, Narrow(all, keep)) == Winner(c, all);
    if Winner(c, all).Some? {
      NarrowKeepsName(all, keep, Winner(c, all).value);
    }
  }

  lemma {:induction false} NarrowKeepsSelected(cs: seq<Candidate>, i: nat, role: Role, all: seq<Series>,
                                               keep: set<string>)
    requires i <= |cs| && forall c :: c in cs ==> Base(c.name) in keep
    ensures Selected(cs, i, role, Narrow(all, keep)) == Selected(cs, i, role, all)
    decreases |cs| - i
  {
    hide Base, Narrow, FamilyRows, SummableRows, AmbiguousPods;
    if i < |cs| {
      NarrowKeepsFamily(cs[i], all, keep);
      NarrowKeepsSelected(cs, i + 1, role, all, keep);
    }
  }

  /** Selecting from the wanted families only is selecting from everything, for every override and
      both roles. */
  lemma SelectionSurvivesNarrowing(r: Resolver, role: Role, all: seq<Series>)
    ensures Selected(r.Candidates(role), 0, role, Narrow(all, r.Wanted())) == Selected(r.Candidates(role), 0, role, all)
  {
    hide Base, Selected, Narrow;
    forall c | c in r.Candidates(role) ensures Base(c.name) in r.Wanted() {
      assert c in r.Candidates(Cpu) + r.Candidates(Memory);
    }
    NarrowKeepsSelected(r.Candidates(role), 0, role, all, r.Wanted());
  }

  /** Whatever is selected came from one family of the exposition and from rows the policy kept. */
  lemma {:induction false} SelectedRowsAreRows(cs: seq<Candidate>, i: nat, role: Role, all: seq<Series>)
    requires i <= |cs|
    ensures var r := Selected(cs, i, role, all); r.Some? ==>
              && r.value.role == role && (forall s :: s in r.value.series ==> s in all)
    decreases |cs| - i
  {
    hide SummableRows, AmbiguousPods, Winner, OfName;
    if i < |cs| {
      var rows := FamilyRows(cs[i], all);
      if Winner(cs[i], all).Some? {
        OfNameHolds(all, Winner(cs[i], all).value);
      }
      KeepIsSubset(rows);
      SelectedRowsAreRows(cs, i + 1, role, all);
    }
  }
}
