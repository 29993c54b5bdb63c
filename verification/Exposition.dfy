/** The exposition-backed metric source, tick by tick (internal/agent/exposition.go). */
module Exposition {
  import opened Wrappers
  import opened Text
  import opened SeriesIdentity
  import opened Rate
  import opened Resolve
  import opened Decode
  import opened SlugIndex
  import opened Reduce
  import opened WithheldReport

  const DEFAULT_SLUG_LABEL := "zensu_service"

  datatype Config = Config(resolver: Resolver, slugLabel: string, ceiling: nat)

  /** What one heartbeat sees: the answer of the scrape, the services discovered, the clock. */
  datatype Tick = Tick(fetched: Result<seq<Series>, ScrapeError>, targets: seq<Target>, at: int)

  datatype WithheldWarning = WithheldWarning(role: Role, slugs: seq<string>)

  type Samples = map<string, seq<MetricSample>>

  // ---- One tick as a function of the Rater's table -----------------------------------------------

  ghost function SelectionOf(cfg: Config, tick: Tick, role: Role): Option<Selection> {
    if tick.fetched.Err? then None else Selected(cfg.resolver.Candidates(role), 0, role, tick.fetched.value)
  }

  /** The counter rows this tick feeds to the Rater; none when no selection is rateable. */
  ghost function Counters(cfg: Config, tick: Tick): Option<seq<Series>> {
    match SelectionOf(cfg, tick, Cpu)
    case None => None
    case Some(sel) => if sel.Rateable() then Some(sel.series) else None
  }

  ghost function NextTable(cfg: Config, table: Table<string>, tick: Tick): Table<string> {
    match Counters(cfg, tick)
    case None => table
    case Some(series) => Observed(table, cfg.ceiling, RowsOf(series), tick.at).table
  }

  ghost function RatedNow(cfg: Config, table: Table<string>, tick: Tick): map<string, real> {
    match Counters(cfg, tick)
    case None => map[]
    case Some(series) => Observed(table, cfg.ceiling, RowsOf(series), tick.at).rates
  }

  /** The samples a role yields, if it has a selection, given the rates of this tick. */
  ghost function EmissionOf(sel: Option<Selection>, rated: map<string, real>, index: Index,
                            slugLabel: string): map<string, real>
  {
    if sel.None? then map[] else Emission(sel.value, rated, index, slugLabel)
  }

  /** What a role's report is handed, when the role is reduced at all. */
  ghost function ReducedOf(sel: Option<Selection>, rated: map<string, real>, index: Index, slugLabel: string,
                           first: bool): Option<Reduced>
  {
    if sel.None? || Unrateable(sel.value) then None
    else Some(Reduced(Withheld(ContextFor(sel.value, rated, index, slugLabel), sel.value.series), first))
  }

  ghost function RoleEmission(cfg: Config, tick: Tick, role: Role, rated: map<string, real>): map<string, real> {
    EmissionOf(SelectionOf(cfg, tick, role), rated, IndexFor(tick.targets), cfg.slugLabel)
  }

  ghost function Answer(cfg: Config, table: Table<string>, tick: Tick): Result<Samples, ScrapeError> {
    if tick.fetched.Err? then Err(tick.fetched.error) else
    var rated := RatedNow(cfg, table, tick);
    var cpu := Appended(map[], METRIC_CPU_MILLICORES, RoleEmission(cfg, tick, Cpu, rated));
    Ok(Appended(cpu, METRIC_MEMORY_BYTES, RoleEmission(cfg, tick, Memory, rated)))
  }

  ghost function ReducedNow(cfg: Config, table: Table<string>, tick: Tick, role: Role): Option<Reduced> {
    ReducedOf(SelectionOf(cfg, tick, role), RatedNow(cfg, table, tick), IndexFor(tick.targets), cfg.slugLabel,
              |table| == 0)
  }

  ghost function LatchNext(latch: Option<string>, reduced: Option<Reduced>): Option<string> {
    if reduced.None? then latch else Report(latch, reduced.value).latch
  }

  ghost function WarningsNow(latch: Option<string>, reduced: Option<Reduced>, role: Role): seq<WithheldWarning> {
    if reduced.Some? && Report(latch, reduced.value).warned
    then [WithheldWarning(role, Sorted(reduced.value.incomplete))] else []
  }

  lemma SelectionHasItsRole(cfg: Config, tick: Tick, role: Role)
    ensures SelectionOf(cfg, tick, role).Some? ==>
              && SelectionOf(cfg, tick, role).value.role == role
              && (forall s :: s in SelectionOf(cfg, tick, role).value.series ==> s in tick.fetched.value)
  {
    hide Selected;
    if tick.fetched.Ok? {
      SelectedRowsAreRows(cfg.resolver.Candidates(role), 0, role, tick.fetched.value);
    }
  }

  class ExpositionSource {
    const resolver: Resolver
    const slugLabel: string
    const rater: Rater
    var cpuWithheld: Option<string>
    var memoryWithheld: Option<string>
    var warnings: seq<WithheldWarning>

    constructor (resolver: Resolver, slugLabel: string, maxTracked: int)
      ensures Valid() && fresh(rater) && rater.prev == map[]
      ensures Cfg().ceiling == if maxTracked <= 0 then 20_000 else maxTracked
      ensures this.resolver == resolver && this.slugLabel == (if slugLabel == "" then DEFAULT_SLUG_LABEL else slugLabel)
      ensures cpuWithheld == None && memoryWithheld == None && warnings == []
    {
      this.resolver := resolver;
      this.slugLabel := if slugLabel == "" then DEFAULT_SLUG_LABEL else slugLabel;
      rater := new Rater(maxTracked);
      cpuWithheld, memoryWithheld, warnings := None, None, [];
    }

    ghost predicate Valid()
      reads this, rater
    {
      rater.Valid()
    }

    ghost function Cfg(): Config { Config(resolver, slugLabel, rater.Ceiling()) }

    /** One Rater pass over every rateable selection; no rateable selection leaves the Rater alone. */
    method RateCounters(selections: seq<Selection>, at: int) returns (rated: map<string, real>)
      requires Valid()
      modifies rater
      ensures Valid()
      ensures if AnyRateable(selections) then
                rater.prev == Observed(old(rater.prev), rater.Ceiling(), RowsOf(RateableRows(selections)), at).table &&
                rated == Observed(old(rater.prev), rater.Ceiling(), RowsOf(RateableRows(selections)), at).rates
              else rater.prev == old(rater.prev) && rated == map[]
    {
      hide Observed, RowsOf, AnyRateable, RateableRows, Selection.Rateable;
      NothingRateable();
      assert selections[..0] == [];
      var counters: seq<Series>, rateable := [], false;
      for i := 0 to |selections|
        invariant counters == RateableRows(selections[..i])
        invariant rateable <==> AnyRateable(selections[..i])
        invariant rater.prev == old(rater.prev) && Valid()
      {
        assert selections[..i + 1] == selections[..i] + [selections[i]];
        RateableGrow(selections[..i], selections[i]);
        if selections[i].Rateable() {
          rateable := true;
          counters := counters + selections[i].series;
        }
      }
      assert selections[..|selections|] == selections;
      if !rateable {
        return map[];
      }
      rated := rater.Observe(counters, at);
    }

    /** Answers one tick: every service's samples, or the scrape's error. */
    method Samples(tick: Tick) returns (r: Result<Samples, ScrapeError>)
      requires Valid()
      modifies this, rater
      ensures Valid()
      ensures r == Answer(Cfg(), old(rater.prev), tick)
      ensures rater.prev == NextTable(Cfg(), old(rater.prev), tick)
      ensures cpuWithheld == LatchNext(old(cpuWithheld), ReducedNow(Cfg(), old(rater.prev), tick, Cpu))
      ensures memoryWithheld == LatchNext(old(memoryWithheld), ReducedNow(Cfg(), old(rater.prev), tick, Memory))
      ensures warnings == old(warnings)
                          + WarningsNow(old(cpuWithheld), ReducedNow(Cfg(), old(rater.prev), tick, Cpu), Cpu)
                          + WarningsNow(old(memoryWithheld), ReducedNow(Cfg(), old(rater.prev), tick, Memory), Memory)
    {
      hide Observed, RowsOf, Selected, EmissionOf, ReducedOf, LatchNext, WarningsNow, IndexFor, Appended;
      if tick.fetched.Err? {
        NothingSelected(Cfg(), rater.prev, tick, Cpu, cpuWithheld);
        NothingSelected(Cfg(), rater.prev, tick, Memory, memoryWithheld);
        return Err(tick.fetched.error);
      }
      SelectionHasItsRole(Cfg(), tick, Cpu);
      SelectionHasItsRole(Cfg(), tick, Memory);
      var cpu := resolver.Select(Cpu, tick.fetched.value);
      var memory := resolver.Select(Memory, tick.fetched.value);
      var selections := (if cpu.Some? then [cpu.value] else []) + (if memory.Some? then [memory.value] else []);
      OneRateableSelection(Cfg(), tick, selections);
      if selections == [] {
        NothingSelected(Cfg(), rater.prev, tick, Cpu, cpuWithheld);
        NothingSelected(Cfg(), rater.prev, tick, Memory, memoryWithheld);
        return Ok(map[]);
      }
      var index := NewIndex(tick.targets);
      var first := rater.Tracked() == 0;
      var rated := RateCounters(selections, tick.at);
      var out := ReduceRole(map[], Cpu, cpu, rated, index, first);
      out := ReduceRole(out, Memory, memory, rated, index, first);
      r := Ok(out);
    }

    /** Reduces one role's selection, if any, and reports what it withheld unless the role cannot be rated. */
    method ReduceRole(out: Samples, role: Role, selection: Option<Selection>, rated: map<string, real>, index: Index,
                      first: bool)
      returns (out': Samples)
      requires selection.Some? ==> selection.value.role == role
      modifies this
      ensures out' == Appended(out, MetricKeyFor(role), EmissionOf(selection, rated, index, slugLabel))
      ensures var reduced := ReducedOf(selection, rated, index, slugLabel, first);
              && cpuWithheld == (if role == Cpu then LatchNext(old(cpuWithheld), reduced) else old(cpuWithheld))
              && memoryWithheld ==
                 (if role == Memory then LatchNext(old(memoryWithheld), reduced) else old(memoryWithheld))
              && warnings ==
                 old(warnings) +
                 WarningsNow(if role == Memory then old(memoryWithheld) else old(cpuWithheld), reduced, role)
    {
      hide Emission, Withheld, Appended, Report;
      out' := out;
      if selection.None? {
        AppendNothing(out, MetricKeyFor(role));
        return;
      }
      var sel := selection.value;
      var incomplete;
      out', incomplete := Reduce.Reduce(out, sel, rated, index, slugLabel);
      if !Unrateable(sel) {
        var latch, warned, slugs :=
          ReportWithheld(if role == Memory then memoryWithheld else cpuWithheld, incomplete, first);
        if role == Memory { memoryWithheld := latch; } else { cpuWithheld := latch; }
        if warned {
          warnings := warnings + [WithheldWarning(role, slugs)];
        }
      }
    }
  }

  lemma NothingSelected(cfg: Config, table: Table<string>, tick: Tick, role: Role, latch: Option<string>)
    requires SelectionOf(cfg, tick, role).None?
    ensures RoleEmission(cfg, tick, role, RatedNow(cfg, table, tick)) == map[]
            && ReducedNow(cfg, table, tick, role) == None
    ensures LatchNext(latch, None) == latch && WarningsNow(latch, None, role) == []
    ensures Appended(map[], METRIC_CPU_MILLICORES, map[]) == map[] == Appended(map[], METRIC_MEMORY_BYTES, map[])
  {
    AppendNothing(map[], METRIC_CPU_MILLICORES);
    AppendNothing(map[], METRIC_MEMORY_BYTES);
  }

  ghost function RateableRows(selections: seq<Selection>): seq<Series> {
    if selections == [] then [] else
    var sel := selections[|selections| - 1];
    RateableRows(selections[..|selections| - 1]) + if sel.Rateable() then sel.series else []
  }

  ghost predicate AnyRateable(selections: seq<Selection>) { exists sel :: sel in selections && sel.Rateable() }

  lemma NothingRateable()
    ensures RateableRows([]) == [] && !AnyRateable([])
  {
  }

  lemma RateableGrow(selections: seq<Selection>, sel: Selection)
    ensures RateableRows(selections + [sel]) ==
            if sel.Rateable() then RateableRows(selections) + sel.series else RateableRows(selections)
    ensures AnyRateable(selections + [sel]) <==> AnyRateable(selections) || sel.Rateable()
  {
    hide Selection.Rateable;
    assert (selections + [sel])[..|selections|] == selections;
    assert forall s :: s in selections + [sel] <==> s in selections || s == sel;
  }

  /** Of the two roles only CPU can be rateable, so the Rater sees the CPU selection's rows. */
  lemma OneRateableSelection(cfg: Config, tick: Tick, selections: seq<Selection>)
    requires var cpu, memory := SelectionOf(cfg, tick, Cpu), SelectionOf(cfg, tick, Memory);
             selections == (if cpu.Some? then [cpu.value] else []) + (if memory.Some? then [memory.value] else [])
    ensures AnyRateable(selections) <==> Counters(cfg, tick).Some?
    ensures Counters(cfg, tick).Some? ==> RateableRows(selections) == Counters(cfg, tick).value
  {
    hide SelectionOf;
    SelectionHasItsRole(cfg, tick, Cpu);
    SelectionHasItsRole(cfg, tick, Memory);
    var cpu, memory := SelectionOf(cfg, tick, Cpu), SelectionOf(cfg, tick, Memory);
    if cpu.Some? {
      assert cpu.value in selections;
      assert RateableRows([cpu.value]) == if cpu.value.Rateable() then cpu.value.series else [] by {
        assert [cpu.value][..0] == [];
      }
      if memory.Some? {
        assert selections[..1] == [cpu.value];
      }
    }
  }
}
