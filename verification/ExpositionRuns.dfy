/** What whole runs of the exposition source report (internal/agent/exposition.go, internal/scrape/rate.go). */
module ExpositionRuns {
  import opened Wrappers
  import opened Text
  import opened Sums
  import opened SeriesIdentity
  import opened Rate
  import opened Resolve
  import opened Decode
  import opened SlugIndex
  import opened Reduce
  import opened WithheldReport
  import opened Exposition

  /** The Rater's table before the n-th tick of a run. */
  ghost function TableAt(cfg: Config, ticks: seq<Tick>, n: nat): Table<string>
    requires n <= |ticks|
  {
    if n == 0 then map[] else NextTable(cfg, TableAt(cfg, ticks, n - 1), ticks[n - 1])
  }

  /** The samples of a role at the n-th tick of a run. */
  ghost function SamplesAt(cfg: Config, ticks: seq<Tick>, n: nat, role: Role): map<string, real>
    requires n < |ticks|
  {
    RoleEmission(cfg, ticks[n], role, RatedNow(cfg, TableAt(cfg, ticks, n), ticks[n]))
  }

  /** The last tick before the n-th that fed the Rater; failed scrapes and ticks with no rateable
      family do not. Negative when there is none. */
  ghost function LastRateable(cfg: Config, ticks: seq<Tick>, n: nat): (k: int)
    requires n <= |ticks|
    ensures k < n && (k >= 0 ==> Counters(cfg, ticks[k]).Some?)
  {
    if n == 0 then -1 else if Counters(cfg, ticks[n - 1]).Some? then n - 1 else LastRateable(cfg, ticks, n - 1)
  }

  /** Two rows of a scrape that are the same series carry the same value. */
  predicate Consistent(s: Series, t: Series) { s.name == t.name && s.labels == t.labels ==> s.value == t.value }

  /** The text format allows each name and label combination once per scrape. */
  ghost predicate ConsistentScrape(tick: Tick) {
    tick.fetched.Ok? ==>
      forall s, t {:trigger Consistent(s, t)} :: s in tick.fetched.value && t in tick.fetched.value ==> Consistent(s, t)
  }

  ghost predicate ConsistentRun(ticks: seq<Tick>) { forall i :: 0 <= i < |ticks| ==> ConsistentScrape(ticks[i]) }

  /** The tick's counter series fit under the tracking ceiling. */
  ghost predicate FitsCeiling(cfg: Config, tick: Tick) {
    Counters(cfg, tick).Some? ==> |Fingerprints(RowsOf(Counters(cfg, tick).value))| <= cfg.ceiling
  }

  ghost function SnapshotOf(cfg: Config, tick: Tick): Table<string>
    requires Counters(cfg, tick).Some?
  {
    Snapshot(RowsOf(Counters(cfg, tick).value), tick.at)
  }

  /** The reference with no ceiling: the difference against the last tick that fed the Rater. */
  ghost function ReferenceRated(cfg: Config, ticks: seq<Tick>, n: nat): map<string, real>
    requires n < |ticks|
  {
    var k := LastRateable(cfg, ticks, n);
    if k < 0 || Counters(cfg, ticks[n]).None? then map[] else
    Differences(SnapshotOf(cfg, ticks[k]), SnapshotOf(cfg, ticks[n]))
  }

  ghost function ReferenceSamples(cfg: Config, ticks: seq<Tick>, n: nat, role: Role): map<string, real>
    requires n < |ticks|
  {
    RoleEmission(cfg, ticks[n], role, ReferenceRated(cfg, ticks, n))
  }

  lemma CountersWereFetched(cfg: Config, tick: Tick)
    requires Counters(cfg, tick).Some?
    ensures tick.fetched.Ok? && forall s :: s in Counters(cfg, tick).value ==> s in tick.fetched.value
  {
    hide Selected;
    SelectionHasItsRole(cfg, tick, Cpu);
  }

  lemma RowsOfMember(series: seq<Series>, r: Row<string>)
    requires r in RowsOf(series)
    ensures exists s :: s in series && r.fp == FingerprintOf(s) && r.value == s.value
  {
    hide FingerprintOf;
    var i :| 0 <= i < |series| && RowsOf(series)[i] == r;
    assert series[i] in series;
  }

  lemma CountersAreCoherent(cfg: Config, tick: Tick)
    requires Counters(cfg, tick).Some? && ConsistentScrape(tick)
    ensures Coherent(RowsOf(Counters(cfg, tick).value))
  {
    hide Counters, RowsOf, FingerprintOf;
    var series := Counters(cfg, tick).value;
    CountersWereFetched(cfg, tick);
    forall r, s | r in RowsOf(series) && s in RowsOf(series) ensures Agree(r, s) {
      RowsOfMember(series, r);
      RowsOfMember(series, s);
      var a :| a in series && r.fp == FingerprintOf(a) && r.value == a.value;
      var b :| b in series && s.fp == FingerprintOf(b) && s.value == b.value;
      FingerprintIdentifies(a, b);
      assert Consistent(a, b);
    }
  }

  /** The Rater remembers the last tick that fed it, cut to the ceiling. */
  lemma {:induction false} TableFollowsLastRateable(cfg: Config, ticks: seq<Tick>, n: nat)
    requires n <= |ticks| && ConsistentRun(ticks)
    ensures var k := LastRateable(cfg, ticks, n);
            && (k < 0 ==> TableAt(cfg, ticks, n) == map[])
            && (k >= 0 ==> SubMap(TableAt(cfg, ticks, n), SnapshotOf(cfg, ticks[k])))
            && (k >= 0 && FitsCeiling(cfg, ticks[k]) ==> TableAt(cfg, ticks, n) == SnapshotOf(cfg, ticks[k]))
  {
    hide Counters, Observed, Snapshot, RowsOf, Fingerprints, Coherent;
    if n > 0 {
      var tick := ticks[n - 1];
      if Counters(cfg, tick).Some? {
        CountersAreCoherent(cfg, tick);
        ObservedIsDifference(TableAt(cfg, ticks, n - 1), cfg.ceiling, RowsOf(Counters(cfg, tick).value), tick.at);
      } else {
        TableFollowsLastRateable(cfg, ticks, n - 1);
      }
    }
  }

  lemma RatesStayWithinReference(cfg: Config, ticks: seq<Tick>, n: nat)
    requires n < |ticks| && ConsistentRun(ticks)
    ensures SubMap(RatedNow(cfg, TableAt(cfg, ticks, n), ticks[n]), ReferenceRated(cfg, ticks, n))
    ensures var k := LastRateable(cfg, ticks, n);
            (k >= 0 ==> FitsCeiling(cfg, ticks[k])) && FitsCeiling(cfg, ticks[n]) ==>
              RatedNow(cfg, TableAt(cfg, ticks, n), ticks[n]) == ReferenceRated(cfg, ticks, n)
  {
    hide Counters, Observed, Snapshot, RowsOf, Fingerprints, Coherent, Differences, TableAt;
    var tick, table, k := ticks[n], TableAt(cfg, ticks, n), LastRateable(cfg, ticks, n);
    TableFollowsLastRateable(cfg, ticks, n);
    if Counters(cfg, tick).Some? {
      var rows := RowsOf(Counters(cfg, tick).value);
      CountersAreCoherent(cfg, tick);
      ObservedIsDifference(table, cfg.ceiling, rows, tick.at);
      NothingBefore(Observed(table, cfg.ceiling, rows, tick.at).table);
      if k >= 0 {
        DifferencesAreMonotone(table, Observed(table, cfg.ceiling, rows, tick.at).table, SnapshotOf(cfg, ticks[k]),
                               SnapshotOf(cfg, tick));
      }
    }
  }

  /** Over every run and under any ceiling, a service's sample is absent or the one an unbounded
      Rater would have produced. */
  lemma CeilingNeverFalsifiesSamples(cfg: Config, ticks: seq<Tick>, n: nat, role: Role)
    requires n < |ticks| && ConsistentRun(ticks)
    ensures SubMap(SamplesAt(cfg, ticks, n, role), ReferenceSamples(cfg, ticks, n, role))
  {
    hide SelectionOf, RatedNow, ReferenceRated, TableAt, Emitted, IndexFor, Unrateable;
    RatesStayWithinReference(cfg, ticks, n);
    forall slug | slug in SamplesAt(cfg, ticks, n, role)
      ensures slug in ReferenceSamples(cfg, ticks, n, role)
      ensures ReferenceSamples(cfg, ticks, n, role)[slug] == SamplesAt(cfg, ticks, n, role)[slug]
    {
      var sel := SelectionOf(cfg, ticks[n], role).value;
      var rated := RatedNow(cfg, TableAt(cfg, ticks, n), ticks[n]);
      var index := IndexFor(ticks[n].targets);
      FewerRatesNeverFalsify(ContextFor(sel, rated, index, cfg.slugLabel),
                             ContextFor(sel, ReferenceRated(cfg, ticks, n), index, cfg.slugLabel),
                             sel.series, sel.candidate.scale, slug);
    }
  }

  /** While the scrapes that feed the Rater fit the ceiling, the source is the reference. */
  lemma FittingRunIsReference(cfg: Config, ticks: seq<Tick>, n: nat, role: Role)
    requires n < |ticks| && ConsistentRun(ticks)
    requires LastRateable(cfg, ticks, n) >= 0 ==> FitsCeiling(cfg, ticks[LastRateable(cfg, ticks, n)])
    requires FitsCeiling(cfg, ticks[n])
    ensures SamplesAt(cfg, ticks, n, role) == ReferenceSamples(cfg, ticks, n, role)
  {
    hide RoleEmission, RatedNow, ReferenceRated, TableAt;
    RatesStayWithinReference(cfg, ticks, n);
  }

  // ---- What the reference is, in terms of the rows themselves ------------------------------------

  predicate SameSeries(p: Series, row: Series) { p.name == row.name && p.labels == row.labels }

  /** The series was there before, with a value no higher than now. */
  ghost predicate HasPredecessor(before: seq<Series>, row: Series) {
    exists p :: p in before && SameSeries(p, row) && p.value <= row.value
  }

  /** How far the counter of a row rose since `before`. */
  ghost function Rise(before: seq<Series>, row: Series): real {
    if HasPredecessor(before, row) then
      var p :| p in before && SameSeries(p, row) && p.value <= row.value;
      row.value - p.value
    else 0.0
  }

  /** What a row contributes to the rise of a service's counters. */
  ghost function RiseFor(before: seq<Series>, targets: seq<Target>, slugLabel: string, slug: string): Series -> real {
    row => if BelongsTo(targets, row, slugLabel, slug) then Rise(before, row) else 0.0
  }

  lemma {:induction false} SnapshotHolds(series: seq<Series>, at: int, row: Series)
    requires row in series && Coherent(RowsOf(series))
    ensures FingerprintOf(row) in Snapshot(RowsOf(series), at)
    ensures Snapshot(RowsOf(series), at)[FingerprintOf(row)] == Observation(row.value, at)
  {
    hide FingerprintOf;
    var rows := RowsOf(series);
    var i :| 0 <= i < |series| && series[i] == row;
    assert rows[i] == Row(FingerprintOf(row), row.value);
    FingerprintsAre(rows, |rows|);
    assert Agree(rows[i], RowNaming(rows, FingerprintOf(row)));
  }

  lemma SnapshotNames(series: seq<Series>, at: int, fp: string) returns (s: Series)
    requires fp in Snapshot(RowsOf(series), at)
    ensures s in series && FingerprintOf(s) == fp
  {
    hide FingerprintOf, RowsOf;
    RowsOfMember(series, RowNaming(RowsOf(series), fp));
    s :| s in series && FingerprintOf(s) == fp;
  }

  /** A row rates exactly when the clock advanced and its series has a predecessor; the rate is the
      rise over the time elapsed. */
  lemma RowRate(before: seq<Series>, now: seq<Series>, t0: int, t1: int, row: Series)
    requires Coherent(RowsOf(before)) && Coherent(RowsOf(now)) && row in now
    ensures var rated, fp := Differences(Snapshot(RowsOf(before), t0), Snapshot(RowsOf(now), t1)), FingerprintOf(row);
            && (fp in rated <==> t0 < t1 && HasPredecessor(before, row))
            && (fp in rated ==> Elapsed(t0, t1) > 0.0 && rated[fp] == Rise(before, row) / Elapsed(t0, t1))
  {
    hide FingerprintOf, RowsOf, Snapshot, Coherent;
    var fp, old0 := FingerprintOf(row), Snapshot(RowsOf(before), t0);
    SnapshotHolds(now, t1, row);
    if fp in old0 {
      var p := SnapshotNames(before, t0, fp);
      FingerprintIdentifies(p, row);
      SnapshotHolds(before, t0, p);
      assert SameSeries(p, row);
    }
    forall p | p in before && SameSeries(p, row) ensures fp in old0 && old0[fp] == Observation(p.value, t0) {
      FingerprintIdentifies(p, row);
      SnapshotHolds(before, t0, p);
    }
  }

  /** A service is due a rate: the clock advanced, it owns a row, and every row it owns was there
      before with a value no higher than now. */
  ghost predicate Due(before: seq<Series>, t0: int, rows: seq<Series>, t1: int, targets: seq<Target>,
                      slugLabel: string, slug: string)
  {
    && t0 < t1
    && (exists row :: row in rows && BelongsTo(targets, row, slugLabel, slug))
    && (forall row :: row in rows && BelongsTo(targets, row, slugLabel, slug) ==> HasPredecessor(before, row))
  }

  /** Clock readings are nanoseconds. */
  function Seconds(t0: int, t1: int): real { (t1 - t0) as real / 1_000_000_000.0 }

  /** The scaled sum of the rises of a service's counters over the seconds elapsed. */
  ghost function RateOver(before: seq<Series>, t0: int, rows: seq<Series>, t1: int, targets: seq<Target>,
                          slugLabel: string, slug: string, scale: real): real
    requires t0 < t1
  {
    SumOf(rows, RiseFor(before, targets, slugLabel, slug)) / Seconds(t0, t1) * scale
  }

  /** This tick rates CPU counters, and the service is due a rate against the last tick that fed the Rater. */
  ghost predicate RateIsDue(cfg: Config, ticks: seq<Tick>, n: nat, slug: string)
    requires n < |ticks|
  {
    var k := LastRateable(cfg, ticks, n);
    Counters(cfg, ticks[n]).Some? && k >= 0 &&
    Due(Counters(cfg, ticks[k]).value, ticks[k].at, Counters(cfg, ticks[n]).value, ticks[n].at,
        ticks[n].targets, cfg.slugLabel, slug)
  }

  /** What is due: zero stands for "nothing", when no earlier tick fed the Rater or the clock stood still. */
  ghost function ExpectedRate(cfg: Config, ticks: seq<Tick>, n: nat, slug: string): real
    requires n < |ticks|
  {
    var k := LastRateable(cfg, ticks, n);
    if Counters(cfg, ticks[n]).None? || k < 0 || ticks[k].at >= ticks[n].at then 0.0 else
    RateOver(Counters(cfg, ticks[k]).value, ticks[k].at, Counters(cfg, ticks[n]).value, ticks[n].at,
             ticks[n].targets, cfg.slugLabel, slug, SelectionOf(cfg, ticks[n], Cpu).value.candidate.scale)
  }

  lemma OwnersAreBelonging(ctx: Context, targets: seq<Target>, rows: seq<Series>, slug: string)
    requires ctx.index == IndexFor(targets) && SeparatorFree(targets)
    ensures forall row :: row in rows ==>
              (ctx.Owner(row) == Some(slug) <==> BelongsTo(targets, row, ctx.slugLabel, slug))
  {
    hide IndexFor, BelongsTo, SeparatorFree;
    forall row | row in rows ensures ctx.Owner(row) == Some(slug) <==> BelongsTo(targets, row, ctx.slugLabel, slug) {
      ResolveDecidesBelonging(targets, row, ctx.slugLabel, slug);
    }
  }

  lemma NoRatesNoSamples(ctx: Context, rows: seq<Series>, scale: real, slug: string)
    requires ctx.rateable && ctx.rated == map[]
    ensures slug !in Emitted(ctx, rows, scale)
  {
    hide IsFinite, Index.Resolve;
    EmittedIsAllOrNothing(ctx, rows, scale, slug);
  }

  /** The reduction of rated rows, in terms of rises. */
  lemma EmittedRise(ctx: Context, targets: seq<Target>, before: seq<Series>, rows: seq<Series>, t0: int, t1: int,
                    scale: real, slug: string)
    requires ctx.index == IndexFor(targets) && SeparatorFree(targets) && ctx.rateable
    requires Coherent(RowsOf(before)) && Coherent(RowsOf(rows))
    requires ctx.rated == Differences(Snapshot(RowsOf(before), t0), Snapshot(RowsOf(rows), t1))
    ensures slug in Emitted(ctx, rows, scale) <==>
              Due(before, t0, rows, t1, targets, ctx.slugLabel, slug) &&
              IsFinite(RateOver(before, t0, rows, t1, targets, ctx.slugLabel, slug, scale))
    ensures slug in Emitted(ctx, rows, scale) ==>
              Emitted(ctx, rows, scale)[slug] == RateOver(before, t0, rows, t1, targets, ctx.slugLabel, slug, scale)
  {
    hide IndexFor, BelongsTo, SeparatorFree, Index.Resolve, Differences, Snapshot, RowsOf, FingerprintOf, IsFinite,
         HasPredecessor, Rise, Coherent;
    OwnersAreBelonging(ctx, targets, rows, slug);
    EmittedIsAllOrNothing(ctx, rows, scale, slug);
    forall row | row in rows
      ensures ctx.Reading(row).Some? <==> t0 < t1 && HasPredecessor(before, row)
      ensures ctx.Reading(row).Some? ==>
              Elapsed(t0, t1) > 0.0 && ctx.Reading(row).value == Rise(before, row) / Elapsed(t0, t1)
    {
      RowRate(before, rows, t0, t1, row);
    }
    if Due(before, t0, rows, t1, targets, ctx.slugLabel, slug) {
      SumDivides(rows, RiseFor(before, targets, ctx.slugLabel, slug), ctx.Share(slug), Elapsed(t0, t1));
      assert Scaled(ctx, rows, slug, scale) == RateOver(before, t0, rows, t1, targets, ctx.slugLabel, slug, scale);
    }
  }

  /** Over every run whose rateable scrapes fit the ceiling, a service gets a counter-based CPU sample
      exactly when a rate is due to it and is finite, and the sample is the expected one. What lies
      between the two rateable ticks, failed scrapes or ticks without the family, does not matter. */
  lemma CpuSampleIsTheIncrease(cfg: Config, ticks: seq<Tick>, n: nat, slug: string)
    requires n < |ticks| && ConsistentRun(ticks) && SeparatorFree(ticks[n].targets)
    requires LastRateable(cfg, ticks, n) >= 0 ==> FitsCeiling(cfg, ticks[LastRateable(cfg, ticks, n)])
    requires FitsCeiling(cfg, ticks[n])
    ensures Counters(cfg, ticks[n]).Some? ==>
              (slug in SamplesAt(cfg, ticks, n, Cpu) <==>
                 RateIsDue(cfg, ticks, n, slug) && IsFinite(ExpectedRate(cfg, ticks, n, slug)))
    ensures Counters(cfg, ticks[n]).Some? && slug in SamplesAt(cfg, ticks, n, Cpu) ==>
              SamplesAt(cfg, ticks, n, Cpu)[slug] == ExpectedRate(cfg, ticks, n, slug)
  {
    hide SelectionOf, TableAt, RatedNow, Emitted, BelongsTo, HasPredecessor, Rise, RiseFor, Differences, Snapshot,
         RowsOf, IsFinite, IndexFor, SeparatorFree, Coherent, ConsistentRun, RateOver;
    FittingRunIsReference(cfg, ticks, n, Cpu);
    if Counters(cfg, ticks[n]).Some? {
      var k, sel := LastRateable(cfg, ticks, n), SelectionOf(cfg, ticks[n], Cpu).value;
      var ctx := ContextFor(sel, ReferenceRated(cfg, ticks, n), IndexFor(ticks[n].targets), cfg.slugLabel);
      if k < 0 {
        NoRatesNoSamples(ctx, sel.series, sel.candidate.scale, slug);
      } else {
        ConsistentAt(ticks, k);
        ConsistentAt(ticks, n);
        CountersAreCoherent(cfg, ticks[k]);
        CountersAreCoherent(cfg, ticks[n]);
        EmittedRise(ctx, ticks[n].targets, Counters(cfg, ticks[k]).value, sel.series, ticks[k].at, ticks[n].at,
                    sel.candidate.scale, slug);
      }
    }
  }

  /** The row's series has a rate this tick: an earlier tick fed the Rater, the clock advanced since, and the
      series was there with a value no higher. */
  ghost predicate HasRate(cfg: Config, ticks: seq<Tick>, n: nat, row: Series)
    requires n < |ticks|
  {
    var k := LastRateable(cfg, ticks, n);
    k >= 0 && ticks[k].at < ticks[n].at && HasPredecessor(Counters(cfg, ticks[k]).value, row)
  }

  lemma WithheldByBelonging(ctx: Context, targets: seq<Target>, rows: seq<Series>, slug: string)
    requires ctx.index == IndexFor(targets) && SeparatorFree(targets)
    ensures slug in Withheld(ctx, rows) <==>
              exists row :: row in rows && BelongsTo(targets, row, ctx.slugLabel, slug) && ctx.Reading(row).None?
  {
    hide IndexFor, BelongsTo, SeparatorFree, Context.Owner, Context.Reading;
    OwnersAreBelonging(ctx, targets, rows, slug);
    assert slug in Withheld(ctx, rows) <==>
           exists row :: row in rows && ctx.Owner(row) == Some(slug) && ctx.Reading(row).None?;
  }

  /** Over every run whose rateable scrapes fit the ceiling, the services a counter-based CPU report withholds
      are exactly those owning a row whose series has no rate; a gauge withholds nobody. */
  lemma WithheldAreTheUnrated(cfg: Config, ticks: seq<Tick>, n: nat, role: Role, slug: string)
    requires n < |ticks| && ConsistentRun(ticks) && SeparatorFree(ticks[n].targets)
    requires LastRateable(cfg, ticks, n) >= 0 ==> FitsCeiling(cfg, ticks[LastRateable(cfg, ticks, n)])
    requires FitsCeiling(cfg, ticks[n])
    ensures var sel := SelectionOf(cfg, ticks[n], role);
            var reduced := ReducedNow(cfg, TableAt(cfg, ticks, n), ticks[n], role);
            && (reduced.Some? <==> sel.Some? && !(role == Memory && sel.value.kind == Counter))
            && (reduced.Some? ==>
                  (slug in reduced.value.incomplete <==>
                     sel.value.kind == Counter &&
                     exists row :: row in sel.value.series && BelongsTo(ticks[n].targets, row, cfg.slugLabel, slug)
                                   && !HasRate(cfg, ticks, n, row)))
  {
    hide SelectionOf, TableAt, RatedNow, Withheld, BelongsTo, HasPredecessor, Differences, Snapshot, RowsOf,
         FingerprintOf, IndexFor, SeparatorFree, Coherent, ConsistentRun, FitsCeiling, Rise;
    SelectionHasItsRole(cfg, ticks[n], role);
    if SelectionOf(cfg, ticks[n], role).Some? && !Unrateable(SelectionOf(cfg, ticks[n], role).value) {
      var sel := SelectionOf(cfg, ticks[n], role).value;
      var ctx := ContextFor(sel, RatedNow(cfg, TableAt(cfg, ticks, n), ticks[n]), IndexFor(ticks[n].targets),
                            cfg.slugLabel);
      WithheldByBelonging(ctx, ticks[n].targets, sel.series, slug);
      if sel.Rateable() {
        forall row | row in sel.series ensures ctx.Reading(row).Some? <==> HasRate(cfg, ticks, n, row) {
          RatedExactly(cfg, ticks, n, row);
        }
      }
    }
  }

  lemma RatedExactly(cfg: Config, ticks: seq<Tick>, n: nat, row: Series)
    requires n < |ticks| && ConsistentRun(ticks)
    requires Counters(cfg, ticks[n]).Some? && row in Counters(cfg, ticks[n]).value
    requires LastRateable(cfg, ticks, n) >= 0 ==> FitsCeiling(cfg, ticks[LastRateable(cfg, ticks, n)])
    requires FitsCeiling(cfg, ticks[n])
    ensures FingerprintOf(row) in RatedNow(cfg, TableAt(cfg, ticks, n), ticks[n]) <==> HasRate(cfg, ticks, n, row)
  {
    hide Counters, TableAt, RatedNow, HasPredecessor, Differences, Snapshot, RowsOf, FingerprintOf, Coherent,
         ConsistentRun, FitsCeiling, Rise;
    RatesStayWithinReference(cfg, ticks, n);
    var k := LastRateable(cfg, ticks, n);
    if k >= 0 {
      ConsistentAt(ticks, k);
      ConsistentAt(ticks, n);
      CountersAreCoherent(cfg, ticks[k]);
      CountersAreCoherent(cfg, ticks[n]);
      RowRate(Counters(cfg, ticks[k]).value, Counters(cfg, ticks[n]).value, ticks[k].at, ticks[n].at, row);
    }
  }

  lemma ConsistentAt(ticks: seq<Tick>, i: nat)
    requires ConsistentRun(ticks) && i < |ticks|
    ensures ConsistentScrape(ticks[i])
  {
  }

  ghost function ValueFor(targets: seq<Target>, slugLabel: string, slug: string): Series -> real {
    row => if BelongsTo(targets, row, slugLabel, slug) then row.value else 0.0
  }

  /** The scaled sum of the rows that belong to a service. */
  ghost function ValueNow(rows: seq<Series>, targets: seq<Target>, slugLabel: string, slug: string, scale: real): real {
    SumOf(rows, ValueFor(targets, slugLabel, slug)) * scale
  }

  lemma EmittedValue(ctx: Context, targets: seq<Target>, rows: seq<Series>, scale: real, slug: string)
    requires ctx.index == IndexFor(targets) && SeparatorFree(targets) && !ctx.rateable
    ensures slug in Emitted(ctx, rows, scale) <==>
              (exists row :: row in rows && BelongsTo(targets, row, ctx.slugLabel, slug)) &&
              IsFinite(ValueNow(rows, targets, ctx.slugLabel, slug, scale))
    ensures slug in Emitted(ctx, rows, scale) ==>
              Emitted(ctx, rows, scale)[slug] == ValueNow(rows, targets, ctx.slugLabel, slug, scale)
  {
    hide IndexFor, BelongsTo, SeparatorFree, Index.Resolve, FingerprintOf, IsFinite;
    OwnersAreBelonging(ctx, targets, rows, slug);
    EmittedIsAllOrNothing(ctx, rows, scale, slug);
    SumAgrees(rows, ctx.Share(slug), ValueFor(targets, ctx.slugLabel, slug));
    assert Scaled(ctx, rows, slug, scale) == ValueNow(rows, targets, ctx.slugLabel, slug, scale);
  }

  /** A gauge needs no history: a service's sample is the scaled sum of the rows that belong to it. */
  lemma GaugeSampleIsTheSum(cfg: Config, ticks: seq<Tick>, n: nat, role: Role, slug: string)
    requires n < |ticks| && SelectionOf(cfg, ticks[n], role).Some?
             && SelectionOf(cfg, ticks[n], role).value.kind != Counter
    requires SeparatorFree(ticks[n].targets)
    ensures var sel, targets := SelectionOf(cfg, ticks[n], role).value, ticks[n].targets;
            var value := ValueNow(sel.series, targets, cfg.slugLabel, slug, sel.candidate.scale);
            && (slug in SamplesAt(cfg, ticks, n, role) <==>
                  (exists row :: row in sel.series && BelongsTo(targets, row, cfg.slugLabel, slug)) && IsFinite(value))
            && (slug in SamplesAt(cfg, ticks, n, role) ==> SamplesAt(cfg, ticks, n, role)[slug] == value)
  {
    hide SelectionOf, TableAt, RatedNow, BelongsTo, IndexFor, SeparatorFree, IsFinite, ValueNow, Emitted;
    var sel := SelectionOf(cfg, ticks[n], role).value;
    var ctx := ContextFor(sel, RatedNow(cfg, TableAt(cfg, ticks, n), ticks[n]), IndexFor(ticks[n].targets),
                          cfg.slugLabel);
    EmittedValue(ctx, ticks[n].targets, sel.series, sel.candidate.scale, slug);
  }

  /** A cumulative counter that is not CPU is never rated and never summed as if it were a gauge. */
  lemma OnlyCpuCountersAreRated(cfg: Config, ticks: seq<Tick>, n: nat, role: Role)
    requires n < |ticks| && SelectionOf(cfg, ticks[n], role).Some?
             && SelectionOf(cfg, ticks[n], role).value.kind == Counter
    ensures role == Memory ==>
              SamplesAt(cfg, ticks, n, role) == map[] && ReducedNow(cfg, TableAt(cfg, ticks, n), ticks[n], role) == None
    ensures role == Cpu ==> Counters(cfg, ticks[n]) == Some(SelectionOf(cfg, ticks[n], role).value.series)
  {
    hide Selected, TableAt, RatedNow, Emitted;
    SelectionHasItsRole(cfg, ticks[n], role);
  }

  /** No sample is larger than the largest float64, on either side. */
  lemma SamplesAreFinite(cfg: Config, ticks: seq<Tick>, n: nat, role: Role, slug: string)
    requires n < |ticks|
    ensures slug in SamplesAt(cfg, ticks, n, role) ==>
              -MAX_FLOAT64 <= SamplesAt(cfg, ticks, n, role)[slug] <= MAX_FLOAT64
  {
    hide SelectionOf, RatedNow, TableAt, Contributed, Withheld, Scaled, IndexFor;
  }

  /** A failed scrape fails the answer with its own error, and leaves the Rater and both reports alone. */
  lemma FailedScrapeIsPassedOn(cfg: Config, table: Table<string>, tick: Tick)
    ensures Answer(cfg, table, tick).Ok? <==> tick.fetched.Ok?
    ensures tick.fetched.Err? ==>
              && Answer(cfg, table, tick).error == tick.fetched.error && NextTable(cfg, table, tick) == table
              && forall role :: ReducedNow(cfg, table, tick, role) == None
  {
  }

  // ---- The shape of an answer --------------------------------------------------------------------

  ghost function Sampled(em: map<string, real>, key: string, slug: string): seq<MetricSample> {
    if slug in em then [MetricSample(key, em[slug])] else []
  }

  /** An answer names target services only, and gives each at most one sample per key: CPU, then memory. */
  lemma AnswerReportsTargetsOncePerKey(cfg: Config, table: Table<string>, tick: Tick, slug: string)
    requires tick.fetched.Ok?
    ensures var samples, rated := Answer(cfg, table, tick).value, RatedNow(cfg, table, tick);
            slug in samples ==>
              && (exists t :: t in tick.targets && t.slug == slug)
              && samples[slug] == Sampled(RoleEmission(cfg, tick, Cpu, rated), METRIC_CPU_MILLICORES, slug) +
                                  Sampled(RoleEmission(cfg, tick, Memory, rated), METRIC_MEMORY_BYTES, slug)
              && samples[slug] != []
  {
    hide SelectionOf, RatedNow, IndexFor, BelongsTo, Emission, RoleEmission;
    var rated := RatedNow(cfg, table, tick);
    EmittedSlugIsATargets(cfg, tick, Cpu, rated, slug);
    EmittedSlugIsATargets(cfg, tick, Memory, rated, slug);
  }

  lemma EmittedSlugIsATargets(cfg: Config, tick: Tick, role: Role, rated: map<string, real>, slug: string)
    ensures slug in RoleEmission(cfg, tick, role, rated) ==> exists t :: t in tick.targets && t.slug == slug
  {
    hide SelectionOf, IndexFor, IsFinite, Index.Resolve;
    if slug in RoleEmission(cfg, tick, role, rated) {
      var sel := SelectionOf(cfg, tick, role).value;
      var ctx := ContextFor(sel, rated, IndexFor(tick.targets), cfg.slugLabel);
      EmittedIsAllOrNothing(ctx, sel.series, sel.candidate.scale, slug);
      var row :| row in sel.series && ctx.Owner(row) == Some(slug);
      ResolvedSlugIsATargets(tick.targets, row, cfg.slugLabel);
    }
  }

  /** Scraping with the keep filter answers a tick exactly as scraping everything would have. */
  lemma FilteredScrapeAnswersAlike(cfg: Config, table: Table<string>, e: ParsedBody, targets: seq<Target>, at: int)
    requires Decoded(e, {}).Ok?
    ensures Decoded(e, cfg.resolver.Wanted()).Ok?
    ensures var filtered := Tick(Decoded(e, cfg.resolver.Wanted()), targets, at);
            var full := Tick(Decoded(e, {}), targets, at);
            && Answer(cfg, table, filtered) == Answer(cfg, table, full)
            && NextTable(cfg, table, filtered) == NextTable(cfg, table, full)
  {
    hide Decoded, Selected, Emission, Observed, RowsOf, Appended;
    PushdownPreservesSelection(e, cfg.resolver, Cpu);
    PushdownPreservesSelection(e, cfg.resolver, Memory);
  }

  /** When pods have one owner per namespace, the order the services were discovered in changes nothing. */
  lemma AnswerIgnoresTargetOrder(cfg: Config, table: Table<string>, tick: Tick, others: seq<Target>)
    requires Elements(tick.targets) == Elements(others) && SeparatorFree(tick.targets) && OneOwner(tick.targets)
    ensures Answer(cfg, table, tick) == Answer(cfg, table, tick.(targets := others))
  {
    hide SelectionOf, Observed, RowsOf, Appended, RoleEmission;
    var rated := RatedNow(cfg, table, tick);
    SamplesIgnoreTargetOrder(cfg, tick, others, Cpu, rated);
    SamplesIgnoreTargetOrder(cfg, tick, others, Memory, rated);
    SelectionIgnoresTargets(cfg, tick, others, Cpu);
  }

  lemma SelectionIgnoresTargets(cfg: Config, tick: Tick, others: seq<Target>, role: Role)
    ensures SelectionOf(cfg, tick.(targets := others), role) == SelectionOf(cfg, tick, role)
  {
    hide Selected;
  }

  lemma SamplesIgnoreTargetOrder(cfg: Config, tick: Tick, others: seq<Target>, role: Role, rated: map<string, real>)
    requires Elements(tick.targets) == Elements(others) && SeparatorFree(tick.targets) && OneOwner(tick.targets)
    ensures RoleEmission(cfg, tick, role, rated) == RoleEmission(cfg, tick.(targets := others), role, rated)
  {
    hide SelectionOf, IndexFor, SeparatorFree, OneOwner, Emitted, Index.Resolve;
    SelectionIgnoresTargets(cfg, tick, others, role);
    if SelectionOf(cfg, tick, role).Some? {
      var sel := SelectionOf(cfg, tick, role).value;
      var ctx := ContextFor(sel, rated, IndexFor(tick.targets), cfg.slugLabel);
      var other := ContextFor(sel, rated, IndexFor(others), cfg.slugLabel);
      forall row | row in sel.series ensures other.Owner(row) == ctx.Owner(row) {
        ResolveIgnoresTargetOrder(tick.targets, others, row, cfg.slugLabel);
      }
      SameOwnersSameEmission(ctx, other, sel.series, sel.candidate.scale);
    }
  }

  // ---- Withheld warnings over a run --------------------------------------------------------------

  /** The reductions of a role over the first `n` ticks; failed scrapes and unresolved roles make none. */
  ghost function Reductions(cfg: Config, ticks: seq<Tick>, n: nat, role: Role): seq<Reduced>
    requires n <= |ticks|
  {
    if n == 0 then [] else
    var before, now :=
      Reductions(cfg, ticks, n - 1, role), ReducedNow(cfg, TableAt(cfg, ticks, n - 1), ticks[n - 1], role);
    if now.Some? then before + [now.value] else before
  }

  /** The role's latch before the n-th tick. */
  ghost function LatchAt(cfg: Config, ticks: seq<Tick>, n: nat, role: Role): Option<string>
    requires n <= |ticks|
  {
    if n == 0 then None else
    LatchNext(LatchAt(cfg, ticks, n - 1, role), ReducedNow(cfg, TableAt(cfg, ticks, n - 1), ticks[n - 1], role))
  }

  /** A reduction counts as a first observation exactly when no earlier tick fed the Rater, or the last one
      that did had no counter rows left. */
  lemma FirstObservationIs(cfg: Config, ticks: seq<Tick>, n: nat, role: Role)
    requires n < |ticks| && cfg.ceiling > 0
    ensures var k, reduced := LastRateable(cfg, ticks, n), ReducedNow(cfg, TableAt(cfg, ticks, n), ticks[n], role);
            reduced.Some? ==>
              (reduced.value.firstObservation <==> k < 0 || Counters(cfg, ticks[k]).value == [])
  {
    hide Counters, SelectionOf, RatedNow, TableAt;
    TableIsEmpty(cfg, ticks, n);
  }

  lemma {:induction false} TableIsEmpty(cfg: Config, ticks: seq<Tick>, n: nat)
    requires n <= |ticks| && cfg.ceiling > 0
    ensures var k := LastRateable(cfg, ticks, n);
            |TableAt(cfg, ticks, n)| == 0 <==> k < 0 || Counters(cfg, ticks[k]).value == []
  {
    hide Counters, Observed, RowsOf;
    if n > 0 {
      var tick := ticks[n - 1];
      if Counters(cfg, tick).Some? {
        var rows := RowsOf(Counters(cfg, tick).value);
        AdmissionGuarantees(TableAt(cfg, ticks, n - 1), cfg.ceiling, rows, tick.at);
        NoRowsNoFingerprints(Counters(cfg, tick).value);
      } else {
        TableIsEmpty(cfg, ticks, n - 1);
      }
    }
  }

  lemma NoRowsNoFingerprints(series: seq<Series>)
    ensures |Fingerprints(RowsOf(series))| == 0 <==> series == []
  {
    var rows := RowsOf(series);
    FingerprintsAre(rows, |rows|);
    if series != [] { assert rows[0].fp in Fingerprints(rows); }
  }

  lemma {:induction false} LatchFollowsReductions(cfg: Config, ticks: seq<Tick>, n: nat, role: Role)
    requires n <= |ticks|
    ensures var run := Reductions(cfg, ticks, n, role); LatchAt(cfg, ticks, n, role) == LatchAfter(run, |run|)
  {
    hide ReducedNow, TableAt, Report;
    if n > 0 {
      LatchFollowsReductions(cfg, ticks, n - 1, role);
      var before, now :=
        Reductions(cfg, ticks, n - 1, role), ReducedNow(cfg, TableAt(cfg, ticks, n - 1), ticks[n - 1], role);
      if now.Some? {
        LatchOfPrefix(before, [now.value], |before|);
      }
    }
  }

  /** At most one warning, of this role, listing exactly these services in ascending order. */
  ghost predicate WarningsName(warnings: seq<WithheldWarning>, role: Role, slugs: set<string>) {
    |warnings| <= 1 && forall w :: w in warnings ==> w.role == role && Lists(w.slugs, slugs)
  }

  /** On every run whose withheld services can be told apart, a tick that reduces a role warns exactly
      when it is no first observation, withholds someone, and the set is not the one last warned about
      since the role last withheld nobody. */
  lemma WithheldWarningsFollowTheSet(cfg: Config, ticks: seq<Tick>, n: nat, role: Role, slugs: set<string>)
    requires n < |ticks| && ReducedNow(cfg, TableAt(cfg, ticks, n), ticks[n], role).Some?
    requires ToldApart(slugs) && forall r :: r in Reductions(cfg, ticks, n + 1, role) ==> r.incomplete <= slugs
    ensures var run := Reductions(cfg, ticks, n + 1, role);
            var reduced := ReducedNow(cfg, TableAt(cfg, ticks, n), ticks[n], role);
            run != [] &&
            var warnings := WarningsNow(LatchAt(cfg, ticks, n, role), reduced, role);
            && (warnings != [] <==> WithholdsANewSet(run, |run| - 1))
            && WarningsName(warnings, role, reduced.value.incomplete)
  {
    hide ReducedNow, TableAt, Report, ToldApart;
    var before, now := Reductions(cfg, ticks, n, role), ReducedNow(cfg, TableAt(cfg, ticks, n), ticks[n], role).value;
    var run := Reductions(cfg, ticks, n + 1, role);
    assert run == before + [now];
    LatchFollowsReductions(cfg, ticks, n, role);
    LatchOfPrefix(before, [now], |before|);
    assert run[|before|] == now;
    assert WarnsAt(run, |before|) <==> Report(LatchAt(cfg, ticks, n, role), now).warned;
    forall k | 0 <= k < |run| ensures run[k].incomplete <= slugs {
      assert run[k] in run;
    }
    WarnsOnEveryNewSet(slugs, run, |before|);
  }
}
