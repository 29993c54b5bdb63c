/** The Rater's run theorems, over ticks of the exposition source: what failed scrapes and ticks without
    the family in between do to them (internal/agent/exposition.go, internal/scrape/rate.go). */
module RatedRuns {
  import opened Rate
  import opened Exposition
  import opened ExpositionRuns

  /** The scrapes that reached the Rater in the first `n` ticks. */
  ghost function Fed(cfg: Config, ticks: seq<Tick>, n: nat): seq<Scrape<string>>
    requires n <= |ticks|
  {
    if n == 0 then [] else
    match Counters(cfg, ticks[n - 1])
    case None => Fed(cfg, ticks, n - 1)
    case Some(series) => Fed(cfg, ticks, n - 1) + [Scrape(RowsOf(series), ticks[n - 1].at)]
  }

  lemma {:induction false} TableOfPrefix<K>(ceiling: nat, run: seq<Scrape<K>>, more: seq<Scrape<K>>, n: nat)
    requires n <= |run|
    ensures TableAfter(ceiling, run + more, n) == TableAfter(ceiling, run, n)
  {
    hide Observed;
    if n > 0 {
      TableOfPrefix(ceiling, run, more, n - 1);
      assert (run + more)[n - 1] == run[n - 1];
    }
  }

  /** The source's Rater is a Rater run on the scrapes that reached it, and a tick that feeds it gets
      what that run returns for its last scrape. */
  lemma {:induction false} SourceRunsTheRater(cfg: Config, ticks: seq<Tick>, n: nat)
    requires n <= |ticks|
    ensures TableAt(cfg, ticks, n) == TableAfter(cfg.ceiling, Fed(cfg, ticks, n), |Fed(cfg, ticks, n)|)
    ensures n > 0 && Counters(cfg, ticks[n - 1]).Some? ==>
              var run := Fed(cfg, ticks, n);
              RatedNow(cfg, TableAt(cfg, ticks, n - 1), ticks[n - 1]) == RatesAt(cfg.ceiling, run, |run| - 1)
  {
    hide Observed, Counters, RowsOf;
    if n > 0 {
      SourceRunsTheRater(cfg, ticks, n - 1);
      if Counters(cfg, ticks[n - 1]).Some? {
        var before := Fed(cfg, ticks, n - 1);
        var last := Scrape(RowsOf(Counters(cfg, ticks[n - 1]).value), ticks[n - 1].at);
        TableOfPrefix(cfg.ceiling, before, [last], |before|);
        assert (before + [last])[|before|] == last;
      }
    }
  }

  /** Over a run of ticks a tracked series is never displaced as long as it is in every scrape that
      reaches the Rater. */
  lemma {:induction false} TrackedSeriesStays(cfg: Config, ticks: seq<Tick>, fp: string, from: nat, n: nat)
    requires from <= n <= |ticks| && fp in TableAt(cfg, ticks, from)
    requires forall i :: from <= i < n && Counters(cfg, ticks[i]).Some? ==> fp in SnapshotOf(cfg, ticks[i])
    ensures fp in TableAt(cfg, ticks, n)
    decreases n
  {
    hide Counters, Observed, RowsOf, Fingerprints, TableAfter;
    if from < n {
      TrackedSeriesStays(cfg, ticks, fp, from, n - 1);
      SourceRunsTheRater(cfg, ticks, n - 1);
      if Counters(cfg, ticks[n - 1]).Some? {
        TableSize(cfg.ceiling, Fed(cfg, ticks, n - 1), |Fed(cfg, ticks, n - 1)|);
        AdmissionGuarantees(TableAt(cfg, ticks, n - 1), cfg.ceiling, RowsOf(Counters(cfg, ticks[n - 1]).value),
                            ticks[n - 1].at);
        assert fp in SnapshotOf(cfg, ticks[n - 1]);
      }
    }
  }

  /** The series is in both tables, the clock advanced and the counter did not fall. */
  predicate Climbs(before: Table<string>, now: Table<string>, fp: string) {
    fp in before && fp in now && before[fp].at < now[fp].at && before[fp].value <= now[fp].value
  }

  /** From a rateable tick that tracked the series on, it climbs from each rateable tick to the next. */
  ghost predicate SteadyTicks(cfg: Config, ticks: seq<Tick>, fp: string, from: nat, n: nat)
    requires n <= |ticks|
  {
    && from < n && ConsistentRun(ticks) && Counters(cfg, ticks[from]).Some? && fp in TableAt(cfg, ticks, from + 1)
    && forall i :: from < i < n && Counters(cfg, ticks[i]).Some? ==> ClimbsTo(cfg, ticks, fp, i)
  }

  ghost predicate ClimbsTo(cfg: Config, ticks: seq<Tick>, fp: string, i: nat)
    requires i < |ticks| && Counters(cfg, ticks[i]).Some?
  {
    var k := LastRateable(cfg, ticks, i);
    k >= 0 && Climbs(SnapshotOf(cfg, ticks[k]), SnapshotOf(cfg, ticks[i]), fp)
  }

  /** What a rate amounts to over the time elapsed. */
  function Amount(rate: real, t0: int, t1: int): real { rate * Elapsed(t0, t1) }

  lemma DifferenceAmounts(before: Table<string>, now: Table<string>, fp: string)
    requires Climbs(before, now, fp)
    ensures var rates := Differences(before, now);
            && fp in rates && rates[fp] >= 0.0
            && Amount(rates[fp], before[fp].at, now[fp].at) == now[fp].value - before[fp].value
  {
    hide Differences;
    DifferenceAt(before, now, fp);
  }

  /** The rate a tick emits for the series, if any, times the time since the last rateable tick. */
  ghost function Gained(cfg: Config, ticks: seq<Tick>, fp: string, i: nat): real
    requires i < |ticks|
  {
    var k, rated := LastRateable(cfg, ticks, i), RatedNow(cfg, TableAt(cfg, ticks, i), ticks[i]);
    if k >= 0 && fp in rated then Amount(rated[fp], ticks[k].at, ticks[i].at) else 0.0
  }

  ghost function GainedOver(cfg: Config, ticks: seq<Tick>, fp: string, from: nat, n: nat): real
    requires from < n <= |ticks|
  {
    if n == from + 1 then 0.0 else
    GainedOver(cfg, ticks, fp, from, n - 1) + Gained(cfg, ticks, fp, n - 1)
  }

  lemma {:induction false} SteadyTicksAreTracked(cfg: Config, ticks: seq<Tick>, fp: string, from: nat, n: nat)
    requires n <= |ticks| && SteadyTicks(cfg, ticks, fp, from, n)
    ensures var k := LastRateable(cfg, ticks, n);
            from <= k && fp in SnapshotOf(cfg, ticks[k]) && fp in TableAt(cfg, ticks, n)
            && TableAt(cfg, ticks, n)[fp] == SnapshotOf(cfg, ticks[k])[fp]
  {
    hide Counters, TableAt, SnapshotOf, ConsistentRun, FitsCeiling, LastRateable;
    LastRateableIsLast(cfg, ticks, n, from);
    TrackedSeriesStays(cfg, ticks, fp, from + 1, n);
    TableFollowsLastRateable(cfg, ticks, n);
  }

  lemma {:induction false} LastRateableIsLast(cfg: Config, ticks: seq<Tick>, n: nat, i: nat)
    requires i < n <= |ticks| && Counters(cfg, ticks[i]).Some?
    ensures LastRateable(cfg, ticks, n) >= i
  {
    hide Counters;
    if i < n - 1 {
      LastRateableIsLast(cfg, ticks, n - 1, i);
    }
  }

  /** On a steady run every tick that feeds the Rater emits a rate, and rate times elapsed is the rise. */
  lemma SteadyTickGains(cfg: Config, ticks: seq<Tick>, fp: string, from: nat, i: nat)
    requires from < i < |ticks| && SteadyTicks(cfg, ticks, fp, from, i + 1)
    ensures Counters(cfg, ticks[i]).Some? ==>
            var k, rated := LastRateable(cfg, ticks, i), RatedNow(cfg, TableAt(cfg, ticks, i), ticks[i]);
            && k >= from && fp in rated && rated[fp] >= 0.0
            && fp in SnapshotOf(cfg, ticks[k]) && fp in SnapshotOf(cfg, ticks[i])
            && Gained(cfg, ticks, fp, i) == SnapshotOf(cfg, ticks[i])[fp].value - SnapshotOf(cfg, ticks[k])[fp].value
  {
    hide Counters, TableAt, RatedNow, SnapshotOf, Differences, ConsistentRun, Amount, LastRateable;
    if Counters(cfg, ticks[i]).Some? {
      SteadyTicksAreTracked(cfg, ticks, fp, from, i);
      SteadyTicksAreTracked(cfg, ticks, fp, from, i + 1);
      RatedIsDifference(cfg, ticks, i);
      LastRateableIsLast(cfg, ticks, i + 1, i);
      assert ClimbsTo(cfg, ticks, fp, i);
      DifferenceAmounts(TableAt(cfg, ticks, i), TableAt(cfg, ticks, i + 1), fp);
      SnapshotTime(cfg, ticks[LastRateable(cfg, ticks, i)], fp);
      SnapshotTime(cfg, ticks[i], fp);
    }
  }

  lemma RatedIsDifference(cfg: Config, ticks: seq<Tick>, i: nat)
    requires i < |ticks| && ConsistentRun(ticks) && Counters(cfg, ticks[i]).Some?
    ensures RatedNow(cfg, TableAt(cfg, ticks, i), ticks[i]) ==
            Differences(TableAt(cfg, ticks, i), TableAt(cfg, ticks, i + 1))
  {
    hide Counters, Observed, RowsOf, Coherent, Differences, Snapshot;
    CountersAreCoherent(cfg, ticks[i]);
    ObservedIsDifference(TableAt(cfg, ticks, i), cfg.ceiling, RowsOf(Counters(cfg, ticks[i]).value), ticks[i].at);
  }

  lemma SnapshotTime(cfg: Config, tick: Tick, fp: string)
    requires Counters(cfg, tick).Some?
    ensures fp in SnapshotOf(cfg, tick) ==> SnapshotOf(cfg, tick)[fp].at == tick.at
  {
    hide Counters, RowsOf;
  }

  /** Telescoping over ticks: whatever failed or lacked the family in between, what the emitted rates add
      up to over the elapsed time is the counter's rise since the first of these ticks. */
  lemma {:induction false} TickRatesTelescope(cfg: Config, ticks: seq<Tick>, fp: string, from: nat, n: nat)
    requires n <= |ticks| && SteadyTicks(cfg, ticks, fp, from, n)
    ensures forall i :: from < i < n && Counters(cfg, ticks[i]).Some? ==>
              var rated := RatedNow(cfg, TableAt(cfg, ticks, i), ticks[i]); fp in rated && rated[fp] >= 0.0
    ensures var k := LastRateable(cfg, ticks, n);
            && k >= from && fp in SnapshotOf(cfg, ticks[k]) && fp in SnapshotOf(cfg, ticks[from])
            && GainedOver(cfg, ticks, fp, from, n) ==
               SnapshotOf(cfg, ticks[k])[fp].value - SnapshotOf(cfg, ticks[from])[fp].value
    decreases n
  {
    hide Counters, TableAt, Observed, SnapshotOf, ClimbsTo, ConsistentRun;
    SteadyTicksAreTracked(cfg, ticks, fp, from, n);
    if from + 1 < n {
      TickRatesTelescope(cfg, ticks, fp, from, n - 1);
      SteadyTickGains(cfg, ticks, fp, from, n - 1);
    }
  }
}
