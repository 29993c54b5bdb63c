/** The automatic mode as it is wired: metrics-server first, the exposition as its fallback, each with
    its own memory (internal/agent/source.go). */
module AutoRuns {
  import opened Wrappers
  import opened Rate
  import opened Resolve
  import opened Decode
  import opened SlugIndex
  import opened Reduce
  import opened WithheldReport
  import opened Exposition
  import opened ExpositionRuns
  import opened Sources
  import opened Collect
  import opened EndToEnd

  /** What one heartbeat would find: the clock, the pod metrics of every target, the clock again, and what
      the exposition source would see. */
  datatype Beat = Beat(dueClock: int, probes: seq<Probe>, failClock: int, tick: Tick)

  datatype AutoState = AutoState(auto: Auto, serverWarned: bool, table: Table<string>,
                                 cpuWithheld: Option<string>, memoryWithheld: Option<string>)

  function OutcomeOf(r: Result<Samples, ScrapeError>): Outcome {
    match r
    case Ok(samples) => Answered(samples)
    case Err(_) => Failed
  }

  /** What the two sources would answer this heartbeat. */
  ghost function CallOf(cfg: Config, table: Table<string>, b: Beat): Call {
    Call(b.dueClock, ServerAnswer(b.probes), b.failClock, OutcomeOf(Answer(cfg, table, b.tick)))
  }

  /** A source that is not asked remembers what it did before. */
  ghost function Next(cfg: Config, s: AutoState, b: Beat): AutoState {
    var served := Serve(s.auto, CallOf(cfg, s.table, b));
    var warned := if served.askedPrimary then WarnedNext(s.serverWarned, b.probes) else s.serverWarned;
    if !served.byFallback then s.(auto := served.state, serverWarned := warned) else
    AutoState(served.state, warned, NextTable(cfg, s.table, b.tick),
              LatchNext(s.cpuWithheld, ReducedNow(cfg, s.table, b.tick, Cpu)),
              LatchNext(s.memoryWithheld, ReducedNow(cfg, s.table, b.tick, Memory)))
  }

  class AutoModeSource {
    const primary: MetricsServerSource
    const fallback: ExpositionSource
    var switched: bool
    var switchedAt: int

    constructor (resolver: Resolver, slugLabel: string, maxTracked: int)
      ensures Valid() && fresh(primary) && fresh(fallback) && fresh(fallback.rater)
      ensures State() == AutoState(Auto(false, 0), false, map[], None, None)
    {
      primary := new MetricsServerSource();
      fallback := new ExpositionSource(resolver, slugLabel, maxTracked);
      switched, switchedAt := false, 0;
    }

    ghost predicate Valid()
      reads this, fallback, fallback.rater
    {
      fallback.Valid()
    }

    ghost function State(): AutoState
      reads this, primary, fallback, fallback.rater
    {
      AutoState(Auto(switched, switchedAt), primary.warned, fallback.rater.prev, fallback.cpuWithheld,
                fallback.memoryWithheld)
    }

    method Samples(b: Beat) returns (r: Outcome, askedPrimary: bool, byFallback: bool)
      requires Valid()
      modifies this, primary, fallback, fallback.rater
      ensures Valid()
      ensures Served(State().auto, r, askedPrimary, byFallback) ==
              Serve(old(State()).auto, CallOf(fallback.Cfg(), old(fallback.rater.prev), b))
      ensures State() == Next(fallback.Cfg(), old(State()), b)
    {
      hide ServerAnswer, Answer, WarnedNext, NextTable, LatchNext, ReducedNow;
      askedPrimary, byFallback := false, true;
      if switched && !Auto(switched, switchedAt).DueForRetry(b.dueClock) {
        var answer := fallback.Samples(b.tick);
        return OutcomeOf(answer), false, true;
      }
      askedPrimary := true;
      var read, _ := primary.Samples(b.probes);
      if !read.Unavailable? {
        if read.Answered? && switched {
          switched := false;
        }
        return read, true, false;
      }
      switchedAt := b.failClock;
      switched := true;
      var answer := fallback.Samples(b.tick);
      r := OutcomeOf(answer);
    }
  }

  // ---- Runs --------------------------------------------------------------------------------------

  ghost function StateAt(cfg: Config, beats: seq<Beat>, n: nat): AutoState
    requires n <= |beats|
  {
    if n == 0 then AutoState(Auto(false, 0), false, map[], None, None) else
    Next(cfg, StateAt(cfg, beats, n - 1), beats[n - 1])
  }

  /** The n-th heartbeat as a call of the composite. */
  ghost function CallAt(cfg: Config, beats: seq<Beat>, n: nat): Call
    requires n < |beats|
  {
    CallOf(cfg, StateAt(cfg, beats, n).table, beats[n])
  }

  ghost function ServedBy(cfg: Config, beats: seq<Beat>, n: nat): Served
    requires n < |beats|
  {
    Serve(StateAt(cfg, beats, n).auto, CallAt(cfg, beats, n))
  }

  ghost function Calls(cfg: Config, beats: seq<Beat>, n: nat): (calls: seq<Call>)
    requires n <= |beats|
    ensures |calls| == n
  {
    if n == 0 then [] else Calls(cfg, beats, n - 1) + [CallAt(cfg, beats, n - 1)]
  }

  /** The ticks of the heartbeats the fallback served, in order. */
  ghost function Scraped(cfg: Config, beats: seq<Beat>, n: nat): seq<Tick>
    requires n <= |beats|
  {
    if n == 0 then [] else
    var before := Scraped(cfg, beats, n - 1);
    if ServedBy(cfg, beats, n - 1).byFallback then before + [beats[n - 1].tick] else before
  }

  /** What metrics-server read in the heartbeats that asked it, in order. */
  ghost function Readings(cfg: Config, beats: seq<Beat>, n: nat): seq<seq<Probe>>
    requires n <= |beats|
  {
    if n == 0 then [] else
    var before := Readings(cfg, beats, n - 1);
    if ServedBy(cfg, beats, n - 1).askedPrimary then before + [beats[n - 1].probes] else before
  }

  lemma {:induction false} TicksOfPrefix(cfg: Config, ticks: seq<Tick>, more: seq<Tick>, n: nat)
    requires n <= |ticks|
    ensures TableAt(cfg, ticks + more, n) == TableAt(cfg, ticks, n)
    ensures forall role :: LatchAt(cfg, ticks + more, n, role) == LatchAt(cfg, ticks, n, role)
  {
    hide NextTable, LatchNext, ReducedNow;
    if n > 0 {
      TicksOfPrefix(cfg, ticks, more, n - 1);
      assert (ticks + more)[n - 1] == ticks[n - 1];
    }
  }

  lemma {:induction false} CallsOfPrefix(run: seq<Call>, more: seq<Call>, n: nat)
    requires n <= |run|
    ensures StateAfter(run + more, n) == StateAfter(run, n)
  {
    hide Serve;
    if n > 0 {
      CallsOfPrefix(run, more, n - 1);
      assert (run + more)[n - 1] == run[n - 1];
    }
  }

  lemma {:induction false} ReadingsOfPrefix(run: seq<seq<Probe>>, more: seq<seq<Probe>>, n: nat)
    requires n <= |run|
    ensures WarnedAfter(run + more, n) == WarnedAfter(run, n)
  {
    hide WarnedNext;
    if n > 0 {
      ReadingsOfPrefix(run, more, n - 1);
      assert (run + more)[n - 1] == run[n - 1];
    }
  }

  lemma {:induction false} SwitchLivesThroughCalls(cfg: Config, beats: seq<Beat>, n: nat)
    requires n <= |beats|
    ensures StateAt(cfg, beats, n).auto == StateAfter(Calls(cfg, beats, n), n)
  {
    hide Serve, WarnedNext, NextTable, LatchNext, ReducedNow, CallOf;
    if n > 0 {
      SwitchLivesThroughCalls(cfg, beats, n - 1);
      CallsOfPrefix(Calls(cfg, beats, n - 1), [CallAt(cfg, beats, n - 1)], n - 1);
      assert Calls(cfg, beats, n)[n - 1] == CallAt(cfg, beats, n - 1);
    }
  }

  lemma {:induction false} ServerLivesThroughReadings(cfg: Config, beats: seq<Beat>, n: nat)
    requires n <= |beats|
    ensures var read := Readings(cfg, beats, n); StateAt(cfg, beats, n).serverWarned == WarnedAfter(read, |read|)
  {
    hide Serve, WarnedNext, NextTable, LatchNext, ReducedNow, CallOf;
    if n > 0 {
      ServerLivesThroughReadings(cfg, beats, n - 1);
      var read, probes := Readings(cfg, beats, n - 1), beats[n - 1].probes;
      ReadingsOfPrefix(read, [probes], |read|);
      assert (read + [probes])[|read|] == probes;
    }
  }

  lemma {:induction false} ExpositionLivesThroughScraped(cfg: Config, beats: seq<Beat>, n: nat)
    requires n <= |beats|
    ensures var s, ticks := StateAt(cfg, beats, n), Scraped(cfg, beats, n);
            && s.table == TableAt(cfg, ticks, |ticks|)
            && s.cpuWithheld == LatchAt(cfg, ticks, |ticks|, Cpu)
            && s.memoryWithheld == LatchAt(cfg, ticks, |ticks|, Memory)
  {
    hide Serve, WarnedNext, NextTable, LatchNext, ReducedNow, CallOf;
    if n > 0 {
      ExpositionLivesThroughScraped(cfg, beats, n - 1);
      var ticks, tick := Scraped(cfg, beats, n - 1), beats[n - 1].tick;
      TicksOfPrefix(cfg, ticks, [tick], |ticks|);
      assert (ticks + [tick])[|ticks|] == tick;
    }
  }

  /** Each part of the source lives through a run of its own: the switch through all calls, metrics-server
      through the heartbeats that asked it, the exposition through those the fallback served. */
  lemma PartsLiveTheirOwnRuns(cfg: Config, beats: seq<Beat>, n: nat)
    requires n <= |beats|
    ensures var s, ticks, read := StateAt(cfg, beats, n), Scraped(cfg, beats, n), Readings(cfg, beats, n);
            && s.auto == StateAfter(Calls(cfg, beats, n), n)
            && s.serverWarned == WarnedAfter(read, |read|)
            && s.table == TableAt(cfg, ticks, |ticks|)
            && s.cpuWithheld == LatchAt(cfg, ticks, |ticks|, Cpu)
            && s.memoryWithheld == LatchAt(cfg, ticks, |ticks|, Memory)
  {
    hide *;
    SwitchLivesThroughCalls(cfg, beats, n);
    ServerLivesThroughReadings(cfg, beats, n);
    ExpositionLivesThroughScraped(cfg, beats, n);
  }

  /** What the n-th heartbeat gets is what the n-th call of that run gets, so the theorems about when the
      primary is asked and whom Name names hold of it. */
  lemma HeartbeatIsACall(cfg: Config, beats: seq<Beat>, n: nat, i: nat)
    requires i < n <= |beats|
    ensures Calls(cfg, beats, n)[i] == CallAt(cfg, beats, i)
    ensures ServedBy(cfg, beats, i) == ServedAt(Calls(cfg, beats, n), i)
  {
    hide Serve, CallAt, StateAt;
    var calls := Calls(cfg, beats, n);
    CallsGrow(cfg, beats, n, i);
    assert calls == Calls(cfg, beats, i) + calls[i..];
    CallsOfPrefix(Calls(cfg, beats, i), calls[i..], i);
    PartsLiveTheirOwnRuns(cfg, beats, i);
  }

  lemma {:induction false} CallsGrow(cfg: Config, beats: seq<Beat>, n: nat, i: nat)
    requires i < n <= |beats|
    ensures Calls(cfg, beats, n)[..i] == Calls(cfg, beats, i) && Calls(cfg, beats, n)[i] == CallAt(cfg, beats, i)
  {
    hide CallAt;
    if i < n - 1 {
      CallsGrow(cfg, beats, n - 1, i);
    }
  }

  // ---- What a service gets in automatic mode -----------------------------------------------------

  /** A heartbeat the fallback serves adds its tick to the exposition's run, which answers it. */
  lemma FallbackAnswers(cfg: Config, beats: seq<Beat>, n: nat)
    requires n < |beats| && ServedBy(cfg, beats, n).byFallback
    ensures var ticks, m := Scraped(cfg, beats, n + 1), |Scraped(cfg, beats, n)|;
            && ticks == Scraped(cfg, beats, n) + [beats[n].tick] && |ticks| == m + 1 && ticks[m] == beats[n].tick
            && StateAt(cfg, beats, n).table == TableAt(cfg, ticks, m)
            && StateAt(cfg, beats, n).cpuWithheld == LatchAt(cfg, ticks, m, Cpu)
            && StateAt(cfg, beats, n).memoryWithheld == LatchAt(cfg, ticks, m, Memory)
            && ServedBy(cfg, beats, n).result == OutcomeOf(Answer(cfg, TableAt(cfg, ticks, m), beats[n].tick))
  {
    hide Next, Answer, StateAt, TableAt, LatchAt, ServerAnswer;
    var before := Scraped(cfg, beats, n);
    PartsLiveTheirOwnRuns(cfg, beats, n);
    TicksOfPrefix(cfg, before, [beats[n].tick], |before|);
  }

  /** What a role emitted is what the service's samples carry under the role's key. */
  lemma CpuSampleShows(cfg: Config, table: Table<string>, tick: Tick, slug: string)
    requires tick.fetched.Ok?
    ensures var ms := SamplesFor(Answer(cfg, table, tick).value, slug);
            var em := RoleEmission(cfg, tick, Cpu, RatedNow(cfg, table, tick));
            && (Carries(ms, METRIC_CPU_MILLICORES) <==> slug in em)
            && (slug in em ==> ms != [] && ms[0] == MetricSample(METRIC_CPU_MILLICORES, em[slug]))
  {
    hide RoleEmission, RatedNow;
    CarriesWhatWasEmitted(cfg, table, tick, Cpu, slug);
  }

  /** The fallback serves the heartbeat and rates CPU counters, and what it rates against fits the ceiling. */
  ghost predicate FallbackRates(cfg: Config, beats: seq<Beat>, n: nat)
    requires n < |beats|
  {
    && ServedBy(cfg, beats, n).byFallback && Counters(cfg, beats[n].tick).Some? && FitsCeiling(cfg, beats[n].tick)
    && var ticks, k := Scraped(cfg, beats, n + 1), LastRateable(cfg, Scraped(cfg, beats, n), |Scraped(cfg, beats, n)|);
       ConsistentRun(ticks) && (k >= 0 ==> FitsCeiling(cfg, ticks[k]))
  }

  /** When the fallback rates a heartbeat, a service's CPU sample is the increase since the last rateable
      tick the fallback served, whatever metrics-server answered in between. */
  lemma AutoCpuSampleIsTheIncrease(cfg: Config, beats: seq<Beat>, n: nat, slug: string)
    requires n < |beats| && SeparatorFree(beats[n].tick.targets)
    ensures FallbackRates(cfg, beats, n) ==>
            var ticks, m, r := Scraped(cfg, beats, n + 1), |Scraped(cfg, beats, n)|, ServedBy(cfg, beats, n).result;
            && r.Answered?
            && (Carries(SamplesFor(r.samples, slug), METRIC_CPU_MILLICORES) <==>
                  RateIsDue(cfg, ticks, m, slug) && IsFinite(ExpectedRate(cfg, ticks, m, slug)))
            && (Carries(SamplesFor(r.samples, slug), METRIC_CPU_MILLICORES) ==>
                  SamplesFor(r.samples, slug)[0] ==
                    MetricSample(METRIC_CPU_MILLICORES, ExpectedRate(cfg, ticks, m, slug)))
  {
    hide Counters, ServedBy, Scraped, Answer, RateIsDue, ExpectedRate, IsFinite, Carries, RoleEmission, RatedNow,
         TableAt, ConsistentRun, SeparatorFree, FitsCeiling, LastRateable, SamplesFor;
    if FallbackRates(cfg, beats, n) {
      var ticks, m := Scraped(cfg, beats, n + 1), |Scraped(cfg, beats, n)|;
      FallbackAnswers(cfg, beats, n);
      LastRateableOfPrefix(cfg, Scraped(cfg, beats, n), [beats[n].tick], m);
      CountersWereFetched(cfg, beats[n].tick);
      AnswersWhenFetched(cfg, TableAt(cfg, ticks, m), beats[n].tick);
      CpuSampleIsTheIncrease(cfg, ticks, m, slug);
      CpuSampleShows(cfg, TableAt(cfg, ticks, m), ticks[m], slug);
    }
  }

  lemma {:induction false} LastRateableOfPrefix(cfg: Config, ticks: seq<Tick>, more: seq<Tick>, n: nat)
    requires n <= |ticks|
    ensures LastRateable(cfg, ticks + more, n) == LastRateable(cfg, ticks, n)
  {
    hide Counters;
    if n > 0 {
      LastRateableOfPrefix(cfg, ticks, more, n - 1);
      assert (ticks + more)[n - 1] == ticks[n - 1];
    }
  }

  lemma AnswersWhenFetched(cfg: Config, table: Table<string>, tick: Tick)
    ensures Answer(cfg, table, tick).Ok? <==> tick.fetched.Ok?
  {
  }

  /** The fallback serves the heartbeat and reduces the role, and the services withheld so far can be
      told apart. */
  ghost predicate FallbackReports(cfg: Config, beats: seq<Beat>, n: nat, role: Role, slugs: set<string>)
    requires n < |beats|
  {
    && ServedBy(cfg, beats, n).byFallback
    && ReducedNow(cfg, StateAt(cfg, beats, n).table, beats[n].tick, role).Some? && ToldApart(slugs)
    && var ticks := Scraped(cfg, beats, n + 1);
       forall r :: r in Reductions(cfg, ticks, |ticks|, role) ==> r.incomplete <= slugs
  }

  /** A withheld warning in automatic mode follows the sets withheld in the heartbeats the fallback served. */
  lemma AutoWarningsFollowTheSet(cfg: Config, beats: seq<Beat>, n: nat, role: Role, slugs: set<string>)
    requires n < |beats|
    ensures FallbackReports(cfg, beats, n, role, slugs) ==>
            var s, ticks := StateAt(cfg, beats, n), Scraped(cfg, beats, n + 1);
            var latch := if role == Memory then s.memoryWithheld else s.cpuWithheld;
            var run := Reductions(cfg, ticks, |ticks|, role);
            && run != []
            && (WarningsNow(latch, ReducedNow(cfg, s.table, beats[n].tick, role), role) != [] <==>
                  WithholdsANewSet(run, |run| - 1))
  {
    hide Next, ServedBy, Scraped, Reductions, ReducedNow, TableAt, LatchAt, StateAt, ToldApart, WithholdsANewSet,
         WarningsNow, Counters, Answer, OutcomeOf;
    if FallbackReports(cfg, beats, n, role, slugs) {
      var ticks := Scraped(cfg, beats, n + 1);
      FallbackAnswers(cfg, beats, n);
      WithheldWarningsFollowTheSet(cfg, ticks, |ticks| - 1, role, slugs);
    }
  }

  /** The i-th heartbeat asked metrics-server, which could not serve it, and it is the last before the n-th
      that asked. */
  ghost predicate LastAskedInVain(cfg: Config, beats: seq<Beat>, n: nat, i: int)
    requires n <= |beats|
  {
    && 0 <= i < n && ServedBy(cfg, beats, i).askedPrimary && !Serves(beats[i].probes)
    && forall k :: i < k < n ==> !ServedBy(cfg, beats, k).askedPrimary
  }

  lemma AskedInVainIsOnFallback(cfg: Config, beats: seq<Beat>, n: nat, i: int)
    requires n < |beats|
    ensures LastAskedInVain(cfg, beats, n, i) <==> OnFallbackSince(Calls(cfg, beats, n + 1), n, i)
  {
    hide ServedBy, ServedAt, Serves, ServerAnswer, Answer, StateAt;
    var calls := Calls(cfg, beats, n + 1);
    forall k | 0 <= k < n
      ensures ServedBy(cfg, beats, k) == ServedAt(calls, k)
      ensures calls[k].primary.Unavailable? <==> !Serves(beats[k].probes)
      ensures !calls[k].primary.Failed?
    {
      HeartbeatIsACall(cfg, beats, n + 1, k);
      ServerServes(beats[k].probes);
    }
  }

  /** Over every run metrics-server is asked exactly when the last heartbeat that asked it was served by it,
      or five minutes have passed since it failed, by the clocks of the two heartbeats. */
  lemma AutoAsksWhenDue(cfg: Config, beats: seq<Beat>, n: nat)
    requires n < |beats|
    ensures ServedBy(cfg, beats, n).askedPrimary <==>
              forall i :: LastAskedInVain(cfg, beats, n, i) ==>
                beats[i].failClock == 0 || beats[n].dueClock - beats[i].failClock >= 300_000_000_000
  {
    hide ServedBy, ServedAt, LastAskedInVain, OnFallbackSince, Calls, CallAt, StateAt;
    var calls := Calls(cfg, beats, n + 1);
    HeartbeatIsACall(cfg, beats, n + 1, n);
    ClocksOf(cfg, beats, n);
    PrimaryIsAskedWhenDue(calls, n);
    forall i ensures LastAskedInVain(cfg, beats, n, i) <==> OnFallbackSince(calls, n, i) {
      AskedInVainIsOnFallback(cfg, beats, n, i);
    }
    forall i | OnFallbackSince(calls, n, i)
      ensures 0 <= i < n && calls[i].failClock == beats[i].failClock
    {
      FallbackIsEarlier(calls, n, i);
      HeartbeatIsACall(cfg, beats, n + 1, i);
      ClocksOf(cfg, beats, i);
    }
  }

  lemma ClocksOf(cfg: Config, beats: seq<Beat>, n: nat)
    requires n < |beats|
    ensures CallAt(cfg, beats, n).dueClock == beats[n].dueClock && CallAt(cfg, beats, n).failClock == beats[n].failClock
  {
    hide StateAt;
  }

  /** A heartbeat that asks metrics-server goes to the fallback exactly when some read finds the API missing,
      or someone is read and every read fails. */
  lemma AutoFallsBackExactly(cfg: Config, beats: seq<Beat>, n: nat)
    requires n < |beats| && ServedBy(cfg, beats, n).askedPrimary
    ensures ServedBy(cfg, beats, n).byFallback <==>
              var probes := beats[n].probes;
              || FindsApiMissing(probes)
              || ((exists i :: 0 <= i < |probes| && probes[i].target.selector != "") &&
                  forall i :: 0 <= i < |probes| && probes[i].target.selector != "" ==> probes[i].read == ReadFailed)
    ensures !ServedBy(cfg, beats, n).byFallback ==>
              ServedBy(cfg, beats, n).result == Answered(UsageSamples(beats[n].probes))
  {
    hide Answer, StateAt, UsageSamples, HitsAbsentApi, HasCleanRead, AsksAnyone, FindsApiMissing, ReadsClean;
    ServerServes(beats[n].probes);
  }

  /** What the fallback serves is the exposition's answer, or a failure when its scrape failed. */
  lemma AutoFallbackResult(cfg: Config, beats: seq<Beat>, n: nat)
    requires n < |beats|
    ensures var served, answer := ServedBy(cfg, beats, n), Answer(cfg, StateAt(cfg, beats, n).table, beats[n].tick);
            served.byFallback ==>
              && (beats[n].tick.fetched.Ok? <==> answer.Ok?)
              && served.result == if beats[n].tick.fetched.Ok? then Answered(answer.value) else Failed
  {
    hide Answer, StateAt, ServerAnswer;
    FailedScrapeIsPassedOn(cfg, StateAt(cfg, beats, n).table, beats[n].tick);
  }

  /** And metrics-server warns once per outage of the heartbeats that asked it. */
  lemma AutoWarnsOncePerOutage(cfg: Config, beats: seq<Beat>, n: nat)
    requires n < |beats| && ServedBy(cfg, beats, n).askedPrimary
    ensures var read, m := Readings(cfg, beats, n + 1), |Readings(cfg, beats, n)|;
            && |read| == m + 1 && read[m] == beats[n].probes
            && (HitsAbsentApi(beats[n].probes) && !StateAt(cfg, beats, n).serverWarned <==>
                  FindsApiMissing(read[m]) && !exists j :: OutageStands(read, m, j))
  {
    hide Next, ServedBy, StateAt, HitsAbsentApi, OutageStands, WarnedAfter;
    var before := Readings(cfg, beats, n);
    PartsLiveTheirOwnRuns(cfg, beats, n);
    ReadingsOfPrefix(before, [beats[n].probes], |before|);
    OneWarningPerOutage(Readings(cfg, beats, n + 1), |before|);
  }
}
