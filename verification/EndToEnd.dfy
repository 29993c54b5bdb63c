/** One tick from the discovered Deployments to the batch: what the reported counts say about the
    source's answer (internal/agent/agent.go, internal/agent/exposition.go, internal/agent/source.go). */
module EndToEnd {
  import opened Rate
  import opened Resolve
  import opened SlugIndex
  import opened Reduce
  import opened Exposition
  import opened ExpositionRuns
  import opened Sources
  import opened Collect

  lemma OneOrNone(cpu: seq<MetricSample>, memory: seq<MetricSample>, key: string)
    requires |cpu| <= 1 && |memory| <= 1
    requires forall m :: m in cpu ==> m.key == METRIC_CPU_MILLICORES
    requires forall m :: m in memory ==> m.key == METRIC_MEMORY_BYTES
    ensures Occurrences(cpu + memory, key, |cpu + memory|) <= 1
    ensures Carries(cpu + memory, METRIC_CPU_MILLICORES) <==> cpu != []
    ensures Carries(cpu + memory, METRIC_MEMORY_BYTES) <==> memory != []
  {
    var ms := cpu + memory;
    assert METRIC_CPU_MILLICORES[0] != METRIC_MEMORY_BYTES[0];
    if cpu != [] { assert ms[0] == cpu[0] && cpu[0] in cpu && ms[0] in ms; }
    if memory != [] { assert ms[|cpu|] == memory[0] && memory[0] in memory && ms[|cpu|] in ms; }
    assert forall m :: m in ms ==> m in cpu || m in memory;
    if |ms| == 2 {
      assert ms[0].key != ms[1].key;
      TwoKeys(ms, key);
    }
  }

  lemma TwoKeys(ms: seq<MetricSample>, key: string)
    requires |ms| == 2 && ms[0].key != ms[1].key
    ensures Occurrences(ms, key, 2) <= 1
  {
    assert Occurrences(ms, key, 1) == if ms[0].key == key then 1 else 0;
  }

  /** The exposition source gives a service at most one sample per key. */
  lemma ExpositionAnswersOncePerKey(cfg: Config, table: Table<string>, tick: Tick)
    requires tick.fetched.Ok?
    ensures OncePerKey(Answer(cfg, table, tick).value)
  {
    hide Appended, RoleEmission, RatedNow, Occurrences;
    var samples, rated := Answer(cfg, table, tick).value, RatedNow(cfg, table, tick);
    forall slug, key | slug in samples ensures Occurrences(samples[slug], key, |samples[slug]|) <= 1 {
      AnswerReportsTargetsOncePerKey(cfg, table, tick, slug);
      OneOrNone(Sampled(RoleEmission(cfg, tick, Cpu, rated), METRIC_CPU_MILLICORES, slug),
                Sampled(RoleEmission(cfg, tick, Memory, rated), METRIC_MEMORY_BYTES, slug), key);
    }
  }

  /** So does metrics-server. */
  lemma {:induction false} ServerAnswersOncePerKey(probes: seq<Probe>)
    ensures OncePerKey(UsageSamples(probes))
    decreases |probes|
  {
    hide Occurrences;
    if probes != [] {
      var p := probes[|probes| - 1];
      ServerAnswersOncePerKey(probes[..|probes| - 1]);
      if Asked(p) && p.read.Usage? {
        var cpu := MetricSample(METRIC_CPU_MILLICORES, p.read.cpu as real);
        var memory := MetricSample(METRIC_MEMORY_BYTES, p.read.mem as real);
        assert [cpu] + [memory] == [cpu, memory];
        forall key ensures Occurrences([cpu, memory], key, 2) <= 1 {
          OneOrNone([cpu], [memory], key);
        }
      }
    }
  }

  /** A service carries a role in the answer exactly when the role emitted it. */
  lemma CarriesWhatWasEmitted(cfg: Config, table: Table<string>, tick: Tick, role: Role, slug: string)
    requires tick.fetched.Ok?
    ensures Carries(SamplesFor(Answer(cfg, table, tick).value, slug), MetricKeyFor(role)) <==>
              slug in RoleEmission(cfg, tick, role, RatedNow(cfg, table, tick))
  {
    hide RoleEmission, RatedNow, Occurrences;
    var samples, rated := Answer(cfg, table, tick).value, RatedNow(cfg, table, tick);
    if slug in samples {
      AnswerReportsTargetsOncePerKey(cfg, table, tick, slug);
      OneOrNone(Sampled(RoleEmission(cfg, tick, Cpu, rated), METRIC_CPU_MILLICORES, slug),
                Sampled(RoleEmission(cfg, tick, Memory, rated), METRIC_MEMORY_BYTES, slug), "");
    }
  }

  /** For a tick over the targets just gathered, every service the source answers for is in the batch,
      and the per-role counts are the numbers of services each role emitted. */
  lemma ReportedCountsAreEmittedServices(cfg: Config, table: Table<string>, tick: Tick, entries: seq<Entry>,
                                         intervalSeconds: int, role: Role)
    requires tick.fetched.Ok? && tick.targets == Targets(Winners(entries))
    ensures var hs, samples := Heartbeats(Winners(entries), intervalSeconds), Answer(cfg, table, tick).value;
            && KeyCount(hs, samples, MetricKeyFor(role), |hs|) ==
               |RoleEmission(cfg, tick, role, RatedNow(cfg, table, tick))|
            && MappedCount(hs, samples, |hs|) == |samples|
  {
    hide Appended, RoleEmission, RatedNow, Winners, Heartbeats, Targets, Carries, OncePerKey, MetricKeyFor;
    var hs, samples := Heartbeats(Winners(entries), intervalSeconds), Answer(cfg, table, tick).value;
    var em := RoleEmission(cfg, tick, role, RatedNow(cfg, table, tick));
    TargetsAlignWithHeartbeats(entries, intervalSeconds);
    ExpositionAnswersOncePerKey(cfg, table, tick);
    KeyCountIsServices(hs, samples, MetricKeyFor(role), |hs|);
    CarriersAre(hs, samples, MetricKeyFor(role), |hs|);
    forall slug ensures slug in Carriers(hs, samples, MetricKeyFor(role), |hs|) <==> slug in em {
      CarriesWhatWasEmitted(cfg, table, tick, role, slug);
      if slug in em {
        EmittedSlugIsATargets(cfg, tick, role, RatedNow(cfg, table, tick), slug);
        SlugOfTarget(entries, intervalSeconds, tick.targets, slug);
      }
    }
    assert Carriers(hs, samples, MetricKeyFor(role), |hs|) == em.Keys && |em| == |em.Keys|;
    forall slug | slug in samples ensures samples[slug] != [] && exists i :: 0 <= i < |hs| && hs[i].slug == slug {
      AnswerReportsTargetsOncePerKey(cfg, table, tick, slug);
      SlugOfTarget(entries, intervalSeconds, tick.targets, slug);
    }
    EveryAnswerIsMapped(hs, samples);
  }

  lemma SlugOfTarget(entries: seq<Entry>, intervalSeconds: int, targets: seq<Target>, slug: string)
    requires targets == Targets(Winners(entries)) && exists t :: t in targets && t.slug == slug
    ensures var hs := Heartbeats(Winners(entries), intervalSeconds);
            exists i :: 0 <= i < |hs| && hs[i].slug == slug
  {
    hide Winners, Heartbeats, Targets;
    TargetsAlignWithHeartbeats(entries, intervalSeconds);
    var t :| t in targets && t.slug == slug;
    var i :| 0 <= i < |targets| && targets[i] == t;
    assert Heartbeats(Winners(entries), intervalSeconds)[i].slug == slug;
  }

  lemma UsageCarriesBoth(probes: seq<Probe>, p: Probe)
    requires p in probes && forall i, j :: 0 <= i < j < |probes| ==> probes[i].target.slug != probes[j].target.slug
    ensures var ms := SamplesFor(UsageSamples(probes), p.target.slug);
            && (ms != [] <==> Asked(p) && p.read.Usage?) && (ms == [] <==> p.target.slug !in UsageSamples(probes))
            && (ms != [] ==> Carries(ms, METRIC_CPU_MILLICORES) && Carries(ms, METRIC_MEMORY_BYTES))
            && (ms == [] ==> !Carries(ms, METRIC_CPU_MILLICORES) && !Carries(ms, METRIC_MEMORY_BYTES))
  {
    hide UsageSamples;
    UsageIsPerTarget(probes, p);
    var ms := SamplesFor(UsageSamples(probes), p.target.slug);
    if ms != [] { assert ms[0] in ms && ms[1] in ms; }
  }

  /** With metrics-server reading the targets just gathered, both per-role counts and the mapped count are
      the number of services whose own read had usage. */
  lemma ServerCountsAreUsage(probes: seq<Probe>, entries: seq<Entry>, intervalSeconds: int, key: string)
    requires Targets(Winners(entries)) == seq(|probes|, i requires 0 <= i < |probes| => probes[i].target)
    requires key == METRIC_CPU_MILLICORES || key == METRIC_MEMORY_BYTES
    ensures var hs, samples := Heartbeats(Winners(entries), intervalSeconds), UsageSamples(probes);
            && |hs| == |probes|
            && (forall i :: 0 <= i < |hs| ==> (hs[i].slug in samples <==> Asked(probes[i]) && probes[i].read.Usage?))
            && KeyCount(hs, samples, key, |hs|) == MappedCount(hs, samples, |hs|) == |samples|
  {
    hide Winners, Heartbeats, Targets, Carries, OncePerKey, UsageSamples, SamplesFor, Asked;
    var hs, samples := Heartbeats(Winners(entries), intervalSeconds), UsageSamples(probes);
    TargetsAlignWithHeartbeats(entries, intervalSeconds);
    assert forall i :: 0 <= i < |probes| ==> Targets(Winners(entries))[i] == probes[i].target;
    forall i | 0 <= i < |hs|
      ensures var ms := SamplesFor(samples, hs[i].slug);
              && (ms != [] <==> Asked(probes[i]) && probes[i].read.Usage?) && (ms == [] <==> hs[i].slug !in samples)
              && (Carries(ms, key) <==> ms != [])
    {
      assert hs[i].slug == probes[i].target.slug;
      UsageCarriesBoth(probes, probes[i]);
    }
    ServerAnswersOncePerKey(probes);
    KeyCountIsServices(hs, samples, key, |hs|);
    CarriersAre(hs, samples, key, |hs|);
    forall slug | slug in samples ensures samples[slug] != [] && exists i :: 0 <= i < |hs| && hs[i].slug == slug {
      UsageNamesTargets(probes, slug);
      var p :| p in probes && p.target.slug == slug;
      var i :| 0 <= i < |probes| && probes[i] == p;
      assert hs[i].slug == slug && SamplesFor(samples, slug) != [];
      SamplesOfKnown(samples, slug);
    }
    EveryAnswerIsMapped(hs, samples);
    assert Carriers(hs, samples, key, |hs|) == samples.Keys;
  }

  lemma SamplesOfKnown(samples: Answers, slug: string)
    requires slug in samples
    ensures SamplesFor(samples, slug) == samples[slug]
  {
  }
}
