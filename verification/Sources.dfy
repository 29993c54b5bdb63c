/** Metrics-server reads and the fallback between two sources (internal/agent/source.go). */
module Sources {
  import opened SlugIndex
  import opened Reduce
  import opened Exposition

  /** What a source returns: samples, an error that says it cannot serve this cluster, or another error. */
  datatype Outcome = Answered(samples: Samples) | Unavailable(reason: Reason) | Failed

  datatype Reason = ApiAbsent | AllReadsFailed

  // ---- Metrics-server ----------------------------------------------------------------------------

  /** What reading one target's pod metrics yields, were it asked. */
  datatype Read = ApiMissing | ReadFailed | NoData | Usage(cpu: int, mem: int)

  datatype Probe = Probe(target: Target, read: Read)

  predicate Asked(p: Probe) { p.target.selector != "" }

  predicate HitsAbsentApi(probes: seq<Probe>) { exists p :: p in probes && Asked(p) && p.read.ApiMissing? }

  predicate HasCleanRead(probes: seq<Probe>) {
    exists p :: p in probes && Asked(p) && (p.read.NoData? || p.read.Usage?)
  }

  predicate AsksAnyone(probes: seq<Probe>) { exists p :: p in probes && Asked(p) }

  /** Every target with usage gets its CPU and memory; a slug listed twice keeps the later. */
  function UsageSamples(probes: seq<Probe>): Samples {
    if probes == [] then map[] else
    var before, p := UsageSamples(probes[..|probes| - 1]), probes[|probes| - 1];
    if Asked(p) && p.read.Usage? then
      before[p.target.slug := [MetricSample(METRIC_CPU_MILLICORES, p.read.cpu as real),
                               MetricSample(METRIC_MEMORY_BYTES, p.read.mem as real)]]
    else before
  }

  function ServerAnswer(probes: seq<Probe>): Outcome {
    if HitsAbsentApi(probes) then Unavailable(ApiAbsent)
    else if AsksAnyone(probes) && !HasCleanRead(probes) then Unavailable(AllReadsFailed)
    else Answered(UsageSamples(probes))
  }

  /** The tick ran to the end and some read came back without an error. */
  predicate RanClean(probes: seq<Probe>) { !HitsAbsentApi(probes) && HasCleanRead(probes) }

  function WarnedNext(warned: bool, probes: seq<Probe>): bool {
    HitsAbsentApi(probes) || (warned && !RanClean(probes))
  }

  lemma OneMoreProbe(probes: seq<Probe>, p: Probe)
    ensures AsksAnyone(probes + [p]) == (AsksAnyone(probes) || Asked(p))
    ensures HasCleanRead(probes + [p]) == (HasCleanRead(probes) || (Asked(p) && (p.read.NoData? || p.read.Usage?)))
    ensures HitsAbsentApi(probes + [p]) == (HitsAbsentApi(probes) || (Asked(p) && p.read.ApiMissing?))
    ensures UsageSamples(probes + [p]) ==
            if Asked(p) && p.read.Usage? then
              UsageSamples(probes)[p.target.slug := [MetricSample(METRIC_CPU_MILLICORES, p.read.cpu as real),
                                                     MetricSample(METRIC_MEMORY_BYTES, p.read.mem as real)]]
            else UsageSamples(probes)
  {
    assert forall q :: q in probes + [p] <==> q in probes || q == p;
    assert (probes + [p])[..|probes|] == probes;
  }

  lemma NoProbes()
    ensures !AsksAnyone([]) && !HasCleanRead([]) && !HitsAbsentApi([]) && UsageSamples([]) == map[]
  {
  }

  /** An absent API is absent however the tick goes on. */
  lemma AbsentApiShows(probes: seq<Probe>, i: nat)
    requires i < |probes| && Asked(probes[i]) && probes[i].read.ApiMissing?
    ensures HitsAbsentApi(probes)
  {
    assert probes[i] in probes;
  }

  lemma NothingAbsent(probes: seq<Probe>)
    requires !HitsAbsentApi(probes)
    ensures forall i :: 0 <= i < |probes| ==> !(Asked(probes[i]) && probes[i].read.ApiMissing?)
  {
    assert forall i :: 0 <= i < |probes| ==> probes[i] in probes;
  }

  /** Some target with a selector finds the API missing. */
  ghost predicate FindsApiMissing(probes: seq<Probe>) {
    exists i :: 0 <= i < |probes| && probes[i].target.selector != "" && probes[i].read == ApiMissing
  }

  /** Some target with a selector is read without an error, with data or not. */
  ghost predicate ReadsClean(probes: seq<Probe>) {
    exists i :: 0 <= i < |probes| && probes[i].target.selector != ""
                && (probes[i].read == NoData || probes[i].read.Usage?)
  }

  /** No target that is asked finds the API missing, and unless nobody is asked some read comes back clean. */
  ghost predicate Serves(probes: seq<Probe>) {
    && !FindsApiMissing(probes)
    && ((forall i :: 0 <= i < |probes| ==> probes[i].target.selector == "") || ReadsClean(probes))
  }

  /** Metrics-server answers exactly then. Otherwise it reports itself unavailable, for an absent API
      exactly when some read found it missing, and never fails in any other way. */
  lemma ServerServes(probes: seq<Probe>)
    ensures ServerAnswer(probes).Answered? <==> Serves(probes)
    ensures ServerAnswer(probes) == Unavailable(ApiAbsent) <==> FindsApiMissing(probes)
    ensures HitsAbsentApi(probes) <==> FindsApiMissing(probes)
    ensures HasCleanRead(probes) <==> ReadsClean(probes)
    ensures ServerAnswer(probes) == Unavailable(AllReadsFailed) <==>
              && (exists i :: 0 <= i < |probes| && probes[i].target.selector != "")
              && forall i :: 0 <= i < |probes| && probes[i].target.selector != "" ==> probes[i].read == ReadFailed
    ensures !ServerAnswer(probes).Failed?
  {
    hide UsageSamples;
    assert forall p :: p in probes <==> exists i :: 0 <= i < |probes| && probes[i] == p;
    assert forall i :: 0 <= i < |probes| ==> probes[i] in probes;
  }

  /** How many of the first `n` targets have a selector. */
  function SelectorCount(probes: seq<Probe>, n: nat): nat
    requires n <= |probes|
  {
    if n == 0 then 0 else SelectorCount(probes, n - 1) + if probes[n - 1].target.selector != "" then 1 else 0
  }

  /** The first target with a selector that finds the API missing. */
  ghost predicate FirstMissing(probes: seq<Probe>, i: int) {
    && 0 <= i < |probes| && probes[i].target.selector != "" && probes[i].read == ApiMissing
    && forall j :: 0 <= j < i && probes[j].target.selector != "" ==> probes[j].read != ApiMissing
  }

  class MetricsServerSource {
    var warned: bool
    var warnings: nat

    constructor ()
      ensures !warned && warnings == 0
    {
      warned, warnings := false, 0;
    }

    /** Reads target by target; an absent API ends the tick, any other error skips the target. */
    method Samples(probes: seq<Probe>) returns (r: Outcome, asked: nat)
      modifies this
      ensures r == ServerAnswer(probes) && r.Answered? == Serves(probes)
      ensures warned == WarnedNext(old(warned), probes)
      ensures warnings == old(warnings) + (if HitsAbsentApi(probes) && !old(warned) then 1 else 0)
      ensures if r == Unavailable(ApiAbsent)
              then exists i :: FirstMissing(probes, i) && asked == SelectorCount(probes, i + 1)
              else asked == SelectorCount(probes, |probes|)
    {
      hide AsksAnyone, HasCleanRead, HitsAbsentApi, UsageSamples;
      NoProbes();
      assert probes[..0] == [];
      var out: Exposition.Samples := map[];
      var attempted, answered := false, false;
      asked := 0;
      for i := 0 to |probes|
        invariant out == UsageSamples(probes[..i]) && asked == SelectorCount(probes, i)
        invariant attempted == AsksAnyone(probes[..i]) && answered == HasCleanRead(probes[..i])
        invariant !HitsAbsentApi(probes[..i])
        invariant warned == old(warned) && warnings == old(warnings)
      {
        var p := probes[i];
        assert probes[..i + 1] == probes[..i] + [p];
        OneMoreProbe(probes[..i], p);
        if Asked(p) {
          attempted := true;
          asked := asked + 1;
          match p.read {
            case ApiMissing =>
              AbsentApiShows(probes, i);
              NothingAbsent(probes[..i]);
              assert forall j :: 0 <= j < i ==> probes[..i][j] == probes[j];
              ServerServes(probes);
              assert FirstMissing(probes, i);
              if !warned {
                warned := true;
                warnings := warnings + 1;
              }
              return Unavailable(ApiAbsent), asked;
            case ReadFailed =>
            case NoData =>
              answered := true;
            case Usage(cpu, mem) =>
              answered := true;
              out := out[p.target.slug := [MetricSample(METRIC_CPU_MILLICORES, cpu as real),
                                           MetricSample(METRIC_MEMORY_BYTES, mem as real)]];
          }
        }
      }
      assert probes[..|probes|] == probes;
      NothingAbsent(probes);
      ServerServes(probes);
      if answered {
        warned := false;
      }
      r := if attempted && !answered then Unavailable(AllReadsFailed) else Answered(out);
    }
  }

  /** With one target per slug, a service has samples exactly when its own read had usage, and they
      are that read's CPU and memory. */
  lemma {:induction false} UsageIsPerTarget(probes: seq<Probe>, p: Probe)
    requires p in probes
    requires forall i, j :: 0 <= i < j < |probes| ==> probes[i].target.slug != probes[j].target.slug
    ensures p.target.slug in UsageSamples(probes) <==> Asked(p) && p.read.Usage?
    ensures Asked(p) && p.read.Usage? ==>
              UsageSamples(probes)[p.target.slug] == [MetricSample(METRIC_CPU_MILLICORES, p.read.cpu as real),
                                                      MetricSample(METRIC_MEMORY_BYTES, p.read.mem as real)]
    decreases |probes|
  {
    var front, last := probes[..|probes| - 1], probes[|probes| - 1];
    assert probes == front + [last];
    if p in front {
      UsageIsPerTarget(front, p);
    } else {
      UsageNamesTargets(front, p.target.slug);
    }
  }

  /** When a slug is listed more than once, its last read with usage counts. */
  lemma {:induction false} UsageIsOfTheLast(probes: seq<Probe>, i: nat)
    requires i < |probes| && probes[i].target.selector != "" && probes[i].read.Usage?
    requires forall j :: i < j < |probes| && probes[j].target.slug == probes[i].target.slug ==>
               probes[j].target.selector == "" || !probes[j].read.Usage?
    ensures probes[i].target.slug in UsageSamples(probes)
    ensures UsageSamples(probes)[probes[i].target.slug] ==
            [MetricSample(METRIC_CPU_MILLICORES, probes[i].read.cpu as real),
             MetricSample(METRIC_MEMORY_BYTES, probes[i].read.mem as real)]
    decreases |probes|
  {
    var front := probes[..|probes| - 1];
    if i < |front| {
      assert front[i] == probes[i] && forall j :: 0 <= j < |front| ==> front[j] == probes[j];
      UsageIsOfTheLast(front, i);
    }
  }

  lemma {:induction false} UsageNamesTargets(probes: seq<Probe>, slug: string)
    ensures slug in UsageSamples(probes) ==> exists p :: p in probes && p.target.slug == slug
    decreases |probes|
  {
    if probes != [] {
      UsageNamesTargets(probes[..|probes| - 1], slug);
      assert probes == probes[..|probes| - 1] + [probes[|probes| - 1]];
    }
  }

  // ---- One warning per outage --------------------------------------------------------------------

  ghost function WarnedAfter(run: seq<seq<Probe>>, n: nat): bool
    requires n <= |run|
  {
    n > 0 && WarnedNext(WarnedAfter(run, n - 1), run[n - 1])
  }

  ghost predicate WarnsAt(run: seq<seq<Probe>>, i: nat)
    requires i < |run|
  {
    HitsAbsentApi(run[i]) && !WarnedAfter(run, i)
  }

  /** The outage the j-th tick hit is still standing before the n-th: no tick ran clean since. */
  ghost predicate OutageStands(run: seq<seq<Probe>>, n: nat, j: int)
    requires n <= |run|
  {
    && 0 <= j < n && FindsApiMissing(run[j])
    && forall k :: j < k < n ==> FindsApiMissing(run[k]) || !ReadsClean(run[k])
  }

  lemma {:induction false} LatchMeansOutage(run: seq<seq<Probe>>, n: nat) returns (j: int)
    requires n <= |run| && WarnedAfter(run, n)
    ensures OutageStands(run, n, j)
  {
    hide HitsAbsentApi, HasCleanRead, FindsApiMissing, ReadsClean, ServerAnswer;
    if n > 0 { ServerServes(run[n - 1]); }
    if HitsAbsentApi(run[n - 1]) {
      j := n - 1;
    } else {
      j := LatchMeansOutage(run, n - 1);
    }
  }

  lemma {:induction false} OutageMeansLatch(run: seq<seq<Probe>>, n: nat, j: int)
    requires n <= |run| && OutageStands(run, n, j)
    ensures WarnedAfter(run, n)
  {
    hide HitsAbsentApi, HasCleanRead, FindsApiMissing, ReadsClean, ServerAnswer;
    if n > 0 { ServerServes(run[n - 1]); }
    if j < n - 1 {
      OutageMeansLatch(run, n - 1, j);
    }
  }

  /** On every run a tick warns exactly when it hits an absent API and no earlier hit's outage still
      stands, whatever mix of healthy, failing, empty and selector-less targets the ticks hold. */
  lemma OneWarningPerOutage(run: seq<seq<Probe>>, i: nat)
    requires i < |run|
    ensures WarnsAt(run, i) <==> FindsApiMissing(run[i]) && !exists j :: OutageStands(run, i, j)
  {
    hide HitsAbsentApi, FindsApiMissing, OutageStands;
    ServerServes(run[i]);
    if WarnedAfter(run, i) {
      var _ := LatchMeansOutage(run, i);
    }
    if j :| OutageStands(run, i, j) {
      OutageMeansLatch(run, i, j);
    }
  }

  // ---- Falling back and coming back --------------------------------------------------------------

  const AUTO_RETRY_INTERVAL := 300_000_000_000

  /** One call of the composite: what each source would answer and the two clock readings it may take. */
  datatype Call = Call(dueClock: int, primary: Outcome, failClock: int, fallback: Outcome)

  datatype Auto = Auto(switched: bool, switchedAt: int) {
    /** Whom Name() names: the fallback, or else the primary. */
    predicate NamesFallback() { switched }

    function DueForRetry(now: int): bool { switchedAt == 0 || now - switchedAt >= AUTO_RETRY_INTERVAL }
  }

  /** What one call did: the state it left, the result, whom it asked and who answered. */
  datatype Served = Served(state: Auto, result: Outcome, askedPrimary: bool, byFallback: bool)

  function Serve(s: Auto, c: Call): Served {
    if s.switched && !s.DueForRetry(c.dueClock) then Served(s, c.fallback, false, true)
    else if c.primary.Unavailable? then Served(Auto(true, c.failClock), c.fallback, true, true)
    else Served(if c.primary.Answered? then s.(switched := false) else s, c.primary, true, false)
  }

  class AutoSource {
    var switched: bool
    var switchedAt: int

    constructor ()
      ensures State() == Auto(false, 0)
    {
      switched, switchedAt := false, 0;
    }

    function State(): Auto
      reads this
    {
      Auto(switched, switchedAt)
    }

    /** Name(): the fallback's name, or else the primary's. */
    function Name(primary: string, fallback: string): string
      reads this
    {
      if State().NamesFallback() then fallback else primary
    }

    method Samples(c: Call) returns (r: Outcome, askedPrimary: bool, byFallback: bool)
      modifies this
      ensures Served(State(), r, askedPrimary, byFallback) == Serve(old(State()), c)
      ensures forall primary, fallback :: primary != fallback ==>
                (Name(primary, fallback) == (if byFallback then fallback else primary) <==>
                   !(old(switched) && askedPrimary && c.primary.Failed?))
    {
      askedPrimary, byFallback := false, true;
      if switched && !State().DueForRetry(c.dueClock) {
        return c.fallback, false, true;
      }
      askedPrimary := true;
      if !c.primary.Unavailable? {
        if c.primary.Answered? && switched {
          switched := false;
        }
        return c.primary, true, false;
      }
      switchedAt := c.failClock;
      switched := true;
      r := c.fallback;
    }
  }

  ghost function StateAfter(run: seq<Call>, n: nat): Auto
    requires n <= |run|
  {
    if n == 0 then Auto(false, 0) else Serve(StateAfter(run, n - 1), run[n - 1]).state
  }

  ghost function ServedAt(run: seq<Call>, i: nat): Served
    requires i < |run|
  {
    Serve(StateAfter(run, i), run[i])
  }

  /** The i-th call is the one that put the source on its fallback, as seen before the n-th: it found
      the primary unavailable, and since then no probe found it unavailable again or answering. */
  ghost predicate OnFallbackSince(run: seq<Call>, n: nat, i: int)
    requires n <= |run|
  {
    && 0 <= i < n && ServedAt(run, i).askedPrimary && run[i].primary.Unavailable?
    && forall k :: i < k < n ==> ServedAt(run, k).askedPrimary ==> run[k].primary.Failed?
  }

  lemma StaysOnFallback(s: Auto, c: Call)
    requires Serve(s, c).state.switched && !(Serve(s, c).askedPrimary && c.primary.Unavailable?)
    ensures s.switched && (Serve(s, c).askedPrimary ==> c.primary.Failed?)
  {
  }

  lemma {:induction false} SwitchedMeansFallback(run: seq<Call>, n: nat) returns (i: int)
    requires n <= |run| && StateAfter(run, n).switched
    ensures OnFallbackSince(run, n, i)
  {
    hide Serve;
    if ServedAt(run, n - 1).askedPrimary && run[n - 1].primary.Unavailable? {
      i := n - 1;
    } else {
      StaysOnFallback(StateAfter(run, n - 1), run[n - 1]);
      i := SwitchedMeansFallback(run, n - 1);
    }
  }

  lemma {:induction false} FallbackMeansSwitched(run: seq<Call>, n: nat, i: int)
    requires n <= |run| && OnFallbackSince(run, n, i)
    ensures StateAfter(run, n) == Auto(true, run[i].failClock)
  {
    if i < n - 1 {
      FallbackMeansSwitched(run, n - 1, i);
    }
  }

  /** On every run the primary is asked exactly when the source is not on its fallback, or the
      cooldown since the call that put it there has passed; a zero clock reading counts as never. */
  lemma PrimaryIsAskedWhenDue(run: seq<Call>, n: nat)
    requires n < |run|
    ensures ServedAt(run, n).askedPrimary <==>
              forall i :: OnFallbackSince(run, n, i) ==>
                run[i].failClock == 0 || run[n].dueClock - run[i].failClock >= AUTO_RETRY_INTERVAL
  {
    hide OnFallbackSince;
    forall i | OnFallbackSince(run, n, i) ensures 0 <= i < n && StateAfter(run, n) == Auto(true, run[i].failClock) {
      FallbackMeansSwitched(run, n, i);
      assert 0 <= i < n by { FallbackIsEarlier(run, n, i); }
    }
    if StateAfter(run, n).switched {
      var _ := SwitchedMeansFallback(run, n);
    }
  }

  lemma FallbackIsEarlier(run: seq<Call>, n: nat, i: int)
    requires n <= |run| && OnFallbackSince(run, n, i)
    ensures 0 <= i < n
  {
  }

  /** The result is the fallback's exactly when the primary was not asked or was unavailable, and otherwise
      the primary's, failures included. */
  lemma ResultIsTheAnswerers(run: seq<Call>, i: nat)
    requires i < |run|
    ensures var s := ServedAt(run, i);
            && (s.byFallback <==> !s.askedPrimary || run[i].primary.Unavailable?)
            && s.result == if s.byFallback then run[i].fallback else run[i].primary
  {
  }

  /** After an unavailable read, that call and every call within the cooldown are answered by the
      fallback, without asking the primary again, and Name() says so. */
  lemma {:induction false} CooldownIsServedByFallback(run: seq<Call>, i: nat, k: nat)
    requires i <= k < |run| && ServedAt(run, i).askedPrimary && run[i].primary.Unavailable? && run[i].failClock != 0
    requires forall j :: i < j <= k ==> run[j].dueClock - run[i].failClock < AUTO_RETRY_INTERVAL
    ensures ServedAt(run, k).byFallback && ServedAt(run, k).result == run[k].fallback
    ensures k > i ==> !ServedAt(run, k).askedPrimary
    ensures StateAfter(run, k + 1) == Auto(true, run[i].failClock)
    decreases k
  {
    if i < k {
      CooldownIsServedByFallback(run, i, k - 1);
    }
  }

  /** The first error-free probe goes back to the primary, and stays: the next call asks it too. */
  lemma CleanProbeReturnsToPrimary(run: seq<Call>, i: nat)
    requires i < |run| && ServedAt(run, i).askedPrimary && run[i].primary.Answered?
    ensures !ServedAt(run, i).byFallback && ServedAt(run, i).result == run[i].primary
    ensures i + 1 < |run| ==> ServedAt(run, i + 1).askedPrimary
  {
  }

  /** Name() names the source whose result was returned, except exactly when a probe of the primary
      on the fallback fails for a reason other than being unavailable. */
  lemma NameIsWrongExactlyOnFailedProbes(run: seq<Call>, i: nat)
    requires i < |run|
    ensures StateAfter(run, i + 1).NamesFallback() == ServedAt(run, i).byFallback <==>
              !(StateAfter(run, i).switched && ServedAt(run, i).askedPrimary && run[i].primary.Failed?)
  {
  }

  /** Such a run: unavailable, then after the cooldown a plain failure. */
  lemma AFailedProbeIsMisnamed()
    ensures exists run: seq<Call> :: |run| == 2 && StateAfter(run, 2).NamesFallback() && !ServedAt(run, 1).byFallback
  {
    var run := [Call(0, Unavailable(ApiAbsent), 1, Failed), Call(1 + AUTO_RETRY_INTERVAL, Failed, 0, Failed)];
    assert StateAfter(run, 1) == Serve(StateAfter(run, 0), run[0]).state == Auto(true, 1);
  }

  /** Metrics-server only ever answers or reports itself unavailable, so with it as the primary
      Name() is right after every call of every run. */
  lemma NameNamesTheAnswerer(run: seq<Call>, probes: seq<seq<Probe>>, i: nat)
    requires i < |run| == |probes| && forall k :: 0 <= k < |run| ==> run[k].primary == ServerAnswer(probes[k])
    ensures StateAfter(run, i + 1).NamesFallback() == ServedAt(run, i).byFallback
  {
    hide HitsAbsentApi, AsksAnyone, HasCleanRead, UsageSamples;
    assert run[i].primary == ServerAnswer(probes[i]);
    NameIsWrongExactlyOnFailedProbes(run, i);
  }
}
