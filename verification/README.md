# Verified model of the exposition pipeline

The agent reports one heartbeat per annotated Deployment and, when it can, CPU and memory samples for
it. Samples come from metrics-server or, where that API is absent, from scraping a Prometheus
exposition. This project models that pipeline, from the bytes of a scrape to the batch, and proves
what it promises over whole runs of heartbeats.

| file | what it models |
|---|---|
| `Series.dfy` | a decoded series and its length-prefixed fingerprint |
| `Decode.dfy` | body cap, keep filter and sample budget of one scrape |
| `MetricNames.dfy`, `RowPolicy.dfy`, `Resolve.dfy` | names up to unit suffixes, the rows that may be summed, the family that supplies a role |
| `Rate.dfy` | the Rater: counters differenced across scrapes under a tracking ceiling |
| `SlugIndex.dfy`, `Reduce.dfy` | attributing rows to services, and the all-or-nothing sums per service |
| `WithheldReport.dfy` | the warning about withheld services, once per change of the set |
| `Exposition.dfy`, `ExpositionRuns.dfy` | the exposition source as an object, and theorems about its runs |
| `RatedRuns.dfy`, `RowOrder.dfy`, `ScrapedRows.dfy` | the Rater's theorems over runs of the source, when the order of rows matters, and which rows and families show at all |
| `Sources.dfy` | metrics-server with its once-per-outage warning, and the fallback with its cooldown |
| `AutoRuns.dfy` | the automatic mode: the fallback wired to both sources, each with its own memory |
| `Collect.dfy`, `EndToEnd.dfy` | first-Deployment-wins gathering, folding the answer into heartbeats, and the two composed |
| `Text.dfy`, `Sums.dfy`, `Wrappers.dfy` | byte-string order and joining, finite sums, results |

Objects whose methods update fields (`Rater`, `ExpositionSource`, `MetricsServerSource`, `AutoSource`,
`AutoModeSource`, `Agent`) are classes; each method's contract equates the new state and the result with a function of
the old state, and the run theorems are about iterating those functions.
What such a function decides is also stated in terms of its inputs alone: labels, names, metric types,
reads, Deployments and answers (`RowPolicy.SummableRowsSurvive`, `Decode.DecodedRowsAre`,
`Resolve.CpuIsSelected`, `SlugIndex.ResolveDecidesBelonging`, `ExpositionRuns.CpuSampleIsTheIncrease`,
`Sources.ServerServes`, `Collect.ReportHolds`).

Conventions. A `char` is one byte of a Go string. Values are reals and clocks are integer
nanoseconds; a value is finite when its magnitude is at most the largest float64. Scrape results,
Kubernetes listings and clock readings are inputs, so that a run is a sequence of ticks. `map`
iteration is an arbitrary choice, so results hold for every iteration order.

Where prose and code differ, the code is modelled. The repository's README calls the fallthrough to
the exposition one-way (README.md:67); the code comes back on a cooldown
(internal/agent/source.go:159-216). The comment on `Observe` speaks of a returned kind
(internal/scrape/rate.go:60-62); the function returns rates keyed by fingerprint.

Three facts that do not hold of the code without a condition, with the exact condition of each:

- `AutoSource.Name` misnames the source after a failing probe. `Sources.NameIsWrongExactlyOnFailedProbes`
  gives the exact condition, `Sources.AFailedProbeIsMisnamed` a run, and `Sources.NameNamesTheAnswerer`
  shows that metrics-server as the primary never produces one.
- One namespace's container can delete another namespace's total, although the comment on `summable`
  (internal/scrape/resolve.go:144-146) says it cannot: a pod key joins the two names with a plain 0x1f,
  and a peer chooses both labels. `RowPolicy.AForeignContainerDeletesATotal` shows two such rows.
  `RowPolicy.CoverNamesThePod` says exactly which totals are safe from every row a peer could send: those
  whose own key reads as a namespace and a pod in one way only.
- The withheld warning compares comma-joined slugs, so a changed set can go unreported.
  `WithheldReport.WarnsOnEveryNewSignature` holds for all slugs. `WithheldReport.ALoneSlugIsAmbiguous` says
  exactly which slugs read like another set of services: those in which some comma stands between an
  earlier and a later name, such as "a,b" but not "b,a". Each of them has a run that hides a change
  (`WithheldReport.CommasHideAChange`); without any of them the warning follows the set
  (`WithheldReport.WarnsOnEveryNewSet`), and also when no slug is another slug followed by a comma.

Assumptions that appear as hypotheses. Rows of one scrape that are the same series carry the same
value: the Prometheus text exposition format 0.0.4, section "Grouping and sorting", allows each name
and label combination once (`Rate.DisagreeingRowsBreakTheCeiling` shows what happens otherwise).
Kubernetes namespaces, pod names and Deployment names do not contain the byte 0x1f
(`SlugIndex.SeparatorFree`, `Collect.PairKeyIdentifies`). Labels of scraped rows and slugs may contain
anything, except where a lemma states its condition.

## Model

| member | source | states |
|---|---|---|
| SeriesIdentity.FingerprintIdentifies | internal/scrape/scrape.go:124-149 | two series share a fingerprint exactly when names and label maps are equal, for arbitrary bytes including digits and colons |
| SeriesIdentity.FrameIsPrefixFree | internal/scrape/scrape.go:163-167 | a length-prefixed part can be told from what follows it |
| SeriesIdentity.FramesAreInjective | internal/scrape/scrape.go:141-148 | the written parts are determined by the fingerprint |
| SeriesIdentity.DecimalIsInjective | internal/scrape/scrape.go:163-164 | decimal lengths are unambiguous |
| SeriesIdentity.LenPrefixedSize | internal/scrape/scrape.go:151-161 | the digit-counting loop predicts the exact number of bytes written for one part |
| SeriesIdentity.PresizedLength | internal/scrape/scrape.go:133-138 | the builder size summed in map iteration order is the exact length of the fingerprint written in sorted order |
| SeriesIdentity.Fingerprint | internal/scrape/scrape.go:132-149 | the loops write the fingerprint, into a builder of exactly its length |
| Text.ListingIsUnique | internal/scrape/scrape.go:139 | sorting erases iteration order: a set has one ascending listing |
| Decode.SeriesFromFamily | internal/scrape/scrape.go:321-352 | a family converts whole when its usable rows fit the budget and not at all otherwise |
| Decode.DecodeAll | internal/scrape/scrape.go:289-309 | decoding succeeds exactly when the body parses and the usable rows of admitted families are at most MaxSamples, and then returns exactly those rows in order |
| Decode.DecodedRowsAre | internal/scrape/scrape.go:289-363 | the decoded rows are, one to one and in order, the finite metrics of the kept COUNTER, GAUGE and UNTYPED families, each with its family's name, its metric's value, the last value of each label and kind counter exactly for COUNTER; too many are refused before a malformed body is |
| Decode.Fetch | internal/scrape/scrape.go:237-247 | only bodies within the cap are parsed, and whole; a failed request and a body over the cap are errors, whatever the body holds |
| Decode.CapIsAffordable | internal/scrape/scrape.go:249-284 | the cap is positive and limit+1 fits an int64; a cap above the default times the expansion factor is within the heap limit; a setting above the default is honoured exactly when that affords it and it is at most 16 MiB; a setting not honoured means the default |
| Decode.FilterCommutes | internal/scrape/scrape.go:300-302 | filtering families before decoding is filtering rows after it |
| Decode.PushdownPreservesSelection | internal/scrape/resolve.go:381-391 | if decoding everything succeeds, decoding only the candidate families succeeds and every role selects the same |
| Decode.SelectionIsHomogeneous | internal/scrape/resolve.go:325-328 | with distinct family names, the rows of a selection all have the selection's kind |
| MetricNames.NormalizeName | internal/scrape/resolve.go:71-84 | the sweep terminates with the base name for every order of the suffix list |
| MetricNames.OneSuffixApplies | internal/scrape/resolve.go:69 | no name ends with two unit suffixes, so the order of trying cannot matter |
| MetricNames.BaseDecomposes | internal/scrape/resolve.go:71-84 | the base is a fixpoint, is not empty for a non-empty name, and the name is the base plus unit suffixes |
| MetricNames.BaseIsUnique | internal/scrape/resolve.go:71-84 | it is the only such fixpoint |
| MetricNames.BaseIsIdempotent | internal/scrape/resolve.go:71-84 | normalizing twice is normalizing once |
| MetricNames.SuffixesDoNotMatter | internal/scrape/resolve.go:61-69 | appending any sequence of unit suffixes to a non-empty name leaves the base unchanged |
| RowPolicy.PodKeyIdentifies | internal/scrape/resolve.go:265-274 | a pod key determines namespace and pod when namespaces are free of the separator |
| RowPolicy.KeyReadsOneWay | internal/scrape/resolve.go:265-274 | with arbitrary names, a key names one pod exactly when no other separator in it could end a namespace |
| RowPolicy.LabelsOf | internal/scrape/resolve.go:229-283 | a row names its pod, namespace and container under either spelling, the first with a value |
| RowPolicy.RegisterContainers | internal/scrape/resolve.go:148-165 | the first sweep registers exactly the pod keys, pod names and mixed-shape pods with container rows |
| RowPolicy.Summable | internal/scrape/resolve.go:147-182 | the sweeps keep exactly the rows that are neither pause rows nor covered totals, count the rest, and list the ambiguous pods ascending |
| RowPolicy.SummableRowsSurvive | internal/scrape/resolve.go:104-182 | by the labels alone: a row is kept, in place, exactly when its container is not the pause container and it is not a container-less row of a pod with container rows |
| RowPolicy.AmbiguousByLabels | internal/scrape/resolve.go:102-182 | by the labels alone: a pod is reported ambiguous exactly when it has a total without a namespace next to container rows with one |
| RowPolicy.NoPodIsCountedTwice | internal/scrape/resolve.go:119-146 | whatever the labels contain, a kept total has no container row of its namespace and pod, nor, naming no namespace, of its pod name |
| RowPolicy.NoPodIsLost | internal/scrape/resolve.go:119-146 | every container row is kept, and every other dropped row that is no pause row leaves a kept container row covering it |
| RowPolicy.CoverNamesThePod | internal/scrape/resolve.go:132-146 | a namespaced total is dropped for container rows of that very pod only, whatever rows a peer sends, exactly when the total's own key reads one way |
| RowPolicy.AForeignContainerDeletesATotal | internal/scrape/resolve.go:144-146 | otherwise another namespace's container does delete a total |
| RowPolicy.PolicyIgnoresOrder | internal/scrape/resolve.go:147-196 | permuting rows permutes the kept rows and changes neither count nor ambiguous pods |
| RowPolicy.PolicyIsIdempotent | internal/scrape/resolve.go:147-182 | reapplying the policy removes nothing |
| RowPolicy.NothingStaysAmbiguous | internal/scrape/resolve.go:102-107 | no pod is ambiguous among the rows kept |
| Resolve.FindWinner | internal/scrape/resolve.go:336-356 | the loop finds the candidate's own spelling, or else the first matching family |
| Resolve.MatchFamily | internal/scrape/resolve.go:336-368 | it returns that family's rows, all of them, and reports whether there are any |
| Resolve.FamilyIsOne | internal/scrape/resolve.go:325-335 | a family is found exactly when a row matches; all its rows and only its rows are taken; the own spelling wins over arrival order |
| Resolve.Resolver.Candidates | internal/scrape/resolve.go:370-379 | every role has candidates and none is nameless, whatever the overrides |
| Resolve.Resolver.CandidateNames | internal/scrape/resolve.go:381-391 | the keep set is the set of bases of both roles' candidates |
| Resolve.Resolver.Select | internal/scrape/resolve.go:307-323 | the loop returns the first candidate with a family, with the summable rows, the excluded count and the ambiguous pods |
| Resolve.CpuIsSelected | internal/scrape/resolve.go:45-60 | in names and rows: with a CPU override the family of that very name and nothing else, without one the earliest of the three built-in bases that a row's name normalizes to; scale 1000, exactly its surviving rows, the excluded count and the ambiguous pods |
| Resolve.MemoryIsSelected | internal/scrape/resolve.go:45-60 | the same for memory, with its own override, two built-in bases and scale 1 |
| Resolve.RolesAreIndependent | internal/scrape/resolve.go:370-379 | the other role's override does not matter |
| Resolve.WantedBases | internal/scrape/resolve.go:381-391 | the keep set is exactly the bases of the overrides, or of the built-in names where there is none |
| Resolve.SelectionSurvivesNarrowing | internal/scrape/resolve.go:307-391 | selecting among rows of wanted families only is selecting among all rows |
| Rate.Rater.Observe | internal/scrape/rate.go:76-139 | the three passes as one function of the old table, with the exact refused flag and precedence of established series |
| Rate.Rater.CarryPass | internal/scrape/rate.go:101-109 | the first pass, which stops when the table is full, loses nothing by stopping |
| Rate.AdmissionGuarantees | internal/scrape/rate.go:70-119 | the table has min(ceiling, distinct fingerprints) entries, refused is set exactly beyond the ceiling, established series keep their place, and new ones enter only into room they leave |
| Rate.ObservedIsDifference | internal/scrape/rate.go:121-137 | rates are exactly the differences between successive tables, and the table is the whole scrape when it fits |
| Rate.CeilingNeverFalsifies | internal/scrape/rate.go:10-15 | on every run and for every ceiling the rates are among those of the unbounded difference against the last scrape |
| Rate.FittingScrapesRateInFull | internal/scrape/rate.go:17-19 | while two successive scrapes fit, the rates are the unbounded ones |
| Rate.DisagreeingRowsBreakTheCeiling | internal/scrape/rate.go:101-119 | with two disagreeing rows of one series, there is a run whose rate under a ceiling is not its rate under a larger one |
| Rate.TrackedStaysTracked | internal/scrape/rate.go:73-75 | over a run, a tracked series that keeps appearing is never displaced |
| Rate.SteadyRate | internal/scrape/rate.go:129-134 | such a series that never decreases rates at every scrape, and rate times elapsed is the increase |
| Rate.RatesTelescope | internal/scrape/rate.go:121-137 | rates are non-negative and, times the elapsed times, add up to last value minus first |
| SlugIndex.NewIndex | internal/agent/exposition.go:418-438 | the nested loops build the index of all claims in target order |
| SlugIndex.FoldsAreSound | internal/agent/exposition.go:424-436 | a namespaced key holds its last claimant; a bare name holds its only slug and is blank once two slugs claim it |
| SlugIndex.ResolveDecidesBelonging | internal/agent/exposition.go:440-461 | a row resolves to a slug exactly when it belongs to it: known slug label with no fallback, else last target listing the pod in that namespace, else the one slug all targets listing the bare name share |
| SlugIndex.ResolveIgnoresTargetOrder | internal/agent/exposition.go:418-461 | when no pod is claimed by two slugs in one namespace, the order of targets does not matter |
| SlugIndex.ResolvedSlugIsATargets | internal/agent/exposition.go:443-461 | every resolved slug is a target's slug |
| Reduce.Accumulate | internal/agent/exposition.go:252-273 | the loop's totals, contributors and incomplete services are the sums and sets over the rows |
| Reduce.Reduce | internal/agent/exposition.go:239-318 | one sample is appended for exactly the complete, finite services, whatever order the contributors are visited in |
| Reduce.EmittedIsAllOrNothing | internal/agent/exposition.go:229-233 | a service is emitted exactly when it owns a row, every row it owns has a reading, and the scaled total is finite |
| Reduce.EmissionConservesUsage | internal/agent/exposition.go:252-317 | emitted values add up to scale times the readings of the rows owned by the emitted services, each row once |
| Reduce.TotalsPartitionUsage | internal/agent/exposition.go:257-273 | per-service totals partition the usage of any set of services |
| Reduce.EmissionIgnoresRowOrder | internal/agent/exposition.go:257-317 | permuting rows changes neither samples nor withheld services |
| Reduce.FewerRatesNeverFalsify | internal/agent/exposition.go:229-233 | with fewer rates a service falls silent or reports the same number |
| WithheldReport.ReportWithheld | internal/agent/exposition.go:376-399 | one report: clear on an empty set, stay quiet on a first observation or an unchanged signature, warn otherwise |
| WithheldReport.WarnsOnEveryNewSignature | internal/agent/exposition.go:376-399 | over every run, a warning is logged exactly when the joined list is not the one last warned about since the last empty set |
| Text.AscendingJoinIsInjective | internal/agent/exposition.go:377-392 | ascending lists are determined by their joined text when no part splits at a separator into an earlier and a later piece |
| Text.JoinIsInjective | internal/agent/exposition.go:377-392 | so are lists none of whose parts is another followed by the separator |
| WithheldReport.SignatureIsInjective | internal/agent/exposition.go:377-392 | the sorted join determines the set for slugs that can be told apart |
| WithheldReport.ALoneSlugIsAmbiguous | internal/agent/exposition.go:377-392 | a slug reads like another set of services exactly when some comma in it stands between an earlier and a later name |
| WithheldReport.WarnsOnEveryNewSet | internal/agent/exposition.go:65-69 | for slugs that can be told apart the warning follows changes of the set over every run |
| WithheldReport.CommasHideAChange | internal/agent/exposition.go:392-395 | every slug that reads like another set has a run in which a changed set goes unreported |
| Exposition.ExpositionSource.Samples | internal/agent/exposition.go:110-153 | one tick: the answer, the Rater's next table, both latches and the warnings as functions of the old state |
| Exposition.ExpositionSource.RateCounters | internal/agent/exposition.go:201-224 | one Rater pass over all rateable rows, and none at all without a rateable selection |
| Exposition.ExpositionSource.ReduceRole | internal/agent/exposition.go:239-318 | one role's samples and its withheld report; a role that cannot be rated touches neither |
| ExpositionRuns.TableFollowsLastRateable | internal/agent/exposition.go:195-213 | after any run the Rater holds the last rateable tick, cut to the ceiling; failed scrapes and ticks without the family in between do not disturb it |
| ExpositionRuns.RowRate | internal/scrape/rate.go:64-68 | a row rates exactly when the clock advanced and the same series was there before with a value no higher; the rate is the rise over the time elapsed |
| ExpositionRuns.CpuSampleIsTheIncrease | internal/agent/exposition.go:110-318 | over every run that fits the ceiling, a service gets a counter-based CPU sample exactly when a rate is due to it, and it is scale times the sum of the rises over the time since the last rateable tick |
| ExpositionRuns.GaugeSampleIsTheSum | internal/agent/exposition.go:257-317 | a gauge sample is scale times the sum of the rows that belong to the service, with no history |
| ExpositionRuns.OnlyCpuCountersAreRated | internal/scrape/resolve.go:110-117 | a memory counter yields neither samples nor a withheld report; a CPU counter's rows are what the Rater is fed |
| ExpositionRuns.WithheldAreTheUnrated | internal/agent/exposition.go:257-305 | over every run that fits the ceiling, a counter-based CPU report withholds exactly the services owning a row whose series has no rate, and a gauge withholds nobody |
| ExpositionRuns.FirstObservationIs | internal/agent/exposition.go:145 | a reduction is a first observation exactly when no earlier tick fed the Rater, or the last that did had no counter rows |
| ExpositionRuns.SamplesAreFinite | internal/agent/exposition.go:312-316 | no sample exceeds the largest float64 |
| ExpositionRuns.FailedScrapeIsPassedOn | internal/agent/exposition.go:112-116 | a failed scrape fails the answer with its own error and leaves the Rater and both reports alone |
| ExpositionRuns.CeilingNeverFalsifiesSamples | internal/agent/exposition.go:177-193 | over every run and ceiling, a service's sample is absent or the one an unbounded Rater gives |
| ExpositionRuns.FittingRunIsReference | internal/agent/exposition.go:201-224 | while rateable ticks fit, the samples are the unbounded ones |
| ExpositionRuns.AnswerReportsTargetsOncePerKey | internal/agent/exposition.go:148-152 | an answer names targets only, and gives each at most a CPU then a memory sample |
| ExpositionRuns.FilteredScrapeAnswersAlike | internal/agent/exposition.go:112 | scraping with the keep filter answers and rates like scraping everything |
| ExpositionRuns.AnswerIgnoresTargetOrder | internal/agent/exposition.go:144-152 | the order of discovered services changes nothing when pods have one owner |
| ExpositionRuns.WithheldWarningsFollowTheSet | internal/agent/exposition.go:305-399 | over every run of the source a role warns exactly on a new non-empty withheld set that is no first observation, for slugs that can be told apart, and the one warning lists exactly that set |
| RatedRuns.SourceRunsTheRater | internal/agent/exposition.go:201-224 | the source's table is that of a Rater run on the scrapes that reached it, and a rateable tick gets that run's rates |
| RatedRuns.TrackedSeriesStays | internal/scrape/rate.go:73-75 | over ticks of the source, a tracked series that is in every scrape reaching the Rater is never displaced, whatever failed in between |
| RatedRuns.TickRatesTelescope | internal/agent/exposition.go:195-213 | the rates the source emits for a steady series, times the time since the last rateable tick, add up to the counter's rise across failed scrapes and ticks without the family |
| RowOrder.WinnerIgnoresOrder | internal/scrape/resolve.go:330-335 | the winning family is the same in every order of the rows exactly when the candidate's own spelling is there or only one matching name is |
| RowOrder.DecodedRowsHaveOneKind | internal/scrape/scrape.go:289-309 | rows decoded from distinctly named families have one kind per name |
| RowOrder.AnswerIgnoresRowOrder | internal/agent/exposition.go:110-153 | permuting the rows and families of a consistent scrape that fits the ceiling and whose families are unmistakable changes neither the answer nor what is remembered |
| RowOrder.RunIgnoresRowOrder | internal/agent/exposition.go:110-153 | nor does it over a whole run of such scrapes |
| ScrapedRows.CounterFamiliesAreRated | internal/scrape/scrape.go:354-363 | with distinct family names, a selection is a counter exactly when its family is of type COUNTER, and CPU is rated exactly then |
| ScrapedRows.PauseRowsNeverShowInRuns | internal/scrape/resolve.go:242-249 | over every run, changing what pause containers measure changes no answer, no rate and no report |
| Sources.MetricsServerSource.Samples | internal/agent/source.go:108-143 | it answers exactly when no target with a selector finds the API missing and, unless there is none, some read is clean; targets are read up to the first missing API; latch and warning move accordingly |
| Sources.ServerServes | internal/agent/source.go:108-143 | the API is reported absent exactly when some read finds it missing, all reads failed exactly when some target is read and every read fails, and nothing else goes wrong |
| Sources.UsageIsPerTarget | internal/agent/source.go:127-134 | with one target per slug, a service has samples exactly when its own read had usage, and they are that read's |
| Sources.UsageIsOfTheLast | internal/agent/source.go:127-134 | a slug listed more than once gets its last read with usage |
| Sources.OneWarningPerOutage | internal/agent/source.go:79-88 | a tick warns exactly when it hits an absent API and no earlier outage still stands |
| Sources.AutoSource.Samples | internal/agent/source.go:190-217 | one call of the composite: whom it asks, who answers, the state it leaves, and when Name names the answerer |
| Sources.ResultIsTheAnswerers | internal/agent/source.go:197-217 | the result is the fallback's exactly when the primary was not asked or was unavailable, and otherwise the primary's, failures included |
| Sources.PrimaryIsAskedWhenDue | internal/agent/source.go:183-200 | on every run the primary is asked exactly when not on the fallback or the cooldown has passed |
| Sources.CooldownIsServedByFallback | internal/agent/source.go:159-200 | after an unavailable read, that call and all calls within five minutes are answered by the fallback without asking the primary |
| Sources.CleanProbeReturnsToPrimary | internal/agent/source.go:202-209 | the first error-free probe returns to the primary and the next call asks it again |
| Sources.NameIsWrongExactlyOnFailedProbes | internal/agent/source.go:190-209 | Name names the source that answered, except exactly after a probe that fails without being unavailable |
| Sources.AFailedProbeIsMisnamed | internal/agent/source.go:203-208 | such a run exists |
| Sources.NameNamesTheAnswerer | internal/agent/source.go:51-59 | with metrics-server as the primary Name is right after every call |
| AutoRuns.AutoModeSource.Samples | internal/agent/source.go:197-261 | one heartbeat of the automatic mode over both objects: the result, whom it asked and the whole state left; a source that is not asked remembers what it did before |
| AutoRuns.PartsLiveTheirOwnRuns | internal/agent/source.go:197-261 | over every run the switch follows all calls, metrics-server the heartbeats that asked it, and the exposition's table and latches those the fallback served |
| AutoRuns.HeartbeatIsACall | internal/agent/source.go:197-217 | each heartbeat is served as the corresponding call of the composite, so what holds of its runs holds of the automatic mode |
| AutoRuns.AutoAsksWhenDue | internal/agent/source.go:183-200 | over every run of heartbeats metrics-server is asked exactly when it served the last heartbeat that asked it, or five minutes have passed since it could not, by the clocks of the two heartbeats |
| AutoRuns.AutoFallsBackExactly | internal/agent/source.go:108-217 | a heartbeat that asks metrics-server goes to the exposition exactly when some read finds the API missing, or some target is read and every read fails; otherwise it gets the usage read |
| AutoRuns.AutoFallbackResult | internal/agent/source.go:215-217 | the fallback's result is the exposition's answer, or a failure when the scrape failed |
| AutoRuns.AutoCpuSampleIsTheIncrease | internal/agent/source.go:215-217 | when the fallback serves, a service's CPU sample is due and equals the increase since the last rateable tick the fallback served, whatever metrics-server answered in between |
| AutoRuns.AutoWarningsFollowTheSet | internal/agent/exposition.go:305-399 | withheld warnings follow the sets withheld in the heartbeats the fallback served |
| AutoRuns.AutoWarnsOncePerOutage | internal/agent/source.go:79-88 | metrics-server warns once per outage seen by the heartbeats that asked it |
| Collect.Agent.Gather | internal/agent/agent.go:88-130 | the nested loops report the winners of the namespaces reached, aligned with their targets, and warn about every shadowed workload |
| Collect.Agent.Collect | internal/agent/agent.go:88-151 | the tick fails exactly when some listing fails; otherwise each winner, in order, is reported with its Deployment's facts and exactly the samples the source returned for its slug when asked about all winners' targets, none when the source failed; mapped is the number of heartbeats with samples and a per-role count the number carrying the role |
| Collect.ReportHolds | internal/agent/agent.go:88-151 | the same of the report as a value |
| Collect.HeartbeatTells | internal/agent/types.go:47-60 | slug, name, replica counts, status and the 32-bit restart total are the Deployment's, with no restarts where its pods were not listed |
| Collect.EntriesAre | internal/agent/agent.go:93-98 | the Deployments are met listing by listing, in order, each under its own namespace |
| Collect.ReachedIs | internal/agent/agent.go:93-97 | gathering stops at the first failed listing |
| Collect.ShadowedKeysAre | internal/agent/agent.go:103-106 | warned about are exactly the workloads whose slug an earlier one has, in order, under slug, namespace and name |
| Collect.Agent.WarnDuplicateSlug | internal/agent/agent.go:160-186 | one step of the bounded duplicate latch |
| Collect.WinnersAreFirst | internal/agent/agent.go:82-83 | reported are the first entries of every annotated slug, each slug once, in the order met |
| Collect.TargetsAlignWithHeartbeats | internal/agent/agent.go:121-128 | targets and heartbeats agree on distinct, non-empty slugs |
| Collect.DuplicateLogIsExact | internal/agent/agent.go:160-186 | over every run of duplicates the log is the first 1024 distinct pairs in the order met, each once, and one overflow line exactly when there are more |
| Collect.DuplicateLogIsBounded | internal/agent/agent.go:51-61 | so it never exceeds its bound and never repeats a line |
| Collect.PairKeyIdentifies | internal/agent/agent.go:160-186 | a key stands for one slug and workload, since Kubernetes names are free of the separator |
| Collect.FoldIn | internal/agent/agent.go:132-148 | each heartbeat gets exactly the samples answered for its slug, appended; nothing else of it changes; the counts are those of the fold |
| Collect.AnswersChangeOnlyMetrics | internal/agent/agent.go:188-206 | two answers of the source yield batches that differ in their metrics only |
| Collect.KeyCountIsServices | internal/agent/agent.go:134-148 | a per-role count is the number of services carrying the role, given one sample per role and service |
| Collect.EveryAnswerIsMapped | internal/agent/agent.go:135-146 | an answer naming reported services only is mapped completely |
| Collect.RestartsAreTheWrappedTotal | internal/agent/k8s.go:188-196 | the 32-bit restart sum is the wrapped true total |
| Collect.Int32IsCongruent | internal/agent/k8s.go:188-196 | wrapping yields the signed 32-bit number congruent to the total |
| Collect.AllRestartsAreSummed | internal/agent/k8s.go:188-196 | every container of every pod is counted |
| EndToEnd.ExpositionAnswersOncePerKey | internal/agent/exposition.go:307-317 | the exposition source gives a service at most one sample per key |
| EndToEnd.ServerAnswersOncePerKey | internal/agent/source.go:131-134 | so does metrics-server |
| EndToEnd.ReportedCountsAreEmittedServices | internal/agent/agent.go:132-148 | from Deployments to batch, the per-role counts are the numbers of services each role emitted, and no answered service is lost |
| EndToEnd.ServerCountsAreUsage | internal/agent/agent.go:132-148 | with metrics-server, both per-role counts and the mapped count are the number of services whose own read had usage |

## Left out

- HTTP transport, redirects, timeouts and JSON marshalling: foreign calls; only the body length arithmetic of `Fetch` is kept.
- The text parser: its result, a sequence of typed families and whether it reached the end, is an input.
- Float rounding and the overflow of intermediate sums: values are reals, and only the final value is checked against the largest float64.
- The boolean once-per-condition latches of the exposition source (unmatched, unresolved, unrateable, ambiguous, all dropped, Rater full): they would only add easy members; the withheld latch, which compares sets, is modelled.
- Log texts, Debug lines and self-metrics: output only; the gauges that `Collect` sets are returned instead.
- Kubernetes clients, selector rendering and pod metric summation: their results are inputs.
- Configuration parsing, URL validation and source selection at startup: no run-level property.
- `Agent.Tick` and `Agent.Run`: sending and scheduling.
- Goroutine interleavings: the Rater has a single caller and ticks are sequential.
- Int64 overflow of clock differences: clocks are unbounded integers.
