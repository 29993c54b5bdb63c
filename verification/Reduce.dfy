/** Summing a selection per service, all or nothing (internal/agent/exposition.go, `reduce`). */
module Reduce {
  import opened Wrappers
  import opened Text
  import opened Sums
  import opened SeriesIdentity
  import opened RowPolicy
  import opened Resolve
  import opened SlugIndex

  datatype MetricSample = MetricSample(key: string, value: real)

  const METRIC_CPU_MILLICORES := "cpu_millicores"
  const METRIC_MEMORY_BYTES := "memory_bytes"

  /** The largest finite float64; anything larger has become an infinity. */
  const MAX_FLOAT64: real := 179769313486231570814527423731704356798070567525844996598917476803157260780028538760589558632766878171540458953514382464234321326889464182768467546703537516986049910576551282076245490090389328944075868508455133942304583236903222948165808559332123347764797926204144723168738177180919299881250404026184124858368.0

  predicate IsFinite(v: real) { -MAX_FLOAT64 <= v <= MAX_FLOAT64 }

  function MetricKeyFor(role: Role): string {
    if role == Memory then METRIC_MEMORY_BYTES else METRIC_CPU_MILLICORES
  }

  /** What a row is read against: who owns it, and its rate when the selection is a counter. */
  datatype Context = Context(index: Index, slugLabel: string, rated: map<string, real>, rateable: bool) {
    function Owner(row: Series): Option<string> { index.Resolve(row, slugLabel) }

    /** The row's value, or its rate, or nothing when a counter row did not rate this tick. */
    ghost function Reading(row: Series): Option<real> {
      if !rateable then Some(row.value)
      else if FingerprintOf(row) in rated then Some(rated[FingerprintOf(row)]) else None
    }

    /** What the row adds to a service's total. */
    ghost function Share(slug: string): Series -> real {
      row => if Owner(row) == Some(slug) && Reading(row).Some? then Reading(row).value else 0.0
    }
  }

  ghost function Contributed(ctx: Context, rows: seq<Series>): set<string> {
    set row | row in rows && ctx.Owner(row).Some? && ctx.Reading(row).Some? :: ctx.Owner(row).value
  }

  /** The services some of whose rows have no rate. */
  ghost function Withheld(ctx: Context, rows: seq<Series>): set<string> {
    set row | row in rows && ctx.Owner(row).Some? && ctx.Reading(row).None? :: ctx.Owner(row).value
  }

  ghost function Total(ctx: Context, rows: seq<Series>, slug: string): real { SumOf(rows, ctx.Share(slug)) }

  ghost function Scaled(ctx: Context, rows: seq<Series>, slug: string, scale: real): real {
    Total(ctx, rows, slug) * scale
  }

  /** The samples a selection yields: the scaled total of every service that contributed, was not
      withheld and whose total is finite. */
  ghost function Emitted(ctx: Context, rows: seq<Series>, scale: real): map<string, real> {
    map slug |
      slug in Contributed(ctx, rows) && slug !in Withheld(ctx, rows) && IsFinite(Scaled(ctx, rows, slug, scale))
      :: Scaled(ctx, rows, slug, scale)
  }

  /** A cumulative counter the role cannot rate yields nothing. */
  predicate Unrateable(sel: Selection) { sel.kind == Counter && !sel.Rateable() }

  function ContextFor(sel: Selection, rated: map<string, real>, index: Index, slugLabel: string): Context {
    Context(index, slugLabel, rated, sel.Rateable())
  }

  ghost function Emission(sel: Selection, rated: map<string, real>, index: Index,
                          slugLabel: string): map<string, real>
  {
    if Unrateable(sel) then map[] else
    Emitted(ContextFor(sel, rated, index, slugLabel), sel.series, sel.candidate.scale)
  }

  function SamplesOf(out: map<string, seq<MetricSample>>, slug: string): seq<MetricSample> {
    if slug in out then out[slug] else []
  }

  /** One more sample for every service in `em`. */
  ghost function Appended(out: map<string, seq<MetricSample>>, key: string,
                          em: map<string, real>): map<string, seq<MetricSample>>
  {
    map slug | slug in out.Keys + em.Keys ::
      if slug in em then SamplesOf(out, slug) + [MetricSample(key, em[slug])] else SamplesOf(out, slug)
  }

  // ---- The accumulation loops --------------------------------------------------------------------

  ghost predicate Accumulates(totals: map<string, real>, ctx: Context, rows: seq<Series>) {
    forall slug :: (if slug in totals then totals[slug] else 0.0) == Total(ctx, rows, slug)
  }

  method Accumulate(sel: Selection, rated: map<string, real>, index: Index, slugLabel: string)
    returns (totals: map<string, real>, contributed: set<string>, incomplete: set<string>)
    ensures var ctx := ContextFor(sel, rated, index, slugLabel);
            && Accumulates(totals, ctx, sel.series)
            && contributed == Contributed(ctx, sel.series) && incomplete == Withheld(ctx, sel.series)
    ensures contributed <= totals.Keys
  {
    hide FirstLabel, FingerprintOf, Index.Resolve, Accumulates, Total;
    ghost var ctx := ContextFor(sel, rated, index, slugLabel);
    totals, contributed, incomplete := map[], {}, {};
    NothingAccumulated(ctx);
    for i := 0 to |sel.series|
      invariant Accumulates(totals, ctx, sel.series[..i]) && contributed <= totals.Keys
      invariant contributed == Contributed(ctx, sel.series[..i]) && incomplete == Withheld(ctx, sel.series[..i])
    {
      var row := sel.series[i];
      assert sel.series[..i + 1] == sel.series[..i] + [row];
      AccumulateStep(totals, ctx, sel.series[..i], row);
      OwnersGrow(ctx, sel.series[..i], row);
      match index.Resolve(row, slugLabel) {
        case None =>
        case Some(slug) =>
          var value, ok := row.value, true;
          if sel.Rateable() {
            var fp, _ := Fingerprint(row);
            ok := fp in rated;
            if ok { value := rated[fp]; }
          }
          if ok {
            totals := totals[slug := (if slug in totals then totals[slug] else 0.0) + value];
            contributed := contributed + {slug};
          } else {
            incomplete := incomplete + {slug};
          }
      }
    }
    assert sel.series[..|sel.series|] == sel.series;
  }

  lemma NothingAccumulated(ctx: Context)
    ensures Accumulates(map[], ctx, []) && Contributed(ctx, []) == {} && Withheld(ctx, []) == {}
  {
  }

  lemma OwnersGrow(ctx: Context, rows: seq<Series>, row: Series)
    ensures Contributed(ctx, rows + [row]) == Contributed(ctx, rows) +
              (if ctx.Owner(row).Some? && ctx.Reading(row).Some? then {ctx.Owner(row).value} else {})
    ensures Withheld(ctx, rows + [row]) == Withheld(ctx, rows) +
              (if ctx.Owner(row).Some? && ctx.Reading(row).None? then {ctx.Owner(row).value} else {})
  {
    hide Context.Owner, Context.Reading;
    assert forall r :: r in rows + [row] <==> r in rows || r == row;
  }

  lemma AccumulateStep(totals: map<string, real>, ctx: Context, rows: seq<Series>, row: Series)
    requires Accumulates(totals, ctx, rows)
    ensures if ctx.Owner(row).Some? && ctx.Reading(row).Some? then
              var slug := ctx.Owner(row).value;
              Accumulates(totals[slug := (if slug in totals then totals[slug] else 0.0) + ctx.Reading(row).value],
                          ctx, rows + [row])
            else Accumulates(totals, ctx, rows + [row])
  {
    hide Context.Owner, Context.Reading;
    forall slug ensures Total(ctx, rows + [row], slug) == Total(ctx, rows, slug) + ctx.Share(slug)(row) {
      SumGrows(rows, row, ctx.Share(slug));
    }
  }

  /** Sums a selection per service and appends one sample for each complete one. */
  method Reduce(out: map<string, seq<MetricSample>>, sel: Selection, rated: map<string, real>, index: Index,
                slugLabel: string)
    returns (out': map<string, seq<MetricSample>>, incomplete: set<string>)
    ensures out' == Appended(out, MetricKeyFor(sel.role), Emission(sel, rated, index, slugLabel))
    ensures incomplete == if Unrateable(sel) then {} else Withheld(ContextFor(sel, rated, index, slugLabel), sel.series)
  {
    hide Contributed, Withheld, Total, IsFinite, Appended;
    if sel.kind == Counter && !sel.Rateable() {
      AppendNothing(out, MetricKeyFor(sel.role));
      return out, {};
    }
    ghost var ctx := ContextFor(sel, rated, index, slugLabel);
    ghost var em := Emission(sel, rated, index, slugLabel);
    var totals, contributed;
    totals, contributed, incomplete := Accumulate(sel, rated, index, slugLabel);
    out' := out;
    AppendNothing(out, MetricKeyFor(sel.role));
    var rest, done := contributed, {};
    while rest != {}
      invariant rest <= contributed && done == contributed - rest
      invariant out' == Appended(out, MetricKeyFor(sel.role), Restricted(em, done))
      decreases rest
    {
      var slug :| slug in rest;
      assert (done + {slug}) - {slug} == done;
      rest, done := rest - {slug}, done + {slug};
      var value := totals[slug] * sel.candidate.scale;
      assert value == Scaled(ctx, sel.series, slug, sel.candidate.scale);
      AppendOne(out, MetricKeyFor(sel.role), em, done, slug);
      if slug !in incomplete && IsFinite(value) {
        out' := out'[slug := SamplesOf(out', slug) + [MetricSample(MetricKeyFor(sel.role), value)]];
      }
    }
    assert done == contributed;
    assert Restricted(em, contributed) == em;
  }

  ghost function Restricted(em: map<string, real>, slugs: set<string>): map<string, real> {
    map slug | slug in em && slug in slugs :: em[slug]
  }

  lemma AppendNothing(out: map<string, seq<MetricSample>>, key: string)
    ensures Appended(out, key, map[]) == out
    ensures forall em :: Restricted(em, {}) == map[]
  {
  }

  lemma AppendOne(out: map<string, seq<MetricSample>>, key: string, em: map<string, real>, done: set<string>,
                  slug: string)
    requires slug in done
    ensures var before := Appended(out, key, Restricted(em, done - {slug}));
            Appended(out, key, Restricted(em, done)) ==
            if slug in em then before[slug := SamplesOf(before, slug) + [MetricSample(key, em[slug])]] else before
  {
    hide Appended;
    var fewer := Restricted(em, done - {slug});
    if slug in em {
      assert Restricted(em, done) == fewer[slug := em[slug]];
      AppendMore(out, key, fewer, slug, em[slug]);
    } else {
      assert Restricted(em, done) == fewer;
    }
  }

  lemma AppendMore(out: map<string, seq<MetricSample>>, key: string, em: map<string, real>, slug: string, v: real)
    requires slug !in em
    ensures var before := Appended(out, key, em);
            Appended(out, key, em[slug := v]) == before[slug := SamplesOf(before, slug) + [MetricSample(key, v)]]
  {
  }

  // ---- Conservation and order --------------------------------------------------------------------

  /** Reduction does not depend on the order of rows. */
  lemma EmissionIgnoresRowOrder(ctx: Context, rows: seq<Series>, permuted: seq<Series>, scale: real)
    requires multiset(rows) == multiset(permuted)
    ensures Emitted(ctx, rows, scale) == Emitted(ctx, permuted, scale)
    ensures Withheld(ctx, rows) == Withheld(ctx, permuted)
  {
    hide Context.Owner, Context.Reading, Context.Share, IsFinite;
    SameElements(rows, permuted);
    assert forall row :: row in rows <==> row in Elements(permuted);
    forall slug ensures Scaled(ctx, rows, slug, scale) == Scaled(ctx, permuted, slug, scale) {
      SumIgnoresOrder(rows, permuted, ctx.Share(slug));
    }
    assert Contributed(ctx, rows) == Contributed(ctx, permuted);
  }

  /** Only the owners of the rows matter, not the index they were looked up in. */
  lemma SameOwnersSameEmission(ctx: Context, other: Context, rows: seq<Series>, scale: real)
    requires other == ctx.(index := other.index) && forall row :: row in rows ==> other.Owner(row) == ctx.Owner(row)
    ensures Emitted(ctx, rows, scale) == Emitted(other, rows, scale)
  {
    hide Index.Resolve, FingerprintOf, IsFinite;
    forall slug ensures Scaled(ctx, rows, slug, scale) == Scaled(other, rows, slug, scale) {
      SumAgrees(rows, ctx.Share(slug), other.Share(slug));
    }
    assert Contributed(ctx, rows) == Contributed(other, rows) && Withheld(ctx, rows) == Withheld(other, rows);
  }

  /** What the row adds to any of a set of services. */
  ghost function ShareOfAny(ctx: Context, slugs: set<string>): Series -> real {
    row =>
      if ctx.Owner(row).Some? && ctx.Owner(row).value in slugs && ctx.Reading(row).Some?
      then ctx.Reading(row).value else 0.0
  }

  ghost function TotalsOf(ctx: Context, rows: seq<Series>): string -> real { slug => Total(ctx, rows, slug) }

  /** Per-service totals add up to the readings of the rows they own: each row is counted once. */
  lemma {:induction false} TotalsPartitionUsage(ctx: Context, rows: seq<Series>, slugs: set<string>)
    ensures SumOver(slugs, TotalsOf(ctx, rows)) == SumOf(rows, ShareOfAny(ctx, slugs))
    decreases slugs
  {
    hide Context.Owner, Context.Reading;
    if slugs == {} {
      SumVanishes(rows, ShareOfAny(ctx, slugs));
    } else {
      var k := Pick(slugs);
      TotalsPartitionUsage(ctx, rows, slugs - {k});
      SumAdds(rows, ctx.Share(k), ShareOfAny(ctx, slugs - {k}), ShareOfAny(ctx, slugs));
    }
  }

  ghost function ValueIn(em: map<string, real>): string -> real { slug => if slug in em then em[slug] else 0.0 }

  lemma {:induction false} SumOverScales(slugs: set<string>, f: string -> real, g: string -> real, scale: real)
    requires forall slug :: slug in slugs ==> g(slug) == f(slug) * scale
    ensures SumOver(slugs, g) == SumOver(slugs, f) * scale
    decreases slugs
  {
    if slugs != {} {
      SumOverScales(slugs - {Pick(slugs)}, f, g, scale);
    }
  }

  /** Conservation: everything emitted adds up to the scaled readings of the rows of the services
      that were not withheld. */
  lemma EmissionConservesUsage(ctx: Context, rows: seq<Series>, scale: real)
    ensures var em := Emitted(ctx, rows, scale);
            SumOver(em.Keys, ValueIn(em)) == SumOf(rows, ShareOfAny(ctx, em.Keys)) * scale
  {
    hide Contributed, Withheld, IsFinite, SumOf, SumOver, Total;
    var em := Emitted(ctx, rows, scale);
    SumOverScales(em.Keys, TotalsOf(ctx, rows), ValueIn(em), scale);
    TotalsPartitionUsage(ctx, rows, em.Keys);
  }

  /** A service is emitted exactly when it owns a row, every row it owns has a reading, and the
      scaled total is finite. */
  lemma EmittedIsAllOrNothing(ctx: Context, rows: seq<Series>, scale: real, slug: string)
    ensures slug in Emitted(ctx, rows, scale) <==>
              && (exists row :: row in rows && ctx.Owner(row) == Some(slug))
              && (forall row :: row in rows && ctx.Owner(row) == Some(slug) ==> ctx.Reading(row).Some?)
              && IsFinite(Scaled(ctx, rows, slug, scale))
  {
    hide Context.Owner, Context.Reading, Context.Share, IsFinite, Scaled;
    assert slug in Withheld(ctx, rows) <==>
           exists row :: row in rows && ctx.Owner(row) == Some(slug) && ctx.Reading(row).None?;
    assert slug in Contributed(ctx, rows) <==>
           exists row :: row in rows && ctx.Owner(row) == Some(slug) && ctx.Reading(row).Some?;
  }

  /** With fewer rates a service can fall silent, but it cannot report another number. */
  lemma FewerRatesNeverFalsify(ctx: Context, more: Context, rows: seq<Series>, scale: real, slug: string)
    requires more == ctx.(rated := more.rated)
    requires forall fp :: fp in ctx.rated ==> fp in more.rated && ctx.rated[fp] == more.rated[fp]
    requires slug in Emitted(ctx, rows, scale)
    ensures slug in Emitted(more, rows, scale) && Emitted(more, rows, scale)[slug] == Emitted(ctx, rows, scale)[slug]
  {
    hide IsFinite, Index.Resolve, Contributed, Withheld, FingerprintOf;
    EmittedIsAllOrNothing(ctx, rows, scale, slug);
    EmittedIsAllOrNothing(more, rows, scale, slug);
    assert forall row :: more.Owner(row) == ctx.Owner(row);
    SumAgrees(rows, ctx.Share(slug), more.Share(slug));
    assert Scaled(ctx, rows, slug, scale) == Scaled(more, rows, slug, scale);
  }
}
