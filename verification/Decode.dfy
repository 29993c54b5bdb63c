/** Reading one exposition: body cap, keep filter and sample budget (internal/scrape/scrape.go). */
module Decode {
  import opened Wrappers
  import opened SeriesIdentity
  import opened MetricNames
  import opened RowPolicy
  import opened Resolve

  const DEFAULT_MAX_BYTES := 8_388_608
  const EXPANSION_FACTOR := 10
  const MAX_CONFIGURABLE_BYTES := 16_777_216
  const MAX_SAMPLES := 50_000
  const MAX_INT64 := 0x7fff_ffff_ffff_ffff

  datatype ScrapeError = RequestFailed | BodyTooLarge | Malformed | TooManySamples

  datatype MetricType = CounterType | GaugeType | UntypedType | SummaryType | HistogramType

  /** The value field a metric's type calls for: missing, NaN or infinite, or a number. */
  datatype Scalar = Absent | NonFinite | Finite(v: real)

  datatype Metric = Metric(labels: seq<(string, string)>, scalar: Scalar)

  datatype Family = Family(name: string, mtype: MetricType, metrics: seq<Metric>)

  /** What the text parser makes of a body: families in order, and whether it got to the end. */
  datatype ParsedBody = ParsedBody(families: seq<Family>, wellFormed: bool)

  function KindOf(t: MetricType): Kind {
    match t
    case GaugeType => Gauge
    case UntypedType => Gauge
    case CounterType => Counter
    case _ => Unsupported
  }

  function LabelMap(pairs: seq<(string, string)>): map<string, string> {
    if pairs == [] then map[] else
    LabelMap(pairs[..|pairs| - 1])[pairs[|pairs| - 1].0 := pairs[|pairs| - 1].1]
  }

  function SeriesOf(f: Family, m: Metric): Series
    requires m.scalar.Finite?
  {
    Series(f.name, LabelMap(m.labels), m.scalar.v, KindOf(f.mtype))
  }

  /** The rows the first `n` metrics of a family reduce to. */
  function FirstRows(f: Family, n: nat): seq<Series>
    requires n <= |f.metrics|
  {
    if n == 0 then [] else
    FirstRows(f, n - 1) + if f.metrics[n - 1].scalar.Finite? then [SeriesOf(f, f.metrics[n - 1])] else []
  }

  function UsableRows(f: Family): seq<Series> {
    if KindOf(f.mtype) == Unsupported then [] else FirstRows(f, |f.metrics|)
  }

  predicate Admits(keep: set<string>, name: string) { keep == {} || Base(name) in keep }

  /** Every usable row of every admitted family, in order. */
  function AdmittedRows(families: seq<Family>, keep: set<string>): seq<Series> {
    if families == [] then [] else
    var f := families[|families| - 1];
    AdmittedRows(families[..|families| - 1], keep) + if Admits(keep, f.name) then UsableRows(f) else []
  }

  /** A scrape is all or nothing. */
  function Decoded(e: ParsedBody, keep: set<string>): Result<seq<Series>, ScrapeError> {
    if |AdmittedRows(e.families, keep)| > MAX_SAMPLES then Err(TooManySamples)
    else if !e.wellFormed then Err(Malformed)
    else Ok(AdmittedRows(e.families, keep))
  }

  /** Converts one family, giving up at the first usable row beyond the budget. */
  method SeriesFromFamily(f: Family, budget: nat) returns (out: seq<Series>, ok: bool)
    ensures ok <==> |UsableRows(f)| <= budget
    ensures out == if ok then UsableRows(f) else []
  {
    if KindOf(f.mtype) == Unsupported {
      return [], true;
    }
    out := [];
    for i := 0 to |f.metrics|
      invariant out == FirstRows(f, i) && |out| <= budget
    {
      if f.metrics[i].scalar.Finite? {
        if |out| >= budget {
          RowsOnlyGrow(f, i + 1, |f.metrics|);
          return [], false;
        }
        out := out + [SeriesOf(f, f.metrics[i])];
      }
    }
    ok := true;
  }

  lemma {:induction false} RowsOnlyGrow(f: Family, m: nat, n: nat)
    requires m <= n <= |f.metrics|
    ensures |FirstRows(f, m)| <= |FirstRows(f, n)|
    decreases n
  {
    if m < n {
      RowsOnlyGrow(f, m, n - 1);
    }
  }

  lemma {:induction false} AdmittedOnlyGrow(families: seq<Family>, keep: set<string>, n: nat)
    requires n <= |families|
    ensures |AdmittedRows(families[..n], keep)| <= |AdmittedRows(families, keep)|
    decreases |families|
  {
    hide UsableRows, Admits;
    if n < |families| {
      var front := families[..|families| - 1];
      assert front[..n] == families[..n];
      AdmittedOnlyGrow(front, keep, n);
    } else {
      assert families[..n] == families;
    }
  }

  /** Decodes family by family with what is left of the budget. */
  method DecodeAll(e: ParsedBody, keep: set<string>) returns (r: Result<seq<Series>, ScrapeError>)
    ensures r == Decoded(e, keep)
  {
    hide Base, UsableRows;
    var out: seq<Series> := [];
    for i := 0 to |e.families|
      invariant out == AdmittedRows(e.families[..i], keep) && |out| <= MAX_SAMPLES
    {
      var f := e.families[i];
      assert e.families[..i + 1][..i] == e.families[..i];
      AdmittedOnlyGrow(e.families, keep, i + 1);
      var base := NormalizeName(f.name, UNIT_SUFFIXES);
      if keep == {} || base in keep {
        var rows, ok := SeriesFromFamily(f, MAX_SAMPLES - |out|);
        if !ok {
          return Err(TooManySamples);
        }
        out := out + rows;
      }
    }
    assert e.families[..|e.families|] == e.families;
    r := if e.wellFormed then Ok(out) else Err(Malformed);
  }

  // ---- What the rows are, read off families and metrics ------------------------------------------

  /** Every metric of the body next to its family, in order. */
  function Flat(families: seq<Family>): seq<(Family, Metric)> {
    if families == [] then [] else
    var f := families[|families| - 1];
    Flat(families[..|families| - 1]) + FlatFamily(f)
  }

  function FlatFamily(f: Family): seq<(Family, Metric)> {
    seq(|f.metrics|, j requires 0 <= j < |f.metrics| => (f, f.metrics[j]))
  }

  /** The metric has one finite number and a type of one number, and its family's base name is kept. */
  predicate Usable(f: Family, m: Metric, keep: set<string>) {
    && (f.mtype == CounterType || f.mtype == GaugeType || f.mtype == UntypedType) && m.scalar.Finite?
    && (keep == {} || Base(f.name) in keep)
  }

  /** The last value given for each label name. */
  ghost predicate LastValues(labels: map<string, string>, pairs: seq<(string, string)>) {
    && (forall n :: n in labels <==> exists j :: 0 <= j < |pairs| && pairs[j].0 == n)
    && (forall j :: 0 <= j < |pairs| && (forall k :: j < k < |pairs| ==> pairs[k].0 != pairs[j].0) ==>
          labels[pairs[j].0] == pairs[j].1)
  }

  ghost predicate Describes(row: Series, f: Family, m: Metric) {
    && m.scalar.Finite? && row.name == f.name && row.value == m.scalar.v && LastValues(row.labels, m.labels)
    && row.kind == if f.mtype == CounterType then Counter else Gauge
  }

  lemma {:induction false} LabelMapHoldsLast(pairs: seq<(string, string)>)
    ensures LastValues(LabelMap(pairs), pairs)
    decreases |pairs|
  {
    if pairs != [] {
      var front, last := pairs[..|pairs| - 1], pairs[|pairs| - 1];
      LabelMapHoldsLast(front);
      assert pairs == front + [last];
      forall j | 0 <= j < |pairs| && (forall k :: j < k < |pairs| ==> pairs[k].0 != pairs[j].0)
        ensures LabelMap(pairs)[pairs[j].0] == pairs[j].1
      {
        if j < |front| { assert front[j] == pairs[j] && pairs[|front|].0 != pairs[j].0; }
      }
    }
  }

  /** The rows of a family sit at its finite metrics. */
  lemma {:induction false} FirstRowsAre(f: Family, n: nat) returns (ks: seq<nat>)
    requires n <= |f.metrics| && KindOf(f.mtype) != Unsupported
    ensures Ascends(ks, n) && |ks| == |FirstRows(f, n)|
    ensures forall k :: 0 <= k < n ==> (k in ks <==> f.metrics[k].scalar.Finite?)
    ensures forall i :: 0 <= i < |ks| ==> Describes(FirstRows(f, n)[i], f, f.metrics[ks[i]])
  {
    hide LastValues, LabelMap;
    ks := [];
    if n > 0 {
      ks := FirstRowsAre(f, n - 1);
      if f.metrics[n - 1].scalar.Finite? {
        LabelMapHoldsLast(f.metrics[n - 1].labels);
        ks := ks + [n - 1];
      }
    }
  }

  /** Ascending positions below `n`. */
  ghost predicate Ascends(ks: seq<nat>, n: nat) {
    (forall i :: 0 <= i < |ks| ==> ks[i] < n) && (forall i, j :: 0 <= i < j < |ks| ==> ks[i] < ks[j])
  }

  /** The rows are those of the usable metrics, at the ascending positions `ks`. */
  ghost predicate Located(ks: seq<nat>, flat: seq<(Family, Metric)>, rows: seq<Series>, keep: set<string>) {
    && Ascends(ks, |flat|) && |ks| == |rows|
    && (forall k :: 0 <= k < |flat| ==> (k in ks <==> Usable(flat[k].0, flat[k].1, keep)))
    && (forall i :: 0 <= i < |ks| ==> Describes(rows[i], flat[ks[i]].0, flat[ks[i]].1))
  }

  lemma FamilyLocated(f: Family, keep: set<string>) returns (ks: seq<nat>)
    ensures Located(ks, FlatFamily(f), if Admits(keep, f.name) then UsableRows(f) else [], keep)
  {
    hide Describes, FirstRows, Base;
    ks := [];
    if KindOf(f.mtype) != Unsupported && Admits(keep, f.name) {
      ks := FirstRowsAre(f, |f.metrics|);
    }
  }

  function Shifted(ks: seq<nat>, n: nat): seq<nat> { seq(|ks|, i requires 0 <= i < |ks| => n + ks[i]) }

  lemma InShifted(ks: seq<nat>, n: nat, k: nat)
    ensures k in Shifted(ks, n) <==> k >= n && k - n in ks
  {
    if k >= n && k - n in ks {
      var i :| 0 <= i < |ks| && ks[i] == k - n;
      assert Shifted(ks, n)[i] == k;
    }
  }

  lemma LocatedJoin(ks: seq<nat>, flat: seq<(Family, Metric)>, rows: seq<Series>,
                    ks': seq<nat>, flat': seq<(Family, Metric)>, rows': seq<Series>, keep: set<string>)
    requires Located(ks, flat, rows, keep) && Located(ks', flat', rows', keep)
    ensures Located(ks + Shifted(ks', |flat|), flat + flat', rows + rows', keep)
  {
    hide Describes, Usable;
    var all, both := ks + Shifted(ks', |flat|), flat + flat';
    forall k | 0 <= k < |both| ensures k in all <==> Usable(both[k].0, both[k].1, keep) {
      InShifted(ks', |flat|, k);
      assert k in all <==> k in ks || k in Shifted(ks', |flat|);
      assert k in ks ==> k < |flat|;
    }
    forall i | 0 <= i < |all| ensures Describes((rows + rows')[i], both[all[i]].0, both[all[i]].1) {
      if i >= |ks| { assert Describes(rows'[i - |ks|], flat'[ks'[i - |ks|]].0, flat'[ks'[i - |ks|]].1); }
    }
  }

  lemma {:induction false} AdmittedLocated(families: seq<Family>, keep: set<string>) returns (ks: seq<nat>)
    ensures Located(ks, Flat(families), AdmittedRows(families, keep), keep)
    decreases |families|
  {
    hide UsableRows, Admits, FlatFamily, Describes, Usable;
    ks := [];
    if families != [] {
      var front, f := families[..|families| - 1], families[|families| - 1];
      ks := AdmittedLocated(front, keep);
      var more := FamilyLocated(f, keep);
      LocatedJoin(ks, Flat(front), AdmittedRows(front, keep),
                  more, FlatFamily(f), if Admits(keep, f.name) then UsableRows(f) else [], keep);
      ks := ks + Shifted(more, |Flat(front)|);
    }
  }

  /** The decoded rows are, one to one and in order, the finite metrics of the kept families of one-number
      types: the family's name, the metric's value and last label values, a counter exactly for COUNTER.
      More than the budget is refused first, then a body that does not parse. */
  lemma DecodedRowsAre(e: ParsedBody, keep: set<string>) returns (ks: seq<nat>)
    ensures var flat := Flat(e.families);
            && Ascends(ks, |flat|)
            && (forall k :: 0 <= k < |flat| ==> (k in ks <==> Usable(flat[k].0, flat[k].1, keep)))
            && match Decoded(e, keep)
               case Err(err) => err == if |ks| > MAX_SAMPLES then TooManySamples else Malformed
               case Ok(rows) => |rows| == |ks| &&
                                forall i :: 0 <= i < |ks| ==> Describes(rows[i], flat[ks[i]].0, flat[ks[i]].1)
    ensures Decoded(e, keep).Ok? <==> e.wellFormed && |ks| <= MAX_SAMPLES
  {
    hide Describes, Usable, Flat, AdmittedRows;
    ks := AdmittedLocated(e.families, keep);
  }

  // ---- The keep filter ---------------------------------------------------------------------------

  lemma {:induction false} NarrowConcatenates(xs: seq<Series>, ys: seq<Series>, keep: set<string>)
    ensures Narrow(xs + ys, keep) == Narrow(xs, keep) + Narrow(ys, keep)
    decreases |ys|
  {
    hide Base;
    if ys == [] {
      assert xs + ys == xs;
    } else {
      var front, y := ys[..|ys| - 1], ys[|ys| - 1];
      assert (xs + ys)[..|xs + ys| - 1] == xs + front;
      NarrowConcatenates(xs, front, keep);
    }
  }

  lemma {:induction false} FamilyRowsCarryItsName(f: Family, n: nat)
    requires n <= |f.metrics|
    ensures forall s :: s in FirstRows(f, n) ==> s.name == f.name && s.kind == KindOf(f.mtype)
  {
    hide KindOf, LabelMap;
    if n > 0 {
      FamilyRowsCarryItsName(f, n - 1);
    }
  }

  lemma {:induction false} NarrowUniform(rows: seq<Series>, name: string, keep: set<string>)
    requires forall s :: s in rows ==> s.name == name
    ensures Narrow(rows, keep) == if Base(name) in keep then rows else []
    decreases |rows|
  {
    hide Base;
    if rows != [] {
      NarrowUniform(rows[..|rows| - 1], name, keep);
      assert rows == rows[..|rows| - 1] + [rows[|rows| - 1]];
    }
  }

  /** Filtering families before decoding is filtering rows after it. */
  lemma {:induction false} FilterCommutes(families: seq<Family>, keep: set<string>)
    requires keep != {}
    ensures AdmittedRows(families, keep) == Narrow(AdmittedRows(families, {}), keep)
    decreases |families|
  {
    hide Base, Narrow, FirstRows;
    if families == [] {
      assert Narrow([], keep) == [] by { NarrowUniform([], "", keep); }
    } else {
      var f := families[|families| - 1];
      FilterCommutes(families[..|families| - 1], keep);
      FamilyRowsCarryItsName(f, |f.metrics|);
      NarrowUniform(UsableRows(f), f.name, keep);
      NarrowConcatenates(AdmittedRows(families[..|families| - 1], {}), UsableRows(f), keep);
    }
  }

  lemma {:induction false} NarrowShrinks(rows: seq<Series>, keep: set<string>)
    ensures |Narrow(rows, keep)| <= |rows|
    decreases |rows|
  {
    hide Base;
    if rows != [] {
      NarrowShrinks(rows[..|rows| - 1], keep);
    }
  }

  /** Filter pushdown preserves meaning: whenever decoding everything works, decoding only the wanted
      families works too, and each role selects the very same rows. */
  lemma PushdownPreservesSelection(e: ParsedBody, r: Resolver, role: Role)
    requires Decoded(e, {}).Ok?
    ensures Decoded(e, r.Wanted()).Ok?
    ensures Selected(r.Candidates(role), 0, role, Decoded(e, r.Wanted()).value) ==
            Selected(r.Candidates(role), 0, role, Decoded(e, {}).value)
  {
    hide Base, Selected, Narrow, AdmittedRows;
    WantedIsNotEmpty(r);
    FilterCommutes(e.families, r.Wanted());
    NarrowShrinks(AdmittedRows(e.families, {}), r.Wanted());
    SelectionSurvivesNarrowing(r, role, AdmittedRows(e.families, {}));
  }

  lemma WantedIsNotEmpty(r: Resolver)
    ensures r.Wanted() != {}
  {
    hide Base;
    assert Base((r.Candidates(Cpu) + r.Candidates(Memory))[0].name) in r.Wanted();
  }

  // ---- One kind per selection --------------------------------------------------------------------

  ghost predicate DistinctNames(families: seq<Family>) {
    forall i, j :: 0 <= i < j < |families| ==> families[i].name != families[j].name
  }

  lemma {:induction false} RowComesFromFamily(families: seq<Family>, keep: set<string>, s: Series) returns (i: nat)
    requires s in AdmittedRows(families, keep)
    ensures i < |families| && families[i].name == s.name && KindOf(families[i].mtype) == s.kind
    decreases |families|
  {
    hide Base, FirstRows, KindOf;
    var f := families[|families| - 1];
    if s in AdmittedRows(families[..|families| - 1], keep) {
      i := RowComesFromFamily(families[..|families| - 1], keep, s);
    } else {
      FamilyRowsCarryItsName(f, |f.metrics|);
      i := |families| - 1;
    }
  }

  /** A selection never mixes counters with gauges, although two families may share a base name. */
  lemma {:induction false} SelectionIsHomogeneous(families: seq<Family>, keep: set<string>, cs: seq<Candidate>,
                                                  i: nat, role: Role)
    requires DistinctNames(families) && i <= |cs|
    ensures var r := Selected(cs, i, role, AdmittedRows(families, keep));
            r.Some? ==> forall s :: s in r.value.series ==> s.kind == r.value.kind
    decreases |cs| - i
  {
    hide AdmittedRows, KindOf, Kept, Matches;
    var all := AdmittedRows(families, keep);
    if i < |cs| {
      SelectionIsHomogeneous(families, keep, cs, i + 1, role);
      var rows := FamilyRows(cs[i], all);
      if rows != [] {
        var name := Winner(cs[i], all).value;
        OfNameHolds(all, name);
        KeepIsSubset(rows);
        var j := RowComesFromFamily(families, keep, rows[|rows| - 1]);
        forall s | s in SummableRows(rows) ensures s.kind == rows[|rows| - 1].kind {
          var k := RowComesFromFamily(families, keep, s);
          assert families[j].name == name == families[k].name;
        }
      }
    }
  }

  // ---- The body cap ------------------------------------------------------------------------------

  /** The largest cap this process can afford from its heap limit. */
  function Ceiling(memLimit: int, runtimeLimit: int): int {
    var derived := (if memLimit <= 0 then runtimeLimit else memLimit) / EXPANSION_FACTOR;
    if derived < DEFAULT_MAX_BYTES then DEFAULT_MAX_BYTES
    else if derived > MAX_CONFIGURABLE_BYTES then MAX_CONFIGURABLE_BYTES
    else derived
  }

  function ReadLimit(maxBytes: int, memLimit: int, runtimeLimit: int): int {
    var ceiling := Ceiling(memLimit, runtimeLimit);
    if maxBytes <= 0 || maxBytes > ceiling then DEFAULT_MAX_BYTES else maxBytes
  }

  /** The cap is positive, one more still fits an int64, a configured value takes effect exactly when
      the ceiling affords it, and beyond the default the heap limit pays for parsing it. */
  lemma CapIsAffordable(maxBytes: int, memLimit: int, runtimeLimit: int)
    ensures var limit, heap := ReadLimit(maxBytes, memLimit, runtimeLimit),
                               if memLimit <= 0 then runtimeLimit else memLimit;
            && 0 < limit <= MAX_CONFIGURABLE_BYTES && limit + 1 <= MAX_INT64
            && (limit > DEFAULT_MAX_BYTES ==> limit * EXPANSION_FACTOR <= heap)
            && (0 < maxBytes <= DEFAULT_MAX_BYTES ==> limit == maxBytes)
            && (limit != maxBytes ==> limit == DEFAULT_MAX_BYTES)
            && (maxBytes > DEFAULT_MAX_BYTES ==>
                  (limit == maxBytes <==> maxBytes <= MAX_CONFIGURABLE_BYTES && maxBytes * EXPANSION_FACTOR <= heap))
  {
  }

  /** Reads at most one byte past the cap, so a body is either complete or refused before parsing. */
  method Fetch(body: Option<string>, maxBytes: int, memLimit: int, runtimeLimit: int,
               parse: string -> ParsedBody, keep: set<string>) returns (r: Result<seq<Series>, ScrapeError>)
    ensures r == match body
                 case None => Err(RequestFailed)
                 case Some(b) =>
                   if |b| > ReadLimit(maxBytes, memLimit, runtimeLimit) then Err(BodyTooLarge)
                   else Decoded(parse(b), keep)
  {
    hide Decoded;
    if body.None? {
      return Err(RequestFailed);
    }
    var limit := ReadLimit(maxBytes, memLimit, runtimeLimit);
    CapIsAffordable(maxBytes, memLimit, runtimeLimit);
    var sent := body.value;
    var got := if |sent| <= limit + 1 then sent else sent[..limit + 1];
    if |got| > limit {
      return Err(BodyTooLarge);
    }
    r := DecodeAll(parse(got), keep);
  }
}
