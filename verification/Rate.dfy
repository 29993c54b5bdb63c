/** Counter rating across scrapes under a tracking ceiling (internal/scrape/rate.go). */
module Rate {
  import opened SeriesIdentity

  const MAX_TRACKED_SERIES := 20_000

  /** One counter row as the Rater sees it. */
  datatype Row<K> = Row(fp: K, value: real)

  datatype Observation = Observation(value: real, at: int)

  type Table<K> = map<K, Observation>

  /** What one Observe leaves behind and returns. */
  datatype Step<K> = Step(table: Table<K>, rates: map<K, real>, refused: bool)

  /** The distinct fingerprints among the first `n` rows. */
  function FirstFingerprints<K(==)>(rows: seq<Row<K>>, n: nat): set<K>
    requires n <= |rows|
  {
    if n == 0 then {} else FirstFingerprints(rows, n - 1) + {rows[n - 1].fp}
  }

  function Fingerprints<K(==)>(rows: seq<Row<K>>): set<K> { FirstFingerprints(rows, |rows|) }

  /** Nanosecond clock readings, differenced into seconds. */
  function Elapsed(before: int, now: int): real { (now - before) as real / 1_000_000_000.0 }

  /** A pair of observations yields a rate unless the clock stood still or the counter reset. */
  predicate Rateable(before: Observation, now: Observation) {
    Elapsed(before.at, now.at) > 0.0 && now.value >= before.value
  }

  function RateOf(before: Observation, now: Observation): real
    requires Rateable(before, now)
  {
    (now.value - before.value) / Elapsed(before.at, now.at)
  }

  // ---- The three passes over the first `n` rows -------------------------------------------------

  /** First pass: established series, until the table is full. */
  function Carry<K(==)>(prev: Table<K>, ceiling: nat, rows: seq<Row<K>>, at: int, n: nat): Table<K>
    requires n <= |rows|
  {
    if n == 0 then map[] else
    var t, row := Carry(prev, ceiling, rows, at, n - 1), rows[n - 1];
    if |t| >= ceiling || row.fp !in prev then t else t[row.fp := Observation(row.value, at)]
  }

  /** Second pass: everything else, first come first served. */
  function TopUp<K(==)>(carried: Table<K>, ceiling: nat, rows: seq<Row<K>>, at: int, n: nat): Table<K>
    requires n <= |rows|
  {
    if n == 0 then carried else
    var t, row := TopUp(carried, ceiling, rows, at, n - 1), rows[n - 1];
    if row.fp in t || |t| >= ceiling then t else t[row.fp := Observation(row.value, at)]
  }

  /** Whether the second pass turned a row away. */
  predicate TurnsAway<K(==)>(carried: Table<K>, ceiling: nat, rows: seq<Row<K>>, at: int, n: nat)
    requires n <= |rows|
  {
    n != 0 &&
    var t := TopUp(carried, ceiling, rows, at, n - 1);
    TurnsAway(carried, ceiling, rows, at, n - 1) || (rows[n - 1].fp !in t && |t| >= ceiling)
  }

  /** Third pass: differences against the previous table. */
  function Rates<K(==)>(prev: Table<K>, admitted: Table<K>, rows: seq<Row<K>>, at: int, n: nat): map<K, real>
    requires n <= |rows|
  {
    if n == 0 then map[] else
    var out, row := Rates(prev, admitted, rows, at, n - 1), rows[n - 1];
    var now := Observation(row.value, at);
    if row.fp in admitted && row.fp in prev && Rateable(prev[row.fp], now)
    then out[row.fp := RateOf(prev[row.fp], now)] else out
  }

  function Observed<K(==)>(prev: Table<K>, ceiling: nat, rows: seq<Row<K>>, at: int): Step<K> {
    var carried := Carry(prev, ceiling, rows, at, |rows|);
    var next := TopUp(carried, ceiling, rows, at, |rows|);
    Step(next, Rates(prev, next, rows, at, |rows|), TurnsAway(carried, ceiling, rows, at, |rows|))
  }

  // ---- What the admission passes guarantee ------------------------------------------------------

  /** Every entry was taken from a row of this scrape, at this instant. */
  ghost predicate DrawnFrom<K>(t: Table<K>, rows: seq<Row<K>>, at: int) {
    forall fp :: fp in t ==> t[fp].at == at && Row(fp, t[fp].value) in rows
  }

  lemma {:induction false} FingerprintsAre<K>(rows: seq<Row<K>>, n: nat)
    requires n <= |rows|
    ensures forall i :: 0 <= i < n ==> rows[i].fp in FirstFingerprints(rows, n)
    ensures forall fp :: fp in FirstFingerprints(rows, n) ==> exists i :: 0 <= i < n && rows[i].fp == fp
  {
    if n > 0 {
      FingerprintsAre(rows, n - 1);
    }
  }

  lemma {:induction false} CarryDraws<K>(prev: Table<K>, ceiling: nat, rows: seq<Row<K>>, at: int, n: nat)
    requires n <= |rows|
    ensures DrawnFrom(Carry(prev, ceiling, rows, at, n), rows, at)
  {
    if n > 0 {
      CarryDraws(prev, ceiling, rows, at, n - 1);
    }
  }

  lemma {:induction false} CarryAdmits<K>(prev: Table<K>, ceiling: nat, rows: seq<Row<K>>, at: int, n: nat)
    requires n <= |rows|
    ensures var t := Carry(prev, ceiling, rows, at, n);
            && |t| <= ceiling && (forall fp :: fp in t ==> fp in prev)
            && (|t| < ceiling ==> forall i :: 0 <= i < n && rows[i].fp in prev ==> rows[i].fp in t)
  {
    if n > 0 {
      CarryAdmits(prev, ceiling, rows, at, n - 1);
      Inserted(Carry(prev, ceiling, rows, at, n - 1), rows[n - 1], at);
    }
  }

  lemma Inserted<K>(t: Table<K>, row: Row<K>, at: int)
    ensures |t[row.fp := Observation(row.value, at)]| == (if row.fp in t then |t| else |t| + 1)
  {
    var u := t[row.fp := Observation(row.value, at)];
    assert u.Keys == t.Keys + {row.fp};
    assert |u| == |u.Keys| && |t| == |t.Keys|;
  }

  lemma {:induction false} TopUpDraws<K>(carried: Table<K>, ceiling: nat, rows: seq<Row<K>>, at: int, n: nat)
    requires n <= |rows| && DrawnFrom(carried, rows, at)
    ensures DrawnFrom(TopUp(carried, ceiling, rows, at, n), rows, at)
  {
    if n > 0 {
      TopUpDraws(carried, ceiling, rows, at, n - 1);
    }
  }

  lemma {:induction false} TopUpKeeps<K>(carried: Table<K>, ceiling: nat, rows: seq<Row<K>>, at: int, n: nat)
    requires n <= |rows|
    ensures forall fp :: fp in carried ==> fp in TopUp(carried, ceiling, rows, at, n)
    ensures |carried| >= ceiling ==> TopUp(carried, ceiling, rows, at, n) == carried
  {
    if n > 0 {
      TopUpKeeps(carried, ceiling, rows, at, n - 1);
    }
  }

  lemma {:induction false} TopUpAdmits<K>(carried: Table<K>, ceiling: nat, rows: seq<Row<K>>, at: int, n: nat)
    requires n <= |rows| && |carried| <= ceiling
    ensures var t := TopUp(carried, ceiling, rows, at, n);
            |t| <= ceiling && (|t| < ceiling ==> forall i :: 0 <= i < n ==> rows[i].fp in t)
  {
    if n > 0 {
      TopUpAdmits(carried, ceiling, rows, at, n - 1);
      Inserted(TopUp(carried, ceiling, rows, at, n - 1), rows[n - 1], at);
    }
  }

  /** A row turned away stays out: the table was full and stays full. */
  lemma {:induction false} TurnedAwayIsMissing<K>(carried: Table<K>, ceiling: nat, rows: seq<Row<K>>, at: int, n: nat)
    requires n <= |rows| && |carried| <= ceiling
    ensures TurnsAway(carried, ceiling, rows, at, n) <==>
            exists i :: 0 <= i < n && rows[i].fp !in TopUp(carried, ceiling, rows, at, n)
  {
    if n > 0 {
      TurnedAwayIsMissing(carried, ceiling, rows, at, n - 1);
      TopUpAdmits(carried, ceiling, rows, at, n - 1);
    }
  }

  lemma SubsetOfEqualSize<T>(a: set<T>, b: set<T>)
    requires a <= b && |a| >= |b|
    ensures a == b
  {
    assert |b - a| == |b| - |a|;
    assert b == a + (b - a);
  }

  lemma SubsetSize<T>(a: set<T>, b: set<T>)
    requires a <= b
    ensures |a| <= |b|
  {
    assert |b - a| == |b| - |a|;
  }

  /** The two passes together, as sets: each is complete unless it ran into the ceiling. */
  lemma AdmittedKeys<K>(prev: Table<K>, ceiling: nat, rows: seq<Row<K>>, at: int) returns (carried: set<K>, t: set<K>)
    ensures t == Observed(prev, ceiling, rows, at).table.Keys && |t| == |Observed(prev, ceiling, rows, at).table|
    ensures |carried| <= ceiling && carried <= prev.Keys * Fingerprints(rows)
    ensures |carried| < ceiling ==> carried == prev.Keys * Fingerprints(rows)
    ensures |t| <= ceiling && carried <= t <= Fingerprints(rows) && (|t| < ceiling ==> t == Fingerprints(rows))
    ensures |carried| == ceiling ==> t == carried
    ensures Observed(prev, ceiling, rows, at).refused <==> !(Fingerprints(rows) <= t)
  {
    var c := Carry(prev, ceiling, rows, at, |rows|);
    var next := TopUp(c, ceiling, rows, at, |rows|);
    CarryAdmits(prev, ceiling, rows, at, |rows|);
    TopUpAdmits(c, ceiling, rows, at, |rows|);
    TopUpKeeps(c, ceiling, rows, at, |rows|);
    TurnedAwayIsMissing(c, ceiling, rows, at, |rows|);
    CarryDraws(prev, ceiling, rows, at, |rows|);
    TopUpDraws(c, ceiling, rows, at, |rows|);
    FingerprintsAre(rows, |rows|);
    carried, t := c.Keys, next.Keys;
    assert |carried| == |c| && |t| == |next|;
  }

  /** The ceiling is absolute, the refused flag is exact and established series keep their place,
      however many new series arrive and in whatever order. */
  lemma AdmissionGuarantees<K>(prev: Table<K>, ceiling: nat, rows: seq<Row<K>>, at: int)
    ensures var s, fps := Observed(prev, ceiling, rows, at), Fingerprints(rows);
            && |s.table| == (if |fps| < ceiling then |fps| else ceiling)
            && (s.refused <==> |fps| > ceiling)
            && s.table.Keys <= fps
            && (|prev| <= ceiling ==> prev.Keys * fps <= s.table.Keys)
            && (|prev.Keys * fps| >= ceiling ==> s.table.Keys <= prev.Keys)
  {
    var carried, t := AdmittedKeys(prev, ceiling, rows, at);
    assert |prev| == |prev.Keys|;
    KeysArithmetic(prev.Keys, carried, t, Fingerprints(rows), ceiling);
  }

  lemma KeysArithmetic<K>(prev: set<K>, carried: set<K>, t: set<K>, fps: set<K>, ceiling: nat)
    requires |carried| <= ceiling && carried <= prev * fps && (|carried| < ceiling ==> carried == prev * fps)
    requires |t| <= ceiling && carried <= t <= fps && (|t| < ceiling ==> t == fps)
    requires |carried| == ceiling ==> t == carried
    ensures |t| == (if |fps| < ceiling then |fps| else ceiling)
    ensures fps <= t <==> |fps| <= ceiling
    ensures |prev| <= ceiling ==> prev * fps <= t
    ensures |prev * fps| >= ceiling ==> t <= prev
  {
    SubsetSize(t, fps);
    SubsetSize(prev * fps, prev);
    if |t| >= |fps| { SubsetOfEqualSize(t, fps); }
    if |carried| >= |prev * fps| { SubsetOfEqualSize(carried, prev * fps); }
  }

  lemma ObservedDraws<K>(prev: Table<K>, ceiling: nat, rows: seq<Row<K>>, at: int)
    ensures DrawnFrom(Observed(prev, ceiling, rows, at).table, rows, at)
  {
    CarryDraws(prev, ceiling, rows, at, |rows|);
    TopUpDraws(Carry(prev, ceiling, rows, at, |rows|), ceiling, rows, at, |rows|);
  }

  // ---- The reference: difference against the last scrape, with no ceiling -----------------------

  /** Two rows that name the same series carry the same value. */
  predicate Agree<K(==)>(r: Row<K>, s: Row<K>) { r.fp == s.fp ==> r.value == s.value }

  /** The text format allows each name and label combination once per scrape, so the rows of a
      scrape never disagree about a series. */
  ghost predicate Coherent<K>(rows: seq<Row<K>>) {
    forall r, s {:trigger Agree(r, s)} :: r in rows && s in rows ==> Agree(r, s)
  }

  ghost function RowNaming<K>(rows: seq<Row<K>>, fp: K): (r: Row<K>)
    requires fp in Fingerprints(rows)
    ensures r in rows && r.fp == fp
  {
    FingerprintsAre(rows, |rows|);
    var i :| 0 <= i < |rows| && rows[i].fp == fp;
    rows[i]
  }

  /** Everything in a scrape, remembered. */
  ghost function Snapshot<K>(rows: seq<Row<K>>, at: int): Table<K> {
    map fp | fp in Fingerprints(rows) :: Observation(RowNaming(rows, fp).value, at)
  }

  /** The rates two successive tables determine. */
  function Differences<K(==)>(before: Table<K>, now: Table<K>): map<K, real> {
    map fp | fp in now && fp in before && Rateable(before[fp], now[fp]) :: RateOf(before[fp], now[fp])
  }

  ghost predicate SubMap<K, V>(a: map<K, V>, b: map<K, V>) {
    forall k :: k in a ==> k in b && a[k] == b[k]
  }

  lemma {:induction false} RatesAreDifferences<K>(prev: Table<K>, admitted: Table<K>, rows: seq<Row<K>>, at: int,
                                                  n: nat)
    requires n <= |rows| && Coherent(rows) && DrawnFrom(admitted, rows, at)
    ensures Rates(prev, admitted, rows, at, n) ==
            map fp | fp in Differences(prev, admitted) && fp in FirstFingerprints(rows, n) ::
              Differences(prev, admitted)[fp]
  {
    if n > 0 {
      RatesAreDifferences(prev, admitted, rows, at, n - 1);
      var row := rows[n - 1];
      if row.fp in admitted {
        assert Agree(Row(row.fp, admitted[row.fp].value), row);
        assert admitted[row.fp] == Observation(row.value, at);
      }
    }
  }

  /** A table drawn from a coherent scrape is cut from its snapshot. */
  lemma DrawnIsCut<K>(t: Table<K>, rows: seq<Row<K>>, at: int)
    requires Coherent(rows) && DrawnFrom(t, rows, at)
    ensures SubMap(t, Snapshot(rows, at))
    ensures t.Keys == Fingerprints(rows) ==> t == Snapshot(rows, at)
  {
    FingerprintsAre(rows, |rows|);
    forall fp | fp in t ensures fp in Snapshot(rows, at) && t[fp] == Snapshot(rows, at)[fp] {
      assert Agree(Row(fp, t[fp].value), RowNaming(rows, fp));
    }
  }

  lemma DifferencesWithin<K>(prev: Table<K>, t: Table<K>, fps: set<K>)
    requires t.Keys <= fps
    ensures Differences(prev, t) == map fp | fp in Differences(prev, t) && fp in fps :: Differences(prev, t)[fp]
  {
  }

  /** One Observe on a coherent scrape: a table cut from the scrape's snapshot, the whole snapshot
      when it fits, and exactly the differences between successive tables. */
  lemma ObservedIsDifference<K>(prev: Table<K>, ceiling: nat, rows: seq<Row<K>>, at: int)
    requires Coherent(rows)
    ensures var s := Observed(prev, ceiling, rows, at);
            && SubMap(s.table, Snapshot(rows, at))
            && (|Fingerprints(rows)| <= ceiling ==> s.table == Snapshot(rows, at))
            && s.rates == Differences(prev, s.table)
  {
    var t, fps := Observed(prev, ceiling, rows, at).table, Fingerprints(rows);
    AdmissionGuarantees(prev, ceiling, rows, at);
    ObservedDraws(prev, ceiling, rows, at);
    RatesAreDifferences(prev, t, rows, at, |rows|);
    DifferencesWithin(prev, t, fps);
    DrawnIsCut(t, rows, at);
    if |fps| <= ceiling {
      assert |t| == |t.Keys|;
      SubsetOfEqualSize(t.Keys, fps);
    }
  }

  // ---- Runs -------------------------------------------------------------------------------------

  datatype Scrape<K> = Scrape(rows: seq<Row<K>>, at: int)

  /** The table after the first `n` scrapes of a run, starting from a fresh Rater. */
  function TableAfter<K(==)>(ceiling: nat, run: seq<Scrape<K>>, n: nat): Table<K>
    requires n <= |run|
  {
    if n == 0 then map[] else
    Observed(TableAfter(ceiling, run, n - 1), ceiling, run[n - 1].rows, run[n - 1].at).table
  }

  /** What the i-th Observe of a run returns. */
  function RatesAt<K(==)>(ceiling: nat, run: seq<Scrape<K>>, i: nat): map<K, real>
    requires i < |run|
  {
    Observed(TableAfter(ceiling, run, i), ceiling, run[i].rows, run[i].at).rates
  }

  ghost predicate CoherentRun<K>(run: seq<Scrape<K>>) { forall i :: 0 <= i < |run| ==> Coherent(run[i].rows) }

  ghost function SnapshotAt<K>(run: seq<Scrape<K>>, i: nat): Table<K>
    requires i < |run|
  {
    Snapshot(run[i].rows, run[i].at)
  }

  /** What an unbounded Rater returns for the i-th scrape: its difference against the scrape before. */
  ghost function ReferenceRates<K>(run: seq<Scrape<K>>, i: nat): map<K, real>
    requires i < |run|
  {
    if i == 0 then map[] else Differences(SnapshotAt(run, i - 1), SnapshotAt(run, i))
  }

  ghost predicate Fits<K>(ceiling: nat, s: Scrape<K>) { |Fingerprints(s.rows)| <= ceiling }

  lemma TableFollowsLastScrape<K>(ceiling: nat, run: seq<Scrape<K>>, i: nat)
    requires CoherentRun(run) && i < |run|
    ensures SubMap(TableAfter(ceiling, run, i + 1), SnapshotAt(run, i))
    ensures Fits(ceiling, run[i]) ==> TableAfter(ceiling, run, i + 1) == SnapshotAt(run, i)
    ensures RatesAt(ceiling, run, i) == Differences(TableAfter(ceiling, run, i), TableAfter(ceiling, run, i + 1))
  {
    ObservedIsDifference(TableAfter(ceiling, run, i), ceiling, run[i].rows, run[i].at);
  }

  lemma DifferencesAreMonotone<K>(before: Table<K>, now: Table<K>, before': Table<K>, now': Table<K>)
    requires SubMap(before, before') && SubMap(now, now')
    ensures SubMap(Differences(before, now), Differences(before', now'))
  {
  }

  lemma NothingBefore<K>(now: Table<K>)
    ensures Differences(map[], now) == map[]
  {
  }

  /** On every run the ceiling can withhold a rate but never falsify one. */
  lemma CeilingNeverFalsifies<K>(ceiling: nat, run: seq<Scrape<K>>, i: nat)
    requires CoherentRun(run) && i < |run|
    ensures SubMap(RatesAt(ceiling, run, i), ReferenceRates(run, i))
  {
    hide Observed, Differences;
    TableFollowsLastScrape(ceiling, run, i);
    NothingBefore(TableAfter(ceiling, run, i + 1));
    if i > 0 {
      TableFollowsLastScrape(ceiling, run, i - 1);
      DifferencesAreMonotone(TableAfter(ceiling, run, i), TableAfter(ceiling, run, i + 1),
                             SnapshotAt(run, i - 1), SnapshotAt(run, i));
    }
  }

  /** While two successive scrapes fit the ceiling, the Rater is the unbounded reference. */
  lemma FittingScrapesRateInFull<K>(ceiling: nat, run: seq<Scrape<K>>, i: nat)
    requires CoherentRun(run) && i < |run|
    requires (i == 0 || Fits(ceiling, run[i - 1])) && Fits(ceiling, run[i])
    ensures RatesAt(ceiling, run, i) == ReferenceRates(run, i)
  {
    hide Observed, Differences;
    TableFollowsLastScrape(ceiling, run, i);
    NothingBefore(TableAfter(ceiling, run, i + 1));
    if i > 0 {
      TableFollowsLastScrape(ceiling, run, i - 1);
    }
  }

  /** Without coherence the ceiling does falsify a rate: the first pass stops at the first of two
      disagreeing rows once the table is full, a larger table keeps the last, and the next scrape is
      differenced against a value the other ceiling never saw. */
  lemma DisagreeingRowsBreakTheCeiling()
    ensures exists run: seq<Scrape<string>>, ceiling: nat ::
              && |run| == 3 && !CoherentRun(run)
              && "x" in RatesAt(ceiling, run, 2) && "x" in RatesAt(ceiling + 1, run, 2)
              && RatesAt(ceiling, run, 2)["x"] != RatesAt(ceiling + 1, run, 2)["x"]
  {
    hide RatesAt, Coherent;
    var run := DisagreeingRun();
    LastRate(1);
    LastRate(2);
    RowsDisagree();
    assert RatesAt(1, run, 2)["x"] != RatesAt(1 + 1, run, 2)["x"];
  }

  function DisagreeingRun(): seq<Scrape<string>> {
    [Scrape([Row("x", 0.0)], 0),
     Scrape([Row("x", 1.0), Row("x", 2.0)], 1_000_000_000),
     Scrape([Row("x", 3.0)], 2_000_000_000)]
  }

  lemma RowsDisagree()
    ensures !Coherent(DisagreeingRun()[1].rows)
  {
    var rows := DisagreeingRun()[1].rows;
    assert rows[0] in rows && rows[1] in rows && !Agree(rows[0], rows[1]);
  }

  /** What the last scrape rates differs with the ceiling. */
  lemma LastRate(ceiling: nat)
    requires 1 <= ceiling <= 2
    ensures var rates := RatesAt(ceiling, DisagreeingRun(), 2);
            "x" in rates && rates["x"] == if ceiling == 1 then 2.0 else 1.0
  {
    hide Observed;
    var run, kept := DisagreeingRun(), if ceiling == 1 then 1.0 else 2.0;
    OneRow(map[], ceiling, 0.0, 0);
    assert TableAfter(ceiling, run, 0) == map[];
    assert TableAfter(ceiling, run, 1) == Only(0.0, 0);
    TwoRows(ceiling, run[1].rows);
    assert TableAfter(ceiling, run, 2) == Only(kept, 1_000_000_000);
    OneRow(Only(kept, 1_000_000_000), ceiling, 3.0, 2_000_000_000);
    assert Elapsed(1_000_000_000, 2_000_000_000) == 1.0;
  }

  function Only(value: real, at: int): (t: Table<string>)
    ensures |t| == 1
  {
    var t: Table<string> := map["x" := Observation(value, at)];
    assert t.Keys == {"x"} && |t| == |t.Keys|;
    t
  }

  lemma OneRow(prev: Table<string>, ceiling: nat, value: real, at: int)
    requires ceiling >= 1
    ensures var s := Observed(prev, ceiling, [Row("x", value)], at);
            && s.table == Only(value, at)
            && ("x" in s.rates <==> "x" in prev && Rateable(prev["x"], Observation(value, at)))
            && ("x" in s.rates ==> s.rates["x"] == RateOf(prev["x"], Observation(value, at)))
  {
    hide Rateable, RateOf;
    var rows := [Row("x", value)];
    assert Carry(prev, ceiling, rows, at, 0) == map[] == TopUp(map[], ceiling, rows, at, 0);
    assert Rates(prev, Only(value, at), rows, at, 0) == map[];
  }

  lemma TwoRows(ceiling: nat, rows: seq<Row<string>>)
    requires 1 <= ceiling <= 2 && rows == [Row("x", 1.0), Row("x", 2.0)]
    ensures Observed(Only(0.0, 0), ceiling, rows, 1_000_000_000).table ==
            Only(if ceiling == 1 then 1.0 else 2.0, 1_000_000_000)
  {
    var prev, at := Only(0.0, 0), 1_000_000_000;
    assert Carry(prev, ceiling, rows, at, 0) == map[];
    assert Carry(prev, ceiling, rows, at, 1) == Only(1.0, at);
    var t := Only(if ceiling == 1 then 1.0 else 2.0, at);
    assert Carry(prev, ceiling, rows, at, 2) == t;
    assert TopUp(t, ceiling, rows, at, 0) == t;
    assert TopUp(t, ceiling, rows, at, 1) == t;
    assert TopUp(t, ceiling, rows, at, 2) == t;
  }

  // ---- Conservation -----------------------------------------------------------------------------

  /** A stretch of a run on which one tracked series keeps appearing, never decreases, and the
      clock advances. */
  ghost predicate Steady<K>(ceiling: nat, run: seq<Scrape<K>>, fp: K, from: nat) {
    && from < |run| && CoherentRun(run) && fp in TableAfter(ceiling, run, from + 1)
    && (forall i :: from <= i < |run| ==> fp in SnapshotAt(run, i))
    && (forall i :: from < i < |run| ==> SnapshotAt(run, i - 1)[fp].value <= SnapshotAt(run, i)[fp].value)
    && (forall i :: from < i < |run| ==> run[i - 1].at < run[i].at)
  }

  /** The sum of rate times elapsed time over the scrapes in (from, upto]. */
  ghost function Accumulated<K>(ceiling: nat, run: seq<Scrape<K>>, fp: K, from: nat, upto: nat): real
    requires from <= upto < |run|
    requires forall i :: from < i <= upto ==> fp in RatesAt(ceiling, run, i)
  {
    if from == upto then 0.0 else
    Accumulated(ceiling, run, fp, from, upto - 1) +
    RatesAt(ceiling, run, upto)[fp] * Elapsed(run[upto - 1].at, run[upto].at)
  }

  lemma TableSize<K>(ceiling: nat, run: seq<Scrape<K>>, n: nat)
    requires n <= |run|
    ensures |TableAfter(ceiling, run, n)| <= ceiling
  {
    if n > 0 {
      AdmissionGuarantees(TableAfter(ceiling, run, n - 1), ceiling, run[n - 1].rows, run[n - 1].at);
    }
  }

  /** Precedence over a whole run: a tracked series that keeps appearing is never displaced. */
  lemma {:induction false} TrackedStaysTracked<K>(ceiling: nat, run: seq<Scrape<K>>, fp: K, from: nat, i: nat)
    requires from <= i < |run|
    requires fp in TableAfter(ceiling, run, from + 1)
    requires forall j :: from < j <= i ==> fp in Fingerprints(run[j].rows)
    ensures fp in TableAfter(ceiling, run, i + 1)
    decreases i
  {
    hide Observed;
    if from < i {
      TrackedStaysTracked(ceiling, run, fp, from, i - 1);
      TableSize(ceiling, run, i);
      AdmissionGuarantees(TableAfter(ceiling, run, i), ceiling, run[i].rows, run[i].at);
    }
  }

  lemma RateTimesElapsed(before: Observation, now: Observation)
    requires before.at < now.at && before.value <= now.value
    ensures Rateable(before, now) && RateOf(before, now) >= 0.0
    ensures RateOf(before, now) * Elapsed(before.at, now.at) == now.value - before.value
  {
  }

  lemma SteadyIsTracked<K>(ceiling: nat, run: seq<Scrape<K>>, fp: K, from: nat, i: nat)
    requires Steady(ceiling, run, fp, from) && from <= i < |run|
    ensures fp in TableAfter(ceiling, run, i + 1) && TableAfter(ceiling, run, i + 1)[fp] == SnapshotAt(run, i)[fp]
  {
    forall j | from < j <= i ensures fp in Fingerprints(run[j].rows) {
      assert fp in SnapshotAt(run, j);
    }
    TrackedStaysTracked(ceiling, run, fp, from, i);
    TableFollowsLastScrape(ceiling, run, i);
  }

  lemma DifferenceAt<K>(before: Table<K>, now: Table<K>, fp: K)
    requires fp in before && fp in now && before[fp].at < now[fp].at && before[fp].value <= now[fp].value
    ensures fp in Differences(before, now) && Differences(before, now)[fp] >= 0.0
    ensures Differences(before, now)[fp] * Elapsed(before[fp].at, now[fp].at) == now[fp].value - before[fp].value
  {
    RateTimesElapsed(before[fp], now[fp]);
  }

  lemma SteadyClimbs<K>(ceiling: nat, run: seq<Scrape<K>>, fp: K, from: nat, i: nat)
    requires Steady(ceiling, run, fp, from) && from < i < |run|
    ensures fp in SnapshotAt(run, i - 1) && fp in SnapshotAt(run, i)
    ensures SnapshotAt(run, i - 1)[fp].value <= SnapshotAt(run, i)[fp].value
    ensures SnapshotAt(run, i - 1)[fp].at == run[i - 1].at < run[i].at == SnapshotAt(run, i)[fp].at
    ensures CoherentRun(run)
  {
    hide TableAfter, Fingerprints, Coherent;
  }

  /** On a steady stretch every later scrape emits a rate, and it is the scrape-to-scrape increase. */
  lemma SteadyRate<K>(ceiling: nat, run: seq<Scrape<K>>, fp: K, from: nat, i: nat)
    requires Steady(ceiling, run, fp, from) && from < i < |run|
    ensures fp in RatesAt(ceiling, run, i) && RatesAt(ceiling, run, i)[fp] >= 0.0
    ensures RatesAt(ceiling, run, i)[fp] * Elapsed(run[i - 1].at, run[i].at) ==
            SnapshotAt(run, i)[fp].value - SnapshotAt(run, i - 1)[fp].value
  {
    hide Observed, Differences, Steady, SnapshotAt, TableAfter, CoherentRun, RatesAt;
    SteadyClimbs(ceiling, run, fp, from, i);
    SteadyIsTracked(ceiling, run, fp, from, i - 1);
    SteadyIsTracked(ceiling, run, fp, from, i);
    TableFollowsLastScrape(ceiling, run, i);
    DifferenceAt(TableAfter(ceiling, run, i), TableAfter(ceiling, run, i + 1), fp);
  }

  /** Telescoping: what the rates add up to over the elapsed time is the counter's total increase. */
  lemma {:induction false} RatesTelescope<K>(ceiling: nat, run: seq<Scrape<K>>, fp: K, from: nat, upto: nat)
    requires Steady(ceiling, run, fp, from) && from <= upto < |run|
    ensures forall i :: from < i <= upto ==> fp in RatesAt(ceiling, run, i) && RatesAt(ceiling, run, i)[fp] >= 0.0
    ensures Accumulated(ceiling, run, fp, from, upto) ==
            SnapshotAt(run, upto)[fp].value - SnapshotAt(run, from)[fp].value
    decreases upto
  {
    hide Observed, Differences;
    if from < upto {
      RatesTelescope(ceiling, run, fp, from, upto - 1);
      SteadyRate(ceiling, run, fp, from, upto);
    }
  }

  // ---- The object ------------------------------------------------------------------------------

  ghost function RowsOf(series: seq<Series>): seq<Row<string>> {
    seq(|series|, i requires 0 <= i < |series| => Row(FingerprintOf(series[i]), series[i].value))
  }

  class Rater {
    const maxTracked: int
    var prev: Table<string>
    var refused: bool

    constructor (maxTracked: int)
      ensures this.maxTracked == maxTracked && prev == map[] && !refused && Valid()
      ensures Ceiling() == if maxTracked <= 0 then 20_000 else maxTracked
    {
      this.maxTracked := maxTracked;
      prev, refused := map[], false;
    }

    function Ceiling(): (c: nat)
      ensures c > 0
    {
      if maxTracked <= 0 then MAX_TRACKED_SERIES else maxTracked
    }

    ghost predicate Valid()
      reads this
    {
      |prev| <= Ceiling()
    }

    function Tracked(): nat
      reads this
    {
      |prev|
    }

    /** Consumes one scrape's counter series at the instant `at`. */
    method Observe(series: seq<Series>, at: int) returns (out: map<string, real>)
      requires Valid()
      modifies this
      ensures Valid()
      ensures Step(prev, out, refused) == Observed(old(prev), Ceiling(), RowsOf(series), at)
      ensures refused <==> |Fingerprints(RowsOf(series))| > Ceiling()
      ensures old(prev).Keys * Fingerprints(RowsOf(series)) <= prev.Keys
    {
      var fps: seq<string> := [];
      for i := 0 to |series|
        invariant |fps| == i && forall j :: 0 <= j < i ==> fps[j] == FingerprintOf(series[j])
        invariant prev == old(prev)
      {
        var fp, _ := Fingerprint(series[i]);
        fps := fps + [fp];
      }
      var carried := CarryPass(series, fps, at);
      var next, full := TopUpPass(carried, series, fps, at);
      out := RatePass(next, series, fps, at);
      AdmissionGuarantees(prev, Ceiling(), RowsOf(series), at);
      assert |RowsOf(series)| == |series|;
      refused := full;
      prev := next;
    }

    /** The first pass stops as soon as the table is full. */
    method CarryPass(series: seq<Series>, fps: seq<string>, at: int) returns (next: Table<string>)
      requires |fps| == |series| && forall i :: 0 <= i < |fps| ==> fps[i] == FingerprintOf(series[i])
      ensures next == Carry(prev, Ceiling(), RowsOf(series), at, |series|)
    {
      hide FingerprintOf;
      ghost var rows := RowsOf(series);
      next := map[];
      var i := 0;
      while i < |series| && |next| < Ceiling()
        invariant 0 <= i <= |series|
        invariant next == Carry(prev, Ceiling(), rows, at, i)
      {
        if fps[i] in prev {
          next := next[fps[i] := Observation(series[i].value, at)];
        }
        i := i + 1;
      }
      FullStaysFull(prev, Ceiling(), rows, at, i, |series|);
    }

    method TopUpPass(carried: Table<string>, series: seq<Series>, fps: seq<string>, at: int)
      returns (next: Table<string>, full: bool)
      requires |fps| == |series| && forall i :: 0 <= i < |fps| ==> fps[i] == FingerprintOf(series[i])
      ensures next == TopUp(carried, Ceiling(), RowsOf(series), at, |series|)
      ensures full == TurnsAway(carried, Ceiling(), RowsOf(series), at, |series|)
    {
      hide FingerprintOf;
      ghost var rows := RowsOf(series);
      next, full := carried, false;
      for i := 0 to |series|
        invariant next == TopUp(carried, Ceiling(), rows, at, i)
        invariant full == TurnsAway(carried, Ceiling(), rows, at, i)
      {
        if fps[i] !in next {
          if |next| >= Ceiling() {
            full := true;
          } else {
            next := next[fps[i] := Observation(series[i].value, at)];
          }
        }
      }
    }

    method RatePass(next: Table<string>, series: seq<Series>, fps: seq<string>, at: int)
      returns (out: map<string, real>)
      requires |fps| == |series| && forall i :: 0 <= i < |fps| ==> fps[i] == FingerprintOf(series[i])
      ensures out == Rates(prev, next, RowsOf(series), at, |series|)
    {
      hide Rateable, RateOf, FingerprintOf;
      ghost var rows := RowsOf(series);
      out := map[];
      for i := 0 to |series|
        invariant out == Rates(prev, next, rows, at, i)
      {
        var now := Observation(series[i].value, at);
        if fps[i] in next && fps[i] in prev && Rateable(prev[fps[i]], now) {
          out := out[fps[i] := RateOf(prev[fps[i]], now)];
        }
      }
    }
  }

  lemma {:induction false} FullStaysFull<K>(prev: Table<K>, ceiling: nat, rows: seq<Row<K>>, at: int, i: nat, n: nat)
    requires i <= n <= |rows| && (i == n || |Carry(prev, ceiling, rows, at, i)| >= ceiling)
    ensures Carry(prev, ceiling, rows, at, n) == Carry(prev, ceiling, rows, at, i)
    decreases n
  {
    if i < n {
      FullStaysFull(prev, ceiling, rows, at, i, n - 1);
    }
  }
}
