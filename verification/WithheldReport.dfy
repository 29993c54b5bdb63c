/** Warning about withheld services once per change of the set (internal/agent/exposition.go, `reportWithheld`). */
module WithheldReport {
  import opened Wrappers
  import opened Text

  /** What one reduction of a role hands to the report. */
  datatype Reduced = Reduced(incomplete: set<string>, firstObservation: bool)

  datatype Reported = Reported(latch: Option<string>, warned: bool)

  ghost function Signature(slugs: set<string>): string { Join(Sorted(slugs), ',') }

  ghost function Report(latch: Option<string>, r: Reduced): Reported {
    if r.incomplete == {} then Reported(None, false)
    else if r.firstObservation || latch == Some(Signature(r.incomplete)) then Reported(latch, false)
    else Reported(Some(Signature(r.incomplete)), true)
  }

  method ReportWithheld(latch: Option<string>, incomplete: set<string>, firstObservation: bool)
    returns (latch': Option<string>, warned: bool, slugs: seq<string>)
    ensures Reported(latch', warned) == Report(latch, Reduced(incomplete, firstObservation))
    ensures slugs == Sorted(incomplete)
  {
    slugs := SortedKeys(incomplete);
    ListingIsUnique(slugs, Sorted(incomplete));
    EmptyElements(slugs);
    if |slugs| == 0 {
      return None, false, slugs;
    }
    if firstObservation {
      return latch, false, slugs;
    }
    var signature := Join(slugs, ',');
    if latch == Some(signature) {
      return latch, false, slugs;
    }
    latch', warned := Some(signature), true;
  }

  // ---- Runs: the reductions of one role, in order ------------------------------------------------

  ghost function LatchAfter(run: seq<Reduced>, n: nat): Option<string>
    requires n <= |run|
  {
    if n == 0 then None else Report(LatchAfter(run, n - 1), run[n - 1]).latch
  }

  ghost predicate WarnsAt(run: seq<Reduced>, i: nat)
    requires i < |run|
  {
    Report(LatchAfter(run, i), run[i]).warned
  }

  /** The j-th reduction is the last one warned about before the n-th, with no empty set since. */
  ghost predicate LastWarned(run: seq<Reduced>, n: nat, j: int)
    requires n <= |run|
  {
    0 <= j < n && WarnsAt(run, j) && forall k :: j < k < n ==> run[k].incomplete != {} && !WarnsAt(run, k)
  }

  lemma {:induction false} LatchRemembersLastWarned(run: seq<Reduced>, n: nat, j: int)
    requires n <= |run| && LastWarned(run, n, j)
    ensures LatchAfter(run, n) == Some(Signature(run[j].incomplete))
  {
    hide Signature;
    if j < n - 1 {
      LatchRemembersLastWarned(run, n - 1, j);
    }
  }

  lemma {:induction false} LatchedWasWarned(run: seq<Reduced>, n: nat) returns (j: int)
    requires n <= |run| && LatchAfter(run, n).Some?
    ensures LastWarned(run, n, j)
  {
    hide Signature;
    if WarnsAt(run, n - 1) {
      j := n - 1;
    } else {
      j := LatchedWasWarned(run, n - 1);
    }
  }

  /** On every run a reduction warns exactly when it is no first observation, withholds something,
      and what it withholds reads differently from the last warning since nothing was withheld. */
  lemma WarnsOnEveryNewSignature(run: seq<Reduced>, i: nat)
    requires i < |run|
    ensures WarnsAt(run, i) <==>
              && !run[i].firstObservation && run[i].incomplete != {}
              && !exists j :: LastWarned(run, i, j) && Signature(run[j].incomplete) == Signature(run[i].incomplete)
  {
    hide Signature, LastWarned;
    LastWarnedIsBefore(run, i);
    forall j | LastWarned(run, i, j) ensures LatchAfter(run, i) == Some(Signature(run[j].incomplete)) {
      LatchRemembersLastWarned(run, i, j);
    }
    if LatchAfter(run, i).Some? {
      var _ := LatchedWasWarned(run, i);
    }
  }

  lemma LastWarnedIsBefore(run: seq<Reduced>, n: nat)
    requires n <= |run|
    ensures forall j :: LastWarned(run, n, j) ==> 0 <= j < n && WarnsAt(run, j)
  {
  }

  /** What comes later does not change what the latch held. */
  lemma {:induction false} LatchOfPrefix(run: seq<Reduced>, more: seq<Reduced>, n: nat)
    requires n <= |run|
    ensures LatchAfter(run + more, n) == LatchAfter(run, n)
  {
    hide Report;
    if n > 0 {
      LatchOfPrefix(run, more, n - 1);
      assert (run + more)[n - 1] == run[n - 1];
    }
  }

  /** Some comma in the slug stands between an earlier and a later name. */
  predicate ReadsAsMore(slug: string) { SplitsAscending(slug, ',') }

  /** The listed services can be told apart: no slug reads as more than one service, or none of them is
      another followed by a comma. */
  ghost predicate ToldApart(slugs: set<string>) {
    || (forall s :: s in slugs ==> !ReadsAsMore(s))
    || (forall s, t :: s in slugs && t in slugs ==> !Extends(t, s, ','))
  }

  /** The joined list determines the set of services as long as they can be told apart. */
  lemma SignatureIsInjective(slugs: set<string>, a: set<string>, b: set<string>)
    requires ToldApart(slugs) && a != {} && b != {} && a <= slugs && b <= slugs
    ensures Signature(a) == Signature(b) <==> a == b
  {
    hide SplitsAscending, Extends;
    var xs, ys := Sorted(a), Sorted(b);
    EmptyElements(xs);
    EmptyElements(ys);
    if Signature(a) == Signature(b) {
      assert forall x :: x in xs ==> x in Elements(xs) && x in slugs;
      assert forall y :: y in ys ==> y in Elements(ys) && y in slugs;
      if forall s :: s in slugs ==> !ReadsAsMore(s) {
        forall s | s in xs || s in ys ensures !SplitsAscending(s, ',') {
          assert !ReadsAsMore(s);
        }
        AscendingJoinIsInjective(xs, ys, ',');
      } else {
        JoinIsInjective(xs, ys, ',');
      }
    }
  }

  lemma SignatureOfTwo(p: string, q: string)
    requires Before(p, q)
    ensures Signature({p, q}) == p + [','] + q
  {
    ListingIsUnique(Sorted({p, q}), [p, q]);
    assert Join([p, q], ',') == p + [','] + Join([q], ',');
  }

  lemma SignatureOfOne(s: string)
    ensures Signature({s}) == s
  {
    ListingIsUnique(Sorted({s}), [s]);
  }

  /** Exactly the slugs that read as more share their warning with another set of services. */
  lemma ALoneSlugIsAmbiguous(s: string)
    ensures ReadsAsMore(s) <==> exists b :: b != {} && b != {s} && Signature(b) == Signature({s})
  {
    hide Before, Signature;
    SignatureOfOne(s);
    if k :| 0 <= k < |s| && s[k] == ',' && Before(s[..k], s[k + 1..]) {
      assert s == s[..k] + [','] + s[k + 1..];
      SignatureOfTwo(s[..k], s[k + 1..]);
      assert s[..k] in {s[..k], s[k + 1..]} && s[..k] != s;
    }
    if b :| b != {} && b != {s} && Signature(b) == s {
      ListedSplits(b);
    }
  }

  /** The list of two services or more reads as more than one. */
  lemma ListedSplits(b: set<string>)
    requires b != {}
    ensures b == {Signature(b)} || ReadsAsMore(Signature(b))
  {
    hide Before;
    var ys, s := Sorted(b), Signature(b);
    EmptyElements(ys);
    JoinStarts(ys, ',');
    assert ys == [ys[0]] + ys[1..];
    if |ys| > 1 {
      var rest := s[|ys[0]| + 1..];
      JoinStarts(ys[1..], ',');
      PrefixIsNotAfter(ys[1], rest);
      BeforeIsStrictTotal(ys[1], rest);
      assert Before(ys[0], ys[1]);
      if rest != ys[1] { BeforeIsTransitive(ys[0], ys[1], rest); }
      assert s[|ys[0]|] == ',' && s[..|ys[0]|] == ys[0];
    } else {
      assert Elements(ys) == {s};
    }
  }

  /** The reduction is no first observation, withholds someone, and the set is not the one last warned
      about since nobody was withheld. */
  ghost predicate WithholdsANewSet(run: seq<Reduced>, i: nat)
    requires i < |run|
  {
    && !run[i].firstObservation && run[i].incomplete != {}
    && !exists j :: LastWarned(run, i, j) && run[j].incomplete == run[i].incomplete
  }

  /** While the services can be told apart, the warning follows changes of the set itself. */
  lemma WarnsOnEveryNewSet(slugs: set<string>, run: seq<Reduced>, i: nat)
    requires i < |run| && ToldApart(slugs) && forall k :: 0 <= k < |run| ==> run[k].incomplete <= slugs
    ensures WarnsAt(run, i) <==> WithholdsANewSet(run, i)
  {
    hide Signature, LastWarned, ToldApart;
    WarnsOnEveryNewSignature(run, i);
    LastWarnedIsBefore(run, i);
    if run[i].incomplete != {} {
      forall j | LastWarned(run, i, j)
        ensures Signature(run[j].incomplete) == Signature(run[i].incomplete) <==>
                run[j].incomplete == run[i].incomplete
      {
        WarnedIsNotEmpty(run, j);
        SignatureIsInjective(slugs, run[j].incomplete, run[i].incomplete);
      }
    }
  }

  lemma WarnedIsNotEmpty(run: seq<Reduced>, i: nat)
    requires i < |run| && WarnsAt(run, i)
    ensures run[i].incomplete != {}
  {
  }

  /** Every slug that reads as more has a run in which a changed set goes unreported: after a service
      named "a,b" is withheld and warned about, the two services "a" and "b" are not. */
  lemma CommasHideAChange(s: string)
    requires ReadsAsMore(s)
    ensures exists run: seq<Reduced> ::
              && |run| == 2 && LastWarned(run, 1, 0) && run[0].incomplete == {s} && run[1].incomplete != {s}
              && !run[1].firstObservation && run[1].incomplete != {} && !WarnsAt(run, 1)
  {
    hide Signature, ReadsAsMore;
    ALoneSlugIsAmbiguous(s);
    var b :| b != {} && b != {s} && Signature(b) == Signature({s});
    var run := [Reduced({s}, false), Reduced(b, false)];
    assert s in {s} && LatchAfter(run, 0) == None;
    assert LatchAfter(run, 1) == Report(LatchAfter(run, 0), run[0]).latch == Some(Signature({s}));
    assert LastWarned(run, 1, 0) && !WarnsAt(run, 1);
  }
}
