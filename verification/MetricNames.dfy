/** Metric names compared up to unit suffixes (internal/scrape/resolve.go). */
module MetricNames {
  import opened Text

  const UNIT_SUFFIXES: seq<string> := ["_total", "_bytes", "_seconds"]

  predicate EndsWith(name: string, suffix: string) {
    |suffix| <= |name| && name[|name| - |suffix|..] == suffix
  }

  /** `strings.TrimSuffix`. */
  function TrimSuffix(name: string, suffix: string): string {
    if EndsWith(name, suffix) then name[..|name| - |suffix|] else name
  }

  /** Stripping `suffix` changes `name` and leaves something. */
  predicate Strips(name: string, suffix: string) {
    suffix in UNIT_SUFFIXES && EndsWith(name, suffix) && |suffix| < |name|
  }

  /** The base form: unit suffixes removed until none applies. */
  function Base(name: string): string
    decreases |name|
  {
    if Strips(name, "_total") then Base(TrimSuffix(name, "_total"))
    else if Strips(name, "_bytes") then Base(TrimSuffix(name, "_bytes"))
    else if Strips(name, "_seconds") then Base(TrimSuffix(name, "_seconds"))
    else name
  }

  /** The guard the source tests is `Strips`. */
  lemma TrimmingStrips(name: string, s: string)
    requires s in UNIT_SUFFIXES
    ensures TrimSuffix(name, s) != name && TrimSuffix(name, s) != "" <==> Strips(name, s)
    ensures Strips(name, s) ==> name == TrimSuffix(name, s) + s && |TrimSuffix(name, s)| < |name|
  {
  }

  ghost predicate Bare(name: string) { forall s :: s in UNIT_SUFFIXES ==> !Strips(name, s) }

  function Concat(parts: seq<string>): string {
    if parts == [] then "" else Concat(parts[..|parts| - 1]) + parts[|parts| - 1]
  }

  /** No name ends with two unit suffixes at once, so the order they are tried in cannot matter. */
  lemma OneSuffixApplies(name: string, s: string, t: string)
    requires s in UNIT_SUFFIXES && t in UNIT_SUFFIXES && EndsWith(name, s) && EndsWith(name, t)
    ensures s == t
  {
    assert s[|s| - 1] == name[|name| - 1] == t[|t| - 1];
    assert s[|s| - 2] == name[|name| - 2] == t[|t| - 2];
  }

  lemma BaseStrips(name: string, s: string)
    requires Strips(name, s)
    ensures Base(name) == Base(TrimSuffix(name, s))
  {
    forall t | t in UNIT_SUFFIXES && Strips(name, t) ensures s == t {
      OneSuffixApplies(name, s, t);
    }
  }

  lemma BaseOfBare(name: string)
    requires Bare(name)
    ensures Base(name) == name
  {
    assert "_total" in UNIT_SUFFIXES && "_bytes" in UNIT_SUFFIXES && "_seconds" in UNIT_SUFFIXES;
  }

  lemma {:induction false} SuffixesDoNotMatter(name: string, suffixes: seq<string>)
    requires name != "" && forall s :: s in suffixes ==> s in UNIT_SUFFIXES
    ensures Base(name + Concat(suffixes)) == Base(name)
    decreases |suffixes|
  {
    if suffixes == [] {
      assert name + Concat(suffixes) == name;
    } else {
      var front, s := suffixes[..|suffixes| - 1], suffixes[|suffixes| - 1];
      var shorter := name + Concat(front);
      assert name + Concat(suffixes) == shorter + s;
      assert TrimSuffix(shorter + s, s) == shorter;
      BaseStrips(shorter + s, s);
      SuffixesDoNotMatter(name, front);
    }
  }

  /** The base is bare, never empty for a non-empty name, and the name is it plus unit suffixes. */
  lemma {:induction false} BaseDecomposes(name: string) returns (suffixes: seq<string>)
    ensures Bare(Base(name)) && (name != "" ==> Base(name) != "")
    ensures forall s :: s in suffixes ==> s in UNIT_SUFFIXES
    ensures name == Base(name) + Concat(suffixes)
    decreases |name|
  {
    hide Base, Strips, TrimSuffix;
    if Bare(name) {
      BaseOfBare(name);
      suffixes := [];
      assert name == name + Concat([]);
    } else {
      var s :| s in UNIT_SUFFIXES && Strips(name, s);
      var shorter := TrimSuffix(name, s);
      TrimmingStrips(name, s);
      BaseStrips(name, s);
      var rest := BaseDecomposes(shorter);
      suffixes := rest + [s];
      assert suffixes[..|rest|] == rest;
      assert name == (Base(name) + Concat(rest)) + s == Base(name) + (Concat(rest) + s);
    }
  }

  /** Unique fixpoint: a bare non-empty name that yields `name` by appending unit suffixes is its base. */
  lemma BaseIsUnique(name: string, base: string, suffixes: seq<string>)
    requires Bare(base) && base != "" && forall s :: s in suffixes ==> s in UNIT_SUFFIXES
    requires name == base + Concat(suffixes)
    ensures Base(name) == base
  {
    SuffixesDoNotMatter(base, suffixes);
    BaseOfBare(base);
  }

  lemma BaseIsIdempotent(name: string)
    ensures Base(Base(name)) == Base(name)
  {
    var _ := BaseDecomposes(name);
    BaseOfBare(Base(name));
  }

  /** Sweeps the suffix list, in whatever order it is written, until a sweep changes nothing. */
  method NormalizeName(original: string, suffixes: seq<string>) returns (name: string)
    requires Elements(suffixes) == Elements(UNIT_SUFFIXES)
    ensures name == Base(original)
  {
    hide Base, Strips, TrimSuffix;
    name := original;
    var changed := true;
    while changed
      invariant Base(name) == Base(original)
      invariant !changed ==> forall j :: 0 <= j < |suffixes| ==> !Strips(name, suffixes[j])
      decreases |name|, changed
    {
      changed := false;
      ghost var before := name;
      for i := 0 to |suffixes|
        invariant Base(name) == Base(original)
        invariant if changed then |name| < |before| else name == before
        invariant !changed ==> forall j :: 0 <= j < i ==> !Strips(name, suffixes[j])
      {
        assert suffixes[i] in Elements(suffixes);
        TrimmingStrips(name, suffixes[i]);
        var trimmed := TrimSuffix(name, suffixes[i]);
        if trimmed != name && trimmed != "" {
          BaseStrips(name, suffixes[i]);
          name := trimmed;
          changed := true;
        }
      }
    }
    forall s | s in UNIT_SUFFIXES ensures !Strips(name, s) {
      assert s in Elements(suffixes);
    }
    BaseOfBare(name);
  }
}
