/**
 Comparing two audit runs by the fingerprints of their findings (src/audit/replay.js).
 `fingerprint` is fingerprintFinding. An index is a JavaScript Map: its keys keep the order in which they
 were first set, and setting a key again replaces its value.
 */
module RunComparison {
  import opened Text
  import opened AuditFindings

  /** collectFindings: the findings of all agents, one after the other. */
  function AllFindings(agents: seq<AgentResult>): seq<Finding> {
    if agents == [] then [] else AllFindings(agents[..|agents| - 1]) + agents[|agents| - 1].findings
  }

  method CollectFindings(agents: seq<AgentResult>) returns (flattened: seq<Finding>)
    ensures flattened == AllFindings(agents)
  {
    flattened := [];
    for a := 0 to |agents|
      invariant flattened == AllFindings(agents[..a])
    {
      assert agents[..a + 1][..a] == agents[..a];
      var before := flattened;
      for f := 0 to |agents[a].findings|
        invariant flattened == before + agents[a].findings[..f]
      {
        flattened := flattened + [agents[a].findings[f]];
      }
    }
    assert agents[..|agents|] == agents;
  }

  function Prints(fingerprint: Finding -> string, fs: seq<Finding>): set<string> {
    if fs == [] then {} else Prints(fingerprint, fs[..|fs| - 1]) + {fingerprint(fs[|fs| - 1])}
  }

  lemma PrintsOneMore(fingerprint: Finding -> string, fs: seq<Finding>, f: Finding)
    ensures Prints(fingerprint, fs + [f]) == Prints(fingerprint, fs) + {fingerprint(f)}
  {
    assert (fs + [f])[..|fs|] == fs;
  }

  /** The fingerprints in the order in which they first occur. */
  function KeyOrder(fingerprint: Finding -> string, fs: seq<Finding>): (keys: seq<string>)
    ensures forall k :: k in keys <==> k in Prints(fingerprint, fs)
  {
    if fs == [] then []
    else
      var front, k := fs[..|fs| - 1], fingerprint(fs[|fs| - 1]);
      KeyOrder(fingerprint, front) + (if k in Prints(fingerprint, front) then [] else [k])
  }

  /** The last finding with this fingerprint. */
  function LastWith(fingerprint: Finding -> string, fs: seq<Finding>, k: string): Finding
    requires k in Prints(fingerprint, fs)
  {
    if fingerprint(fs[|fs| - 1]) == k then fs[|fs| - 1] else LastWith(fingerprint, fs[..|fs| - 1], k)
  }

  lemma OneMoreFinding(fingerprint: Finding -> string, fs: seq<Finding>, f: Finding)
    ensures var k := fingerprint(f);
      && KeyOrder(fingerprint, fs + [f]) == KeyOrder(fingerprint, fs) + (if k in Prints(fingerprint, fs) then [] else [k])
      && Prints(fingerprint, fs + [f]) == Prints(fingerprint, fs) + {k}
      && LastWith(fingerprint, fs + [f], k) == f
      && forall j | j in Prints(fingerprint, fs) && j != k :: LastWith(fingerprint, fs + [f], j) == LastWith(fingerprint, fs, j)
  {
    assert (fs + [f])[..|fs|] == fs;
  }

  /** It is one of the findings, and has this fingerprint. */
  lemma LastWithIsOne(fingerprint: Finding -> string, fs: seq<Finding>, k: string)
    requires k in Prints(fingerprint, fs)
    ensures LastWith(fingerprint, fs, k) in fs && fingerprint(LastWith(fingerprint, fs, k)) == k
  {
  }

  lemma {:induction false} KeysAreDistinct(fingerprint: Finding -> string, fs: seq<Finding>)
    ensures Distinct(KeyOrder(fingerprint, fs))
  {
    if fs != [] {
      KeysAreDistinct(fingerprint, fs[..|fs| - 1]);
    }
  }

  /** A Map from fingerprints to findings. */
  datatype Index = Index(keys: seq<string>, values: map<string, Finding>)

  /** The keys in the order of first occurrence, and under each the last finding with that fingerprint. */
  ghost predicate IsIndexOf(fingerprint: Finding -> string, fs: seq<Finding>, ix: Index) {
    && ix.keys == KeyOrder(fingerprint, fs)
    && ix.values.Keys == Prints(fingerprint, fs)
    && (forall k | k in ix.values :: ix.values[k] == LastWith(fingerprint, fs, k))
  }

  ghost predicate Distinct(keys: seq<string>) {
    forall i, j | 0 <= i < j < |keys| :: keys[i] != keys[j]
  }

  /** new Map(findings.map(...)) */
  method BuildIndex(fingerprint: Finding -> string, fs: seq<Finding>) returns (ix: Index)
    ensures IsIndexOf(fingerprint, fs, ix)
  {
    ix := Index([], map[]);
    assert IsIndexOf(fingerprint, fs[..0], ix);
    hide IsIndexOf;
    for i := 0 to |fs|
      invariant IsIndexOf(fingerprint, fs[..i], ix)
    {
      assert fs[..i + 1] == fs[..i] + [fs[i]];
      IndexOneMore(fingerprint, fs[..i], ix, fs[i]);
      var k := fingerprint(fs[i]);
      ix := Index(if k in ix.values then ix.keys else ix.keys + [k], ix.values[k := fs[i]]);
    }
    assert fs[..|fs|] == fs;
  }

  lemma IndexOneMore(fingerprint: Finding -> string, fs: seq<Finding>, ix: Index, f: Finding)
    requires IsIndexOf(fingerprint, fs, ix)
    ensures var k := fingerprint(f);
      IsIndexOf(fingerprint, fs + [f], Index(if k in ix.values then ix.keys else ix.keys + [k], ix.values[k := f]))
  {
    OneMoreFinding(fingerprint, fs, f);
    hide Prints, KeyOrder, LastWith;
    var k := fingerprint(f);
    assert ix.values[k := f].Keys == ix.values.Keys + {k};
    assert ix.keys + [] == ix.keys;
  }

  /** The last finding under each of these keys that the other side does not have. */
  function Entries(fingerprint: Finding -> string, fs: seq<Finding>, keys: seq<string>, other: set<string>): seq<Finding>
    requires forall k | k in keys :: k in Prints(fingerprint, fs)
  {
    if keys == [] then []
    else
      var k := keys[|keys| - 1];
      Entries(fingerprint, fs, keys[..|keys| - 1], other) + (if k in other then [] else [LastWith(fingerprint, fs, k)])
  }

  lemma EntriesOneMore(fingerprint: Finding -> string, fs: seq<Finding>, keys: seq<string>, i: nat, other: set<string>)
    requires i < |keys| && forall k | k in keys :: k in Prints(fingerprint, fs)
    ensures keys[i] in keys
    ensures Entries(fingerprint, fs, keys[..i + 1], other)
      == Entries(fingerprint, fs, keys[..i], other) + if keys[i] in other then [] else [LastWith(fingerprint, fs, keys[i])]
  {
    assert keys[..i + 1][..i] == keys[..i];
  }

  /** The entries of one index whose keys the other does not have. */
  method Missing(fingerprint: Finding -> string, ghost fs: seq<Finding>, ix: Index, other: Index) returns (found: seq<Finding>)
    requires IsIndexOf(fingerprint, fs, ix)
    ensures found == Entries(fingerprint, fs, KeyOrder(fingerprint, fs), other.values.Keys)
  {
    found := [];
    hide Prints, KeyOrder, LastWith;
    for i := 0 to |ix.keys|
      invariant found == Entries(fingerprint, fs, ix.keys[..i], other.values.Keys)
    {
      EntriesOneMore(fingerprint, fs, ix.keys, i, other.values.Keys);
      var k := ix.keys[i];
      if k !in other.values {
        found := found + [ix.values[k]];
      }
    }
    assert ix.keys[..|ix.keys|] == ix.keys;
  }

  function KeySet(keys: seq<string>): set<string> {
    set k | k in keys
  }

  /** One entry for every key the other side lacks, under its own fingerprint. */
  lemma {:induction false} EntriesMean(fingerprint: Finding -> string, fs: seq<Finding>, keys: seq<string>, other: set<string>)
    requires Distinct(keys) && forall k | k in keys :: k in Prints(fingerprint, fs)
    ensures var found := Entries(fingerprint, fs, keys, other);
      && Prints(fingerprint, found) == KeySet(keys) - other
      && |found| == |KeySet(keys) - other|
      && forall f | f in found :: f in fs
  {
    if keys != [] {
      var front, k := keys[..|keys| - 1], keys[|keys| - 1];
      EntriesMean(fingerprint, fs, front, other);
      KeySetOneMore(keys);
      WithOneMore(KeySet(front), other, k);
      var found := Entries(fingerprint, fs, front, other);
      assert Entries(fingerprint, fs, keys, other) == found + if k in other then [] else [LastWith(fingerprint, fs, k)];
      LastWithIsOne(fingerprint, fs, k);
      PrintsOneMore(fingerprint, found, LastWith(fingerprint, fs, k));
      hide Prints, LastWith, KeySet, Entries, Distinct;
      assert found + [] == found;
    }
  }

  lemma KeySetOneMore(keys: seq<string>)
    requires Distinct(keys) && keys != []
    ensures var front, k := keys[..|keys| - 1], keys[|keys| - 1];
      k in keys && k !in KeySet(front) && KeySet(keys) == KeySet(front) + {k}
  {
    assert keys == keys[..|keys| - 1] + [keys[|keys| - 1]];
  }

  lemma WithOneMore(done: set<string>, other: set<string>, k: string)
    requires k !in done
    ensures k in other ==> (done + {k}) - other == done - other
    ensures k !in other ==> (done + {k}) - other == (done - other) + {k} && |(done + {k}) - other| == |done - other| + 1
  {
    if k !in other {
      assert (done + {k}) - other == (done - other) + {k};
    }
  }

  /** What one report has and the other has not: one finding per fingerprint. */
  function MissingFrom(fingerprint: Finding -> string, base: Report, candidate: Report): seq<Finding> {
    var fs := AllFindings(candidate.agents);
    Entries(fingerprint, fs, KeyOrder(fingerprint, fs), PrintsOf(fingerprint, base))
  }

  lemma MissingIsAdded(fingerprint: Finding -> string, base: Report, candidate: Report)
    ensures var found := MissingFrom(fingerprint, base, candidate);
      && Prints(fingerprint, found) == Added(fingerprint, base, candidate)
      && |found| == |Added(fingerprint, base, candidate)|
      && forall f | f in found :: f in AllFindings(candidate.agents)
  {
    var fs := AllFindings(candidate.agents);
    KeysAreDistinct(fingerprint, fs);
    EntriesMean(fingerprint, fs, KeyOrder(fingerprint, fs), PrintsOf(fingerprint, base));
    assert KeySet(KeyOrder(fingerprint, fs)) == Prints(fingerprint, fs);
  }

  datatype Delta = Delta(p0: int, p1: int, p2: int, p3: int, blockingChanged: bool)

  /** summaryDelta */
  function SummaryDelta(base: Summary, candidate: Summary): Delta {
    Delta(candidate.p0 - base.p0, candidate.p1 - base.p1, candidate.p2 - base.p2, candidate.p3 - base.p3,
          base.blocking != candidate.blocking)
  }

  /** The delta is what the base counts lack to the candidate's, and tells whether blocking changed. */
  lemma DeltaAdds(base: Summary, candidate: Summary)
    ensures var d := SummaryDelta(base, candidate);
      && base.p0 + d.p0 == candidate.p0 && base.p1 + d.p1 == candidate.p1
      && base.p2 + d.p2 == candidate.p2 && base.p3 + d.p3 == candidate.p3
      && (d.blockingChanged <==> base.blocking != candidate.blocking)
  {
  }

  /** Severity, file, line and message in one text; `digits` writes a number, `upper` and `lower` fold case. */
  function FingerprintText(digits: int -> string, upper: string -> string, lower: string -> string, f: Finding): string {
    upper(Trim(f.severity)) + "|" + (Slashes(f.file) + "|" + (digits(f.line) + "|" + lower(Trim(f.message))))
  }

  /** Findings without a bar in severity or path have one fingerprint exactly when they agree in all four. */
  lemma SameFingerprintIff(digits: int -> string, upper: string -> string, lower: string -> string, f: Finding, g: Finding)
    requires '|' !in upper(Trim(f.severity)) && '|' !in upper(Trim(g.severity)) && '|' !in Slashes(f.file) && '|' !in Slashes(g.file)
    requires '|' !in digits(f.line) && '|' !in digits(g.line) && (digits(f.line) == digits(g.line) ==> f.line == g.line)
    ensures FingerprintText(digits, upper, lower, f) == FingerprintText(digits, upper, lower, g) <==>
      && upper(Trim(f.severity)) == upper(Trim(g.severity)) && Slashes(f.file) == Slashes(g.file) && f.line == g.line
      && lower(Trim(f.message)) == lower(Trim(g.message))
  {
    var x, y := digits(f.line) + "|" + lower(Trim(f.message)), digits(g.line) + "|" + lower(Trim(g.message));
    assert ['|'] == "|";
    JoinedApart(upper(Trim(f.severity)), Slashes(f.file) + "|" + x, upper(Trim(g.severity)), Slashes(g.file) + "|" + y, '|');
    JoinedApart(Slashes(f.file), x, Slashes(g.file), y, '|');
    JoinedApart(digits(f.line), lower(Trim(f.message)), digits(g.line), lower(Trim(g.message)), '|');
  }

  datatype Report = Report(agents: seq<AgentResult>, summary: Summary)

  datatype Comparison = Comparison(
    delta: Delta, baseCount: nat, candidateCount: nat, addedCount: nat, removedCount: nat,
    equivalent: bool, added: seq<Finding>, removed: seq<Finding>)

  function PrintsOf(fingerprint: Finding -> string, r: Report): set<string> {
    Prints(fingerprint, AllFindings(r.agents))
  }

  /** Fingerprints that only the second report has. */
  function Added(fingerprint: Finding -> string, base: Report, candidate: Report): set<string> {
    PrintsOf(fingerprint, candidate) - PrintsOf(fingerprint, base)
  }

  function Cut(fs: seq<Finding>): seq<Finding> {
    if |fs| > 500 then fs[..500] else fs
  }

  method CompareAuditReports(fingerprint: Finding -> string, base: Report, candidate: Report) returns (c: Comparison)
    ensures c.delta == SummaryDelta(base.summary, candidate.summary)
    ensures c.baseCount == |AllFindings(base.agents)| && c.candidateCount == |AllFindings(candidate.agents)|
    ensures c.addedCount == |Added(fingerprint, base, candidate)| && c.removedCount == |Added(fingerprint, candidate, base)|
    ensures c.equivalent <==> Equivalent(fingerprint, base, candidate)
    ensures c.added == Cut(MissingFrom(fingerprint, base, candidate)) && c.removed == Cut(MissingFrom(fingerprint, candidate, base))
  {
    var baseFindings := CollectFindings(base.agents);
    var candidateFindings := CollectFindings(candidate.agents);
    var baseIndex := BuildIndex(fingerprint, baseFindings);
    var candidateIndex := BuildIndex(fingerprint, candidateFindings);
    var added := Missing(fingerprint, candidateFindings, candidateIndex, baseIndex);
    var removed := Missing(fingerprint, baseFindings, baseIndex, candidateIndex);
    MissingIsAdded(fingerprint, base, candidate);
    MissingIsAdded(fingerprint, candidate, base);
    EquivalentIff(fingerprint, base, candidate);
    hide Prints, Entries, KeyOrder, LastWith, AllFindings;
    c := Comparison(SummaryDelta(base.summary, candidate.summary), |baseFindings|, |candidateFindings|, |added|, |removed|,
                    |added| == 0 && |removed| == 0, Cut(added), Cut(removed));
  }

  // ---------------------------------------------------------------- laws of the comparison

  /** deterministicEquivalent: nothing added, nothing removed. */
  ghost predicate Equivalent(fingerprint: Finding -> string, a: Report, b: Report) {
    Added(fingerprint, a, b) == {} && Added(fingerprint, b, a) == {}
  }

  /** It is equality of fingerprint sets, hence an equivalence relation. */
  lemma EquivalentIff(fingerprint: Finding -> string, a: Report, b: Report)
    ensures Equivalent(fingerprint, a, b) <==> PrintsOf(fingerprint, a) == PrintsOf(fingerprint, b)
    ensures Equivalent(fingerprint, a, b) <==> |Added(fingerprint, a, b)| == 0 && |Added(fingerprint, b, a)| == 0
  {
    var x, y := PrintsOf(fingerprint, a), PrintsOf(fingerprint, b);
    if x - y == {} && y - x == {} {
      assert forall k :: k in x ==> k !in x - y ==> k in y;
      assert forall k :: k in y ==> k !in y - x ==> k in x;
    }
  }

  lemma EquivalenceRelation(fingerprint: Finding -> string, a: Report, b: Report, c: Report)
    ensures Equivalent(fingerprint, a, a)
    ensures Equivalent(fingerprint, a, b) ==> Equivalent(fingerprint, b, a)
    ensures Equivalent(fingerprint, a, b) && Equivalent(fingerprint, b, c) ==> Equivalent(fingerprint, a, c)
  {
    EquivalentIff(fingerprint, a, b);
    EquivalentIff(fingerprint, b, c);
  }

  /** Distinct base findings plus added ones are as many as distinct candidate findings plus removed ones. */
  lemma Conservation(fingerprint: Finding -> string, base: Report, candidate: Report)
    ensures |PrintsOf(fingerprint, base)| + |Added(fingerprint, base, candidate)| == |PrintsOf(fingerprint, candidate)| + |Added(fingerprint, candidate, base)|
  {
    var x, y := PrintsOf(fingerprint, base), PrintsOf(fingerprint, candidate);
    assert x == (x - y) + x * y && y == (y - x) + x * y;
  }

  /** What is new from a to c was new from a to b or from b to c. */
  lemma Triangle(fingerprint: Finding -> string, a: Report, b: Report, c: Report)
    ensures Added(fingerprint, a, c) <= Added(fingerprint, a, b) + Added(fingerprint, b, c)
  {
  }

  function Negate(d: Delta): Delta {
    Delta(-d.p0, -d.p1, -d.p2, -d.p3, d.blockingChanged)
  }

  /** The lists in a comparison are the first 500 findings, and all of them when there are no more. */
  lemma CutKeepsFront(fs: seq<Finding>)
    ensures Cut(fs) <= fs && |Cut(fs)| == (if |fs| <= 500 then |fs| else 500)
  {
  }

  /** Comparing the other way round swaps added and removed and negates the delta. */
  method CompareBothWays(fingerprint: Finding -> string, a: Report, b: Report) returns (forth: Comparison, back: Comparison)
    ensures forth.addedCount == back.removedCount && forth.removedCount == back.addedCount
    ensures forth.equivalent == back.equivalent && back.delta == Negate(forth.delta)
    ensures forth.added == back.removed && forth.removed == back.added
  {
    hide Prints, Entries, MissingFrom, AllFindings;
    forth := CompareAuditReports(fingerprint, a, b);
    back := CompareAuditReports(fingerprint, b, a);
  }
}
