/**
 Splitting one persona's audit into a swarm: files, seed findings and budget
 (src/audit/persona-loop.js).
 */
module SwarmSplit {
  import opened Text
  import opened Reals

  datatype ScopeFile = ScopeFile(path: string, loc: int)

  /** toPosixPath */
  function PosixPath(s: string): string {
    Slashes(Trim(s))
  }

  lemma PosixTwice(s: string)
    ensures PosixPath(PosixPath(s)) == PosixPath(s)
  {
    TrimIsTrimmed(s);
    TrimKeepsTrimmed(Slashes(Trim(s)));
  }

  /** White space around a path goes, backslashes become slashes, and nothing else changes. */
  lemma PosixMeans(lead: string, s: string, trail: string, i: nat)
    requires Blank(lead) && Blank(trail) && Trimmed(s) && i < |s|
    ensures |PosixPath(lead + s + trail)| == |s|
    ensures PosixPath(lead + s + trail)[i] == if s[i] == '\\' then '/' else s[i]
  {
    TrimDrops(lead, s, trail);
    SlashesMeans(s, i);
  }

  lemma LocIsKept(f: ScopeFile)
    ensures Normalize(f).path == PosixPath(f.path)
    ensures Normalize(f).loc >= 0 && (f.loc >= 0 ==> Normalize(f).loc == f.loc) && (f.loc < 0 ==> Normalize(f).loc == 0)
  {
  }

  function Normalize(f: ScopeFile): ScopeFile {
    ScopeFile(PosixPath(f.path), if f.loc < 0 then 0 else f.loc)
  }

  function Paths(files: seq<ScopeFile>): set<string> {
    set i | 0 <= i < |files| :: files[i].path
  }

  /** The first file of every path that is not blank, normalized. */
  function Unique(files: seq<ScopeFile>): seq<ScopeFile> {
    if files == [] then []
    else
      var front, last := Unique(files[..|files| - 1]), Normalize(files[|files| - 1]);
      if last.path == "" || last.path in Paths(front) then front else front + [last]
  }

  ghost predicate DistinctPaths(files: seq<ScopeFile>) {
    forall i, j | 0 <= i < j < |files| :: files[i].path != files[j].path
  }

  /** uniqueScopeFiles */
  method UniqueScopeFiles(files: seq<ScopeFile>) returns (normalized: seq<ScopeFile>)
    ensures normalized == Unique(files)
  {
    normalized := [];
    var seen: set<string> := {};
    for i := 0 to |files|
      invariant normalized == Unique(files[..i]) && seen == Paths(normalized)
    {
      assert files[..i + 1][..i] == files[..i];
      var file := Normalize(files[i]);
      if file.path == "" || file.path in seen {
        continue;
      }
      PathsOneMore(normalized, file);
      seen := seen + {file.path};
      normalized := normalized + [file];
    }
    assert files[..|files|] == files;
  }

  lemma PathsOneMore(files: seq<ScopeFile>, f: ScopeFile)
    ensures Paths(files + [f]) == Paths(files) + {f.path}
  {
    var all := files + [f];
    assert forall i | 0 <= i < |files| :: all[i] == files[i];
    assert all[|files|] == f;
  }

  /** Some given file has this path. */
  ghost predicate Mentions(files: seq<ScopeFile>, path: string) {
    exists i :: 0 <= i < |files| && PosixPath(files[i].path) == path
  }

  lemma MentionsOneMore(front: seq<ScopeFile>, last: ScopeFile, path: string)
    ensures Mentions(front + [last], path) <==> Mentions(front, path) || PosixPath(last.path) == path
  {
    var all := front + [last];
    assert forall i | 0 <= i < |front| :: all[i] == front[i];
    assert all[|front|] == last;
  }

  /** The paths left are exactly the ones given, blank ones aside, each of them once. */
  lemma {:induction false} UniqueIsDistinct(files: seq<ScopeFile>)
    ensures DistinctPaths(Unique(files))
    ensures forall p :: p in Paths(Unique(files)) <==> p != "" && Mentions(files, p)
  {
    if files != [] {
      var front, last := files[..|files| - 1], files[|files| - 1];
      UniqueIsDistinct(front);
      assert files == front + [last];
      PathsOneMore(Unique(front), Normalize(last));
      if Normalize(last).path !in Paths(Unique(front)) {
        DistinctOneMore(Unique(front), Normalize(last));
      }
      hide PosixPath, Paths, Mentions, DistinctPaths;
      forall p ensures p in Paths(Unique(files)) <==> p != "" && Mentions(files, p) {
        MentionsOneMore(front, last, p);
      }
    }
  }

  /** Where the files that are kept stand in the list: each is the first of its path, normalized. */
  ghost predicate FirstPlaces(files: seq<ScopeFile>, kept: seq<ScopeFile>, at: seq<nat>) {
    && |at| == |kept|
    && (forall p | 0 <= p < |at| :: at[p] < |files| && kept[p] == Normalize(files[at[p]]))
    && (forall p, q | 0 <= p < q < |at| :: at[p] < at[q])
    && (forall p, j | 0 <= p < |at| && 0 <= j < at[p] :: PosixPath(files[j].path) != kept[p].path)
  }

  /** The kept files come in the order of their first mention, each with the line count it had there. */
  lemma {:induction false} UniqueKeepsFirsts(files: seq<ScopeFile>) returns (at: seq<nat>)
    ensures FirstPlaces(files, Unique(files), at)
  {
    if files == [] {
      return [];
    }
    var front, last := files[..|files| - 1], files[|files| - 1];
    at := UniqueKeepsFirsts(front);
    UniqueIsDistinct(front);
    assert files == front + [last];
    PlacesOneMore(front, last, Unique(front), at);
    var n := Normalize(last);
    hide FirstPlaces, Paths, PosixPath;
    if n.path != "" && n.path !in Paths(Unique(front)) {
      at := at + [|front|];
    }
  }

  lemma PlacesOneMore(front: seq<ScopeFile>, last: ScopeFile, kept: seq<ScopeFile>, at: seq<nat>)
    requires FirstPlaces(front, kept, at)
    ensures FirstPlaces(front + [last], kept, at)
    ensures !Mentions(front, PosixPath(last.path)) ==> FirstPlaces(front + [last], kept + [Normalize(last)], at + [|front|])
  {
    hide PosixPath;
    var files := front + [last];
    assert forall i | 0 <= i < |front| :: files[i] == front[i];
    if !Mentions(front, PosixPath(last.path)) {
      assert forall j | 0 <= j < |front| :: PosixPath(files[j].path) != Normalize(last).path;
    }
  }

  lemma DistinctOneMore(files: seq<ScopeFile>, f: ScopeFile)
    requires DistinctPaths(files) && f.path !in Paths(files)
    ensures DistinctPaths(files + [f])
  {
    assert forall i | 0 <= i < |files| :: files[i].path in Paths(files);
  }

  // ---------------------------------------------------------------- partitions

  const MAX_FILES_PER_SCANNER := 12.0

  /** The size of a part: a whole number of at least one; without a number given, the default. */
  function Size(maxPerPartition: Option<real>): (size: nat)
    ensures size >= 1
  {
    var given := maxPerPartition.GetOr(MAX_FILES_PER_SCANNER).Floor;
    if given < 1 then 1 else given
  }

  /** Twelve files a part unless a number says otherwise; its fraction is dropped, and one is the least. */
  lemma SizeMeans(given: real)
    ensures Size(None) == 12
    ensures given < 2.0 ==> Size(Some(given)) == 1
    ensures given >= 1.0 ==> Size(Some(given)) as real <= given < Size(Some(given)) as real + 1.0
  {
  }

  function Chunks(files: seq<ScopeFile>, size: nat): seq<seq<ScopeFile>>
    requires size >= 1
  {
    if files == [] then []
    else if |files| <= size then [files]
    else [files[..size]] + Chunks(files[size..], size)
  }

  /** partitionAuditPersonaFiles */
  method PartitionAuditPersonaFiles(files: seq<ScopeFile>, maxPerPartition: Option<real>) returns (partitions: seq<seq<ScopeFile>>)
    ensures partitions == Chunks(Unique(files), Size(maxPerPartition))
  {
    var normalized := UniqueScopeFiles(files);
    hide Chunks, Unique;
    var size := Size(maxPerPartition);
    partitions := [];
    var index := 0;
    while index < |normalized|
      invariant 0 <= index
      invariant Chunks(normalized, size) == partitions + Chunks(if index < |normalized| then normalized[index..] else [], size)
    {
      var end := if index + size < |normalized| then index + size else |normalized|;
      NextChunk(normalized[index..], size);
      assert normalized[index..][..end - index] == normalized[index..end];
      assert index + size < |normalized| ==> normalized[index..][size..] == normalized[index + size..];
      partitions := partitions + [normalized[index..end]];
      index := index + size;
    }
    NoChunk(size);
  }

  lemma NoChunk(size: nat)
    requires size >= 1
    ensures Chunks([], size) == []
  {
  }

  lemma NextChunk(files: seq<ScopeFile>, size: nat)
    requires size >= 1 && files != []
    ensures var cut := if size < |files| then size else |files|;
      Chunks(files, size) == [files[..cut]] + Chunks(if size < |files| then files[size..] else [], size)
  {
    if |files| <= size {
      assert files[..|files|] == files;
    }
  }

  /**
   The parts joined give the list back, all but the last are full, the last is not empty, and their
   number is the least that has room for all files.
   */
  lemma {:induction false} ChunksPartition(files: seq<ScopeFile>, size: nat)
    requires size >= 1
    ensures var parts := Chunks(files, size);
      && Flatten(parts) == files
      && (forall k | 0 <= k < |parts| - 1 :: |parts[k]| == size)
      && (parts != [] ==> 0 < |parts[|parts| - 1]| <= size)
      && (|parts| - 1) * size < |files| <= |parts| * size
    decreases |files|
  {
    if files == [] {
      assert -1 * size < 0;
    } else if |files| <= size {
      assert Flatten([files]) == files + Flatten<ScopeFile>([]);
    } else {
      var rest := Chunks(files[size..], size);
      ChunksPartition(files[size..], size);
      FrontPart(files[..size], rest, size);
      assert files == files[..size] + files[size..];
      assert (|rest| - 1) * size + size == |rest| * size;
    }
  }

  lemma FrontPart(part: seq<ScopeFile>, rest: seq<seq<ScopeFile>>, size: nat)
    requires |part| == size && rest != []
    ensures Flatten([part] + rest) == part + Flatten(rest)
    ensures (forall k | 0 <= k < |rest| - 1 :: |rest[k]| == size) ==> forall k | 0 <= k < |[part] + rest| - 1 :: |([part] + rest)[k]| == size
    ensures (|rest| + 1) * size == |rest| * size + size
  {
    assert ([part] + rest)[1..] == rest;
  }

  // ---------------------------------------------------------------- routing the seed findings

  /** filterFindingsByFiles keeps a finding, given by its raw path, that names no file or one of these. */
  predicate Reaches(finding: string, files: seq<ScopeFile>) {
    var paths := Paths(Unique(files));
    paths == {} || PosixPath(finding) == "" || PosixPath(finding) in paths
  }

  /** filterFindingsByFiles */
  function Filter(findings: seq<string>, files: seq<ScopeFile>): seq<string> {
    if findings == [] then []
    else Filter(findings[..|findings| - 1], files) +
         (if Reaches(findings[|findings| - 1], files) then [findings[|findings| - 1]] else [])
  }

  ghost predicate Normal(files: seq<ScopeFile>) {
    && DistinctPaths(files)
    && forall i | 0 <= i < |files| :: files[i].path != "" && Normalize(files[i]) == files[i]
  }

  lemma UniqueIsNormal(files: seq<ScopeFile>)
    ensures Normal(Unique(files))
  {
    UniqueIsDistinct(files);
    UniqueNormalized(files);
    forall i | 0 <= i < |Unique(files)| ensures Unique(files)[i].path != "" {
      assert Unique(files)[i].path in Paths(Unique(files));
    }
  }

  lemma UniqueNormalized(files: seq<ScopeFile>)
    ensures forall i | 0 <= i < |Unique(files)| :: Normalize(Unique(files)[i]) == Unique(files)[i]
  {
    if files != [] {
      PosixTwice(files[|files| - 1].path);
    }
  }

  /** Deduplicating again changes nothing, in particular not inside a part. */
  lemma {:induction false} UniqueOfNormal(files: seq<ScopeFile>)
    requires Normal(files)
    ensures Unique(files) == files
  {
    if files != [] {
      var front, last := files[..|files| - 1], files[|files| - 1];
      assert files == front + [last] && Normal(front);
      UniqueOfNormal(front);
      hide PosixPath, Unique, Normalize;
      LastIsNew(front, last);
      assert Unique(files) == files by { UniqueSnoc(front, last); }
    }
  }

  lemma LastIsNew(front: seq<ScopeFile>, last: ScopeFile)
    requires Normal(front + [last])
    ensures last.path !in Paths(front) && last.path != "" && Normalize(last) == last
  {
    hide Normalize;
    var files := front + [last];
    assert files[|front|] == last;
    assert forall i | 0 <= i < |front| :: files[i] == front[i];
  }

  lemma UniqueSnoc(front: seq<ScopeFile>, last: ScopeFile)
    ensures Unique(front + [last]) ==
      if Normalize(last).path == "" || Normalize(last).path in Paths(Unique(front)) then Unique(front) else Unique(front) + [Normalize(last)]
  {
    hide Normalize, Paths;
    assert (front + [last])[..|front|] == front;
  }

  /** Part k starts k * size files into the list. */
  lemma {:induction false} PartIsSlice(files: seq<ScopeFile>, size: nat, k: nat)
    requires size >= 1 && k < |Chunks(files, size)|
    ensures 0 <= k * size < |files|
    ensures Chunks(files, size)[k] == files[k * size..if k * size + size < |files| then k * size + size else |files|]
    decreases |files|
  {
    if k == 0 {
      assert files[..|files|] == files;
    } else {
      var rest := files[size..];
      PartIsSlice(rest, size, k - 1);
      var from := (k - 1) * size;
      assert from + size == k * size;
      var to := if from + size < |rest| then from + size else |rest|;
      assert rest[from..to] == files[from + size..to + size];
    }
  }

  /** The part a file of the list falls into. */
  lemma {:induction false} PartOf(files: seq<ScopeFile>, size: nat, i: nat) returns (k: nat)
    requires size >= 1 && i < |files|
    ensures k < |Chunks(files, size)| && files[i] in Chunks(files, size)[k]
    decreases |files|
  {
    if |files| <= size || i < size {
      k := 0;
      assert |files| > size ==> files[..size][i] == files[i];
    } else {
      k := PartOf(files[size..], size, i - size);
      k := k + 1;
    }
  }

  /** Which part a finding reaches. */
  lemma ReachesIff(files: seq<ScopeFile>, size: nat, k: nat, finding: string)
    requires size >= 1 && Normal(files) && k < |Chunks(files, size)|
    ensures Reaches(finding, Chunks(files, size)[k]) <==>
      PosixPath(finding) == "" || PosixPath(finding) in Paths(Chunks(files, size)[k])
  {
    hide Unique;
    PartNormal(files, size, k);
    var part := Chunks(files, size)[k];
    UniqueOfNormal(part);
    assert part[0].path in Paths(part);
  }

  /** A path of the list stands in one part only. */
  lemma OnePart(files: seq<ScopeFile>, size: nat, i: nat, k: nat)
    requires size >= 1 && Normal(files) && i < |files| && k < |Chunks(files, size)|
    ensures files[i].path in Paths(Chunks(files, size)[k]) <==> k * size <= i < k * size + size
  {
    PartIsSlice(files, size, k);
    var from := k * size;
    hide Chunks, Paths;
    SlicePaths(files, from, if from + size < |files| then from + size else |files|, i);
  }

  lemma SlicePaths(files: seq<ScopeFile>, from: nat, to: nat, i: nat)
    requires DistinctPaths(files) && from <= to <= |files| && i < |files|
    ensures files[i].path in Paths(files[from..to]) <==> from <= i < to
  {
    var part := files[from..to];
    if from <= i < to {
      assert part[i - from] == files[i];
    }
    forall j | 0 <= j < |part| && part[j].path == files[i].path ensures i == from + j {
      assert part[j] == files[from + j];
    }
  }

  /**
   A finding in a file of the scope reaches exactly one subagent; one that names no file reaches
   them all; one in a file outside the scope reaches none.
   */
  lemma FindingRouting(scope: seq<ScopeFile>, size: nat, finding: string)
    requires size >= 1
    ensures var files := Unique(scope); var parts := Chunks(files, size); var path := PosixPath(finding);
      && (path == "" ==> forall k | 0 <= k < |parts| :: Reaches(finding, parts[k]))
      && (path != "" && path !in Paths(files) ==> forall k | 0 <= k < |parts| :: !Reaches(finding, parts[k]))
      && (path in Paths(files) ==> exists k :: 0 <= k < |parts| && ReachesOnly(finding, parts, k))
  {
    UniqueIsNormal(scope);
    UniqueIsDistinct(scope);
    hide Unique, Chunks, Reaches;
    var files := Unique(scope);
    var parts, path := Chunks(files, size), PosixPath(finding);
    forall k | 0 <= k < |parts| ensures Reaches(finding, parts[k]) <==> path == "" || path in Paths(parts[k]) {
      ReachesIff(files, size, k, finding);
    }
    forall k | 0 <= k < |parts| && path in Paths(parts[k]) ensures path in Paths(files) {
      PartIsSlice(files, size, k);
      var j :| 0 <= j < |parts[k]| && parts[k][j].path == path;
      assert files[k * size + j] == parts[k][j];
    }
    if path in Paths(files) {
      var i :| 0 <= i < |files| && files[i].path == path;
      var k := PartOf(files, size, i);
      assert path in Paths(parts[k]);
      OnePart(files, size, i, k);
      forall k2 | 0 <= k2 < |parts| && path in Paths(parts[k2]) ensures k2 == k {
        OnePart(files, size, i, k2);
        SamePart(size, k, k2, i);
      }
      assert ReachesOnly(finding, parts, k);
    }
  }

  /** How many findings all subagents are given together. */
  function Routed(findings: seq<string>, parts: seq<seq<ScopeFile>>): nat {
    if parts == [] then 0 else |Filter(findings, parts[0])| + Routed(findings, parts[1..])
  }

  /** How many subagents are given this finding. */
  function Copies(finding: string, parts: seq<seq<ScopeFile>>): nat {
    if parts == [] then 0 else (if Reaches(finding, parts[0]) then 1 else 0) + Copies(finding, parts[1..])
  }

  lemma RoutedOneMore(front: seq<string>, last: string, parts: seq<seq<ScopeFile>>)
    ensures Routed(front + [last], parts) == Routed(front, parts) + Copies(last, parts)
  {
    hide Reaches;
    assert (front + [last])[..|front|] == front;
    if parts != [] {
      RoutedOneMore(front, last, parts[1..]);
    }
  }

  lemma {:induction false} CountCopies(finding: string, parts: seq<seq<ScopeFile>>)
    ensures (forall k | 0 <= k < |parts| :: Reaches(finding, parts[k])) ==> Copies(finding, parts) == |parts|
    ensures (forall k | 0 <= k < |parts| :: !Reaches(finding, parts[k])) ==> Copies(finding, parts) == 0
    ensures (exists k :: 0 <= k < |parts| && ReachesOnly(finding, parts, k)) ==> Copies(finding, parts) == 1
  {
    hide Reaches;
    if parts != [] {
      var rest := parts[1..];
      assert forall k | 0 <= k < |rest| :: rest[k] == parts[k + 1];
      CountCopies(finding, rest);
      if k :| 0 <= k < |parts| && ReachesOnly(finding, parts, k) {
        if k > 0 {
          assert ReachesOnly(finding, rest, k - 1);
        }
      }
    }
  }

  /** What a finding adds to the total: one in scope, one per subagent without a file, nothing otherwise. */
  function Share(files: seq<ScopeFile>, finding: string, subagents: nat): nat {
    if PosixPath(finding) == "" then subagents else if PosixPath(finding) in Paths(files) then 1 else 0
  }

  function Shares(files: seq<ScopeFile>, findings: seq<string>, subagents: nat): nat {
    if findings == [] then 0
    else Shares(files, findings[..|findings| - 1], subagents) + Share(files, findings[|findings| - 1], subagents)
  }

  /** No finding is lost or handed out twice: the subagents' lists together have exactly the expected size. */
  lemma RoutingConserves(scope: seq<ScopeFile>, size: nat, findings: seq<string>)
    requires size >= 1
    ensures var parts := Chunks(Unique(scope), size);
      Routed(findings, parts) == Shares(Unique(scope), findings, |parts|)
  {
    forall f ensures Copies(f, Chunks(Unique(scope), size)) == Share(Unique(scope), f, |Chunks(Unique(scope), size)|) {
      CopiesAreShare(scope, size, f);
    }
    hide Chunks, Unique;
    TotalOfShares(Unique(scope), Chunks(Unique(scope), size), findings);
  }

  lemma {:induction false} TotalOfShares(files: seq<ScopeFile>, parts: seq<seq<ScopeFile>>, findings: seq<string>)
    requires forall f :: Copies(f, parts) == Share(files, f, |parts|)
    ensures Routed(findings, parts) == Shares(files, findings, |parts|)
  {
    hide Routed, Copies, Share;
    if findings == [] {
      NothingRouted(parts);
    } else {
      TotalOfShares(files, parts, findings[..|findings| - 1]);
      RoutedOneMore(findings[..|findings| - 1], findings[|findings| - 1], parts);
      assert findings == findings[..|findings| - 1] + [findings[|findings| - 1]];
    }
  }

  lemma CopiesAreShare(scope: seq<ScopeFile>, size: nat, finding: string)
    requires size >= 1
    ensures Copies(finding, Chunks(Unique(scope), size)) == Share(Unique(scope), finding, |Chunks(Unique(scope), size)|)
  {
    hide Reaches, Chunks, Unique, Paths, Copies, PosixPath;
    FindingRouting(scope, size, finding);
    CountCopies(finding, Chunks(Unique(scope), size));
    BlankIsNoPath(scope);
  }

  lemma BlankIsNoPath(scope: seq<ScopeFile>)
    ensures "" !in Paths(Unique(scope))
  {
    UniqueIsDistinct(scope);
  }

  lemma NothingRouted(parts: seq<seq<ScopeFile>>)
    ensures Routed([], parts) == 0
  {
  }

  lemma SamePart(size: nat, k: nat, k2: nat, i: nat)
    requires k * size <= i < k * size + size && k2 * size <= i < k2 * size + size
    ensures k == k2
  {
    NoGap(size, k, k2);
    NoGap(size, k2, k);
  }

  lemma NoGap(size: nat, a: nat, b: nat)
    ensures a < b ==> a * size + size <= b * size
  {
    if a < b {
      var d := b - a - 1;
      assert b * size == (a + 1 + d) * size == a * size + size + d * size;
    }
  }

  ghost predicate ReachesOnly(finding: string, parts: seq<seq<ScopeFile>>, k: nat)
    requires k < |parts|
  {
    forall k2 | 0 <= k2 < |parts| :: Reaches(finding, parts[k2]) <==> k2 == k
  }

  lemma PartNormal(files: seq<ScopeFile>, size: nat, k: nat)
    requires size >= 1 && k < |Chunks(files, size)| && Normal(files)
    ensures Normal(Chunks(files, size)[k]) && Chunks(files, size)[k] != []
  {
    PartIsSlice(files, size, k);
  }

  // ---------------------------------------------------------------- dividing the budget

  function MaxReal(a: real, b: real): real {
    if a < b then b else a
  }

  function ChildCost(parent: real, count: nat): real
    requires count >= 1
  {
    MaxReal(0.0, parent) / count as real
  }

  /** The caps on output tokens and on tool calls are divided alike. */
  function ChildCap(parent: real, count: nat): (cap: int)
    requires count >= 1
    ensures cap >= 1
  {
    var share := (parent / count as real).Floor;
    if share < 1 then 1 else share
  }

  lemma TimesWhole(cap: int, count: nat)
    ensures (cap * count) as real == Times(cap as real, count as real)
  {
  }

  /** The children's cost caps add up to the parent's. */
  lemma CostIsDivided(parent: real, count: nat)
    requires count >= 1
    ensures ChildCost(parent, count) * count as real == MaxReal(0.0, parent)
  {
    TimesQuotient(MaxReal(0.0, parent), count as real);
  }

  /**
   The children's integer caps add up to no more than the parent's or, when there is less than one
   for each, to one apiece; with enough for all, less than one per child is lost to rounding.
   */
  lemma CapIsDivided(parent: real, count: nat)
    requires count >= 1
    ensures (ChildCap(parent, count) * count) as real <= MaxReal(parent, count as real)
    ensures parent < count as real ==> ChildCap(parent, count) == 1
    ensures parent >= count as real ==> (ChildCap(parent, count) * count) as real > parent - count as real
  {
    var c := count as real;
    TimesQuotient(parent, c);
    TimesWhole(ChildCap(parent, count), count);
    hide Times;
    CapBound(parent, c, parent / c, ChildCap(parent, count));
  }

  lemma CapBound(parent: real, c: real, share: real, cap: int)
    requires c >= 1.0 && Times(share, c) == parent && cap == if share.Floor < 1 then 1 else share.Floor
    ensures Times(cap as real, c) <= MaxReal(parent, c)
    ensures parent < c ==> cap == 1
    ensures parent >= c ==> Times(cap as real, c) > parent - c
  {
    hide Times;
    TimesOne(c);
    ShareIff(share, c);
    if share >= 1.0 {
      AtLeastOne(share);
      FractionTimes(share, cap as real, c);
    }
  }

  lemma AtLeastOne(x: real)
    requires x >= 1.0
    ensures x.Floor >= 1 && x.Floor as real <= x < x.Floor as real + 1.0
  {
  }

  lemma ShareIff(share: real, c: real)
    requires c >= 1.0
    ensures share >= 1.0 <==> Times(share, c) >= c
  {
    hide Times;
    TimesOne(c);
    if share >= 1.0 {
      TimesSum(share - 1.0, 1.0, c);
      TimesPositive(share - 1.0, c);
      assert share - 1.0 + 1.0 == share;
    } else {
      TimesSum(share, 1.0 - share, c);
      TimesPositive(1.0 - share, c);
      assert share + (1.0 - share) == 1.0;
    }
  }

  lemma FractionTimes(share: real, whole: real, c: real)
    requires c >= 1.0 && whole <= share < whole + 1.0
    ensures Times(share, c) - c < Times(whole, c) <= Times(share, c)
  {
    hide Times;
    var d := share - whole;
    TimesOne(c);
    TimesPositive(d, c);
    TimesPositive(1.0 - d, c);
    TimesSum(whole, d, c);
    TimesSum(1.0 - d, d, c);
    assert whole + d == share && 1.0 - d + d == 1.0;
  }
}
