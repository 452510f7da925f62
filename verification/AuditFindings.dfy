/**
 Reconciling the findings of all agents into one list, and packaging them a second time
 (src/audit/orchestrator.js, src/audit/package.js). Both walk the agent results in id order and
 drop a finding whose key has been seen; `key` is the text made of file, line and message.
 */
module AuditFindings {
  import opened Text
  import WorkerPools

  datatype Finding = Finding(severity: string, file: string, line: int, message: string)
  datatype AgentResult = AgentResult(agentId: string, findings: seq<Finding>)

  /** A finding together with the agent it came from. */
  datatype Candidate = Candidate(finding: Finding, owner: string)

  const INDEX_LIMIT := 500

  function Tagged(findings: seq<Finding>, owner: string): seq<Candidate> {
    if findings == [] then [] else Tagged(findings[..|findings| - 1], owner) + [Candidate(findings[|findings| - 1], owner)]
  }

  /** All findings of all agents, in the order both loops meet them. */
  function Candidates(agents: seq<AgentResult>): seq<Candidate> {
    if agents == [] then []
    else Candidates(agents[..|agents| - 1]) + Tagged(agents[|agents| - 1].findings, agents[|agents| - 1].agentId)
  }

  ghost predicate HasKey(key: Finding -> string, cs: seq<Candidate>, k: string) {
    exists i :: 0 <= i < |cs| && key(cs[i].finding) == k
  }

  function Keys(key: Finding -> string, cs: seq<Candidate>): set<string> {
    if cs == [] then {} else Keys(key, cs[..|cs| - 1]) + {key(cs[|cs| - 1].finding)}
  }

  lemma {:induction false} KeysMean(key: Finding -> string, cs: seq<Candidate>, k: string)
    ensures k in Keys(key, cs) <==> HasKey(key, cs, k)
  {
    if cs != [] {
      var front := cs[..|cs| - 1];
      KeysMean(key, front, k);
      if HasKey(key, front, k) {
        var i :| 0 <= i < |front| && key(front[i].finding) == k;
        assert key(cs[i].finding) == k;
      }
      if HasKey(key, cs, k) {
        var i :| 0 <= i < |cs| && key(cs[i].finding) == k;
        if i < |front| {
          assert key(front[i].finding) == k;
        }
      }
    }
  }

  /** The candidates whose key no earlier candidate has. */
  function Firsts(key: Finding -> string, cs: seq<Candidate>): seq<Candidate> {
    if cs == [] then []
    else
      var front, last := cs[..|cs| - 1], cs[|cs| - 1];
      Firsts(key, front) + (if key(last.finding) in Keys(key, front) then [] else [last])
  }

  /** Position i holds the first candidate of its key. */
  ghost predicate IsFirst(key: Finding -> string, cs: seq<Candidate>, i: nat)
    requires i < |cs|
  {
    forall j | 0 <= j < i :: key(cs[j].finding) != key(cs[i].finding)
  }

  /** `at` says where the elements of `firsts` stand in `cs`, in order. */
  ghost predicate Positions(cs: seq<Candidate>, firsts: seq<Candidate>, at: seq<nat>) {
    && |at| == |firsts|
    && (forall p | 0 <= p < |at| :: at[p] < |cs| && firsts[p] == cs[at[p]])
    && (forall p, q | 0 <= p < q < |at| :: at[p] < at[q])
  }

  ghost predicate AllFirsts(key: Finding -> string, cs: seq<Candidate>, at: seq<nat>) {
    forall i | 0 <= i < |cs| :: i in at <==> IsFirst(key, cs, i)
  }

  /**
   A candidate is in the deduplicated list exactly when it is the first of its key, so the owner of
   a shared finding is the first agent in id order; and the list keeps the order of the candidates.
   */
  lemma {:induction false} FirstsAreFirst(key: Finding -> string, cs: seq<Candidate>) returns (at: seq<nat>)
    ensures Positions(cs, Firsts(key, cs), at) && AllFirsts(key, cs, at)
  {
    if cs == [] {
      return [];
    }
    var front, last := cs[..|cs| - 1], cs[|cs| - 1];
    at := FirstsAreFirst(key, front);
    assert cs == front + [last];
    OneMoreFirst(key, front, last);
    PickOneMore(key, front, at, last);
    PlacesOneMore(front, Firsts(key, front), at, last);
    hide AllFirsts, Firsts, Keys, Positions;
    assert Firsts(key, front) + [] == Firsts(key, front);
    if key(last.finding) !in Keys(key, front) {
      at := at + [|front|];
    }
  }

  lemma PlacesOneMore(front: seq<Candidate>, firsts: seq<Candidate>, at: seq<nat>, c: Candidate)
    requires Positions(front, firsts, at)
    ensures Positions(front + [c], firsts, at) && Positions(front + [c], firsts + [c], at + [|front|])
    ensures forall p | 0 <= p < |at| :: at[p] < |front|
  {
  }

  lemma PickOneMore(key: Finding -> string, front: seq<Candidate>, at: seq<nat>, c: Candidate)
    requires AllFirsts(key, front, at) && forall p | 0 <= p < |at| :: at[p] < |front|
    ensures AllFirsts(key, front + [c], if key(c.finding) in Keys(key, front) then at else at + [|front|])
  {
    SameFirsts(key, front, c);
    hide IsFirst, Keys;
    var cs := front + [c];
    var at2 := if key(c.finding) in Keys(key, front) then at else at + [|front|];
    forall i | 0 <= i < |cs| ensures i in at2 <==> IsFirst(key, cs, i) {
      if i < |front| {
        assert i in at2 <==> i in at;
        assert IsFirst(key, cs, i) <==> IsFirst(key, front, i);
      } else {
        assert i == |front| && i !in at;
      }
    }
  }

  lemma SameFirsts(key: Finding -> string, front: seq<Candidate>, c: Candidate)
    ensures forall i | 0 <= i < |front| :: IsFirst(key, front + [c], i) <==> IsFirst(key, front, i)
    ensures IsFirst(key, front + [c], |front|) <==> key(c.finding) !in Keys(key, front)
  {
    var cs := front + [c];
    assert forall j | 0 <= j < |front| :: cs[j] == front[j];
    KeysMean(key, front, key(c.finding));
  }

  lemma {:induction false} FirstsCover(key: Finding -> string, cs: seq<Candidate>)
    ensures Keys(key, Firsts(key, cs)) == Keys(key, cs)
    ensures DistinctKeys(key, Firsts(key, cs))
  {
    if cs != [] {
      hide Firsts, Keys;
      var front, last := cs[..|cs| - 1], cs[|cs| - 1];
      assert cs == front + [last];
      OneMoreFirst(key, front, last);
      FirstsCover(key, front);
      if key(last.finding) !in Keys(key, front) {
        KeysOneMore(key, Firsts(key, front), last);
        StaysDistinct(key, Firsts(key, front), last);
      } else {
        assert Keys(key, front) + {key(last.finding)} == Keys(key, front);
        assert Firsts(key, front) + [] == Firsts(key, front);
      }
    }
  }

  lemma StaysDistinct(key: Finding -> string, cs: seq<Candidate>, c: Candidate)
    requires DistinctKeys(key, cs) && key(c.finding) !in Keys(key, cs)
    ensures DistinctKeys(key, cs + [c])
  {
    forall p | 0 <= p < |cs| ensures key(cs[p].finding) != key(c.finding) {
      KeysMean(key, cs, key(cs[p].finding));
      assert HasKey(key, cs, key(cs[p].finding));
    }
  }

  ghost predicate DistinctKeys(key: Finding -> string, cs: seq<Candidate>) {
    forall p, q | 0 <= p < q < |cs| :: key(cs[p].finding) != key(cs[q].finding)
  }

  lemma KeysOneMore(key: Finding -> string, cs: seq<Candidate>, c: Candidate)
    ensures Keys(key, cs + [c]) == Keys(key, cs) + {key(c.finding)}
  {
    assert (cs + [c])[..|cs|] == cs;
  }

  // ---------------------------------------------------------------- who owns a finding

  /** Where the finding f of agent a stands among the candidates. */
  function PlaceOf(agents: seq<AgentResult>, a: nat, f: nat): nat
    requires a < |agents|
  {
    |Candidates(agents[..a])| + f
  }

  lemma {:induction false} TaggedAt(findings: seq<Finding>, owner: string)
    ensures |Tagged(findings, owner)| == |findings|
    ensures forall f | 0 <= f < |findings| :: Tagged(findings, owner)[f] == Candidate(findings[f], owner)
  {
    if findings != [] {
      TaggedAt(findings[..|findings| - 1], owner);
    }
  }

  lemma {:induction false} CandidatesPrefix(agents: seq<AgentResult>, a: nat)
    requires a <= |agents|
    ensures Candidates(agents[..a]) <= Candidates(agents)
    decreases |agents|
  {
    if a < |agents| {
      var front := agents[..|agents| - 1];
      assert front[..a] == agents[..a];
      CandidatesPrefix(front, a);
    } else {
      assert agents[..a] == agents;
    }
  }

  /** The candidates of one agent stand together, after those of the agents before it. */
  lemma CandidateAt(agents: seq<AgentResult>, a: nat, f: nat)
    requires a < |agents| && f < |agents[a].findings|
    ensures PlaceOf(agents, a, f) < |Candidates(agents[..a + 1])| <= |Candidates(agents)|
    ensures Candidates(agents)[PlaceOf(agents, a, f)] == Candidate(agents[a].findings[f], agents[a].agentId)
  {
    var part := agents[..a + 1];
    assert part[..a] == agents[..a];
    TaggedAt(agents[a].findings, agents[a].agentId);
    assert Candidates(part) == Candidates(agents[..a]) + Tagged(agents[a].findings, agents[a].agentId);
    CandidatesPrefix(agents, a + 1);
  }

  lemma LaterAgentLater(agents: seq<AgentResult>, b: nat, g: nat, a: nat, f: nat)
    requires b < a < |agents| && g < |agents[b].findings|
    ensures PlaceOf(agents, b, g) < PlaceOf(agents, a, f)
  {
    CandidateAt(agents[..a], b, g);
    assert agents[..a][..b] == agents[..b];
  }

  lemma {:induction false} Locate(agents: seq<AgentResult>, i: nat) returns (a: nat, f: nat)
    requires i < |Candidates(agents)|
    ensures a < |agents| && f < |agents[a].findings| && PlaceOf(agents, a, f) == i
    decreases |agents|
  {
    var front := agents[..|agents| - 1];
    if i < |Candidates(front)| {
      a, f := Locate(front, i);
      assert front[..a] == agents[..a];
    } else {
      TaggedAt(agents[|agents| - 1].findings, agents[|agents| - 1].agentId);
      a, f := |front|, i - |Candidates(front)|;
    }
  }

  /** Agent a reports a finding with this key. */
  ghost predicate Reports(key: Finding -> string, agent: AgentResult, k: string) {
    exists f :: 0 <= f < |agent.findings| && key(agent.findings[f]) == k
  }

  /** A kept finding belongs to the first agent that reports its key, and is that agent's first one with it. */
  lemma OwnerIsFirstAgent(key: Finding -> string, agents: seq<AgentResult>, p: nat) returns (a: nat, f: nat)
    requires p < |Firsts(key, Candidates(agents))|
    ensures a < |agents| && f < |agents[a].findings|
    ensures Firsts(key, Candidates(agents))[p] == Candidate(agents[a].findings[f], agents[a].agentId)
    ensures forall b | 0 <= b < a :: !Reports(key, agents[b], key(agents[a].findings[f]))
    ensures forall g | 0 <= g < f :: key(agents[a].findings[g]) != key(agents[a].findings[f])
  {
    var cs := Candidates(agents);
    hide Candidates, Firsts;
    var at := FirstsAreFirst(key, cs);
    assert at[p] in at && IsFirst(key, cs, at[p]);
    a, f := Locate(agents, at[p]);
    CandidateAt(agents, a, f);
    forall b, g | 0 <= b < a && 0 <= g < |agents[b].findings| ensures key(agents[b].findings[g]) != key(agents[a].findings[f]) {
      CandidateAt(agents, b, g);
      LaterAgentLater(agents, b, g, a, f);
    }
    forall g | 0 <= g < f ensures key(agents[a].findings[g]) != key(agents[a].findings[f]) {
      CandidateAt(agents, a, g);
    }
  }

  /** With the agents sorted by id, the owner's id is the least of all agents that report the key. */
  lemma OwnerHasLeastId(key: Finding -> string, rank: AgentResult -> int, agents: seq<AgentResult>, p: nat) returns (a: nat)
    requires WorkerPools.Ordered(rank, agents) && p < |Firsts(key, Candidates(agents))|
    ensures var c := Firsts(key, Candidates(agents))[p];
      && a < |agents| && c.owner == agents[a].agentId && Reports(key, agents[a], key(c.finding))
      && forall b | 0 <= b < |agents| && Reports(key, agents[b], key(c.finding)) :: rank(agents[a]) <= rank(agents[b])
  {
    hide Candidates, Firsts;
    var f;
    a, f := OwnerIsFirstAgent(key, agents, p);
  }

  // ---------------------------------------------------------------- the key itself

  /** File, line and message in one text; `digits` writes a number and `lower` folds case. */
  function KeyText(digits: int -> string, lower: string -> string, f: Finding): string {
    Slashes(f.file) + ":" + (digits(f.line) + ":" + lower(Trim(f.message)))
  }

  /** Findings whose paths have no colon share a key exactly when they agree in path, line and folded message. */
  lemma SameKeyIff(digits: int -> string, lower: string -> string, f: Finding, g: Finding)
    requires ':' !in Slashes(f.file) && ':' !in Slashes(g.file) && ':' !in digits(f.line) && ':' !in digits(g.line)
    requires digits(f.line) == digits(g.line) ==> f.line == g.line
    ensures KeyText(digits, lower, f) == KeyText(digits, lower, g) <==>
      Slashes(f.file) == Slashes(g.file) && f.line == g.line && lower(Trim(f.message)) == lower(Trim(g.message))
  {
    var x, y := digits(f.line) + ":" + lower(Trim(f.message)), digits(g.line) + ":" + lower(Trim(g.message));
    assert [':'] == ":";
    JoinedApart(Slashes(f.file), x, Slashes(g.file), y, ':');
    JoinedApart(digits(f.line), lower(Trim(f.message)), digits(g.line), lower(Trim(g.message)), ':');
  }

  /** With a colon in a path two findings in different files, at different lines, can share a key; the later one is dropped. */
  lemma KeysMayCollide(digits: int -> string, lower: string -> string) returns (f: Finding, g: Finding)
    requires digits(1) == "1" && digits(2) == "2" && lower("x") == "x" && lower("2:x") == "2:x"
    ensures KeyText(digits, lower, f) == KeyText(digits, lower, g)
    ensures f.file == "a:1" && g.file == "a" && f.line == 2 && g.line == 1
  {
    f, g := Finding("P1", "a:1", 2, "x"), Finding("P1", "a", 1, "2:x");
    TrimKeepsTrimmed("x");
    TrimKeepsTrimmed("2:x");
    assert Slashes("a:1") == "a:1" && Slashes("a") == "a";
    assert "a:1" + ":" + ("2" + ":" + "x") == "a:1:2:x";
    assert "a" + ":" + ("1" + ":" + "2:x") == "a:1:2:x";
  }

  // ---------------------------------------------------------------- the two loops

  function FindingsOf(cs: seq<Candidate>): (fs: seq<Finding>)
    ensures |fs| == |cs| && forall i | 0 <= i < |cs| :: fs[i] == cs[i].finding
  {
    seq(|cs|, i requires 0 <= i < |cs| => cs[i].finding)
  }

  lemma OneMoreFirst(key: Finding -> string, cs: seq<Candidate>, c: Candidate)
    ensures Firsts(key, cs + [c]) == Firsts(key, cs) + (if key(c.finding) in Keys(key, cs) then [] else [c])
    ensures Keys(key, cs + [c]) == Keys(key, cs) + {key(c.finding)}
  {
    assert (cs + [c])[..|cs|] == cs;
  }

  /** What the loops know before the first agent, after an agent, and after one more finding. */
  lemma LoopStart(key: Finding -> string, agents: seq<AgentResult>)
    ensures Keys(key, Candidates(agents[..0])) == {} && Firsts(key, Candidates(agents[..0])) == []
    ensures agents[..|agents|] == agents
  {
  }

  lemma LoopAgent(agents: seq<AgentResult>, a: nat)
    requires a < |agents|
    ensures Candidates(agents[..a]) + Tagged(agents[a].findings[..0], agents[a].agentId) == Candidates(agents[..a])
    ensures Candidates(agents[..a]) + Tagged(agents[a].findings[..|agents[a].findings|], agents[a].agentId) == Candidates(agents[..a + 1])
  {
    assert agents[..a + 1][..a] == agents[..a];
    assert agents[a].findings[..|agents[a].findings|] == agents[a].findings;
  }

  lemma LoopFinding(key: Finding -> string, before: seq<Candidate>, agent: AgentResult, f: nat)
    requires f < |agent.findings|
    ensures var cs := before + Tagged(agent.findings[..f], agent.agentId);
      var more := before + Tagged(agent.findings[..f + 1], agent.agentId);
      var c := Candidate(agent.findings[f], agent.agentId);
      && Firsts(key, more) == Firsts(key, cs) + (if key(c.finding) in Keys(key, cs) then [] else [c])
      && Keys(key, more) == Keys(key, cs) + {key(c.finding)}
  {
    assert agent.findings[..f + 1][..f] == agent.findings[..f];
    var c := Candidate(agent.findings[f], agent.agentId);
    OneMoreFirst(key, before + Tagged(agent.findings[..f], agent.agentId), c);
    assert before + Tagged(agent.findings[..f + 1], agent.agentId) == before + Tagged(agent.findings[..f], agent.agentId) + [c];
  }

  /** The reconcile pass of runAuditOrchestrator. */
  method Reconcile(key: Finding -> string, agents: seq<AgentResult>) returns (uniqueFindings: seq<Finding>)
    ensures uniqueFindings == FindingsOf(Firsts(key, Candidates(agents)))
  {
    uniqueFindings := [];
    var seen: set<string> := {};
    LoopStart(key, agents);
    hide Candidates, Tagged, Firsts, Keys;
    for a := 0 to |agents|
      invariant seen == Keys(key, Candidates(agents[..a]))
      invariant uniqueFindings == FindingsOf(Firsts(key, Candidates(agents[..a])))
    {
      var agent := agents[a];
      ghost var before := Candidates(agents[..a]);
      LoopAgent(agents, a);
      for f := 0 to |agent.findings|
        invariant seen == Keys(key, before + Tagged(agent.findings[..f], agent.agentId))
        invariant uniqueFindings == FindingsOf(Firsts(key, before + Tagged(agent.findings[..f], agent.agentId)))
      {
        var finding := agent.findings[f];
        LoopFinding(key, before, agent, f);
        if key(finding) in seen {
          continue;
        }
        seen := seen + {key(finding)};
        uniqueFindings := uniqueFindings + [finding];
      }
    }
  }

  /** The index spells every path with forward slashes; the report keeps it as it came. */
  function Posix(f: Finding): Finding {
    f.(file := Slashes(f.file))
  }

  /** An entry of the packaged index; its id is the text DD- and the number, padded to four digits. */
  datatype Entry = Entry(number: nat, finding: Finding, owner: string)

  function Numbered(cs: seq<Candidate>): (es: seq<Entry>)
    ensures |es| == |cs| && forall i | 0 <= i < |cs| :: es[i] == Entry(i + 1, Posix(cs[i].finding), cs[i].owner)
  {
    seq(|cs|, i requires 0 <= i < |cs| => Entry(i + 1, Posix(cs[i].finding), cs[i].owner))
  }

  function Capped(es: seq<Entry>): seq<Entry> {
    if |es| > INDEX_LIMIT then es[..INDEX_LIMIT] else es
  }

  /** buildFindingsIndex; the manifest's findingsIndexCount is the length of its result. */
  method BuildFindingsIndex(key: Finding -> string, agents: seq<AgentResult>) returns (index: seq<Entry>)
    ensures index == Capped(Numbered(Firsts(key, Candidates(agents))))
  {
    var indexed: seq<Entry> := [];
    var seen: set<string> := {};
    LoopStart(key, agents);
    hide Candidates, Tagged, Firsts, Keys;
    for a := 0 to |agents|
      invariant seen == Keys(key, Candidates(agents[..a]))
      invariant indexed == Numbered(Firsts(key, Candidates(agents[..a])))
    {
      var agent := agents[a];
      ghost var before := Candidates(agents[..a]);
      LoopAgent(agents, a);
      for f := 0 to |agent.findings|
        invariant seen == Keys(key, before + Tagged(agent.findings[..f], agent.agentId))
        invariant indexed == Numbered(Firsts(key, before + Tagged(agent.findings[..f], agent.agentId)))
      {
        var finding := agent.findings[f];
        LoopFinding(key, before, agent, f);
        if key(finding) in seen {
          continue;
        }
        seen := seen + {key(finding)};
        indexed := indexed + [Entry(|indexed| + 1, Posix(finding), agent.agentId)];
      }
    }
    index := if |indexed| > INDEX_LIMIT then indexed[..INDEX_LIMIT] else indexed;
  }

  /** Report and package agree: the index is the report's list with its paths respelled, numbered from one and cut at the limit. */
  lemma IndexIsTheReport(key: Finding -> string, agents: seq<AgentResult>)
    ensures var unique, index := FindingsOf(Firsts(key, Candidates(agents))), Capped(Numbered(Firsts(key, Candidates(agents))));
      && |index| == (if |unique| < 500 then |unique| else 500)
      && forall i | 0 <= i < |index| ::
           && index[i].number == i + 1 && index[i].finding == unique[i].(file := Slashes(unique[i].file))
           && index[i].owner == Firsts(key, Candidates(agents))[i].owner
  {
  }

  // ---------------------------------------------------------------- the summary

  datatype Summary = Summary(p0: nat, p1: nat, p2: nat, p3: nat, blocking: bool)

  function CountSeverity(severity: Finding -> string, level: string, fs: seq<Finding>): nat {
    if fs == [] then 0
    else CountSeverity(severity, level, fs[..|fs| - 1]) + (if severity(fs[|fs| - 1]) == level then 1 else 0)
  }

  lemma NothingCounted(severity: Finding -> string)
    ensures forall level :: CountSeverity(severity, level, []) == 0
  {
  }

  lemma OneMoreCounted(severity: Finding -> string, fs: seq<Finding>, i: nat)
    requires i < |fs|
    ensures forall level ::
      CountSeverity(severity, level, fs[..i + 1]) == CountSeverity(severity, level, fs[..i]) + if severity(fs[i]) == level then 1 else 0
  {
    assert fs[..i + 1][..i] == fs[..i];
  }

  /** severitySummary; `severity` is the trimmed upper-case level. */
  method SeveritySummary(severity: Finding -> string, findings: seq<Finding>) returns (s: Summary)
    ensures s.p0 == CountSeverity(severity, "P0", findings) && s.p1 == CountSeverity(severity, "P1", findings)
    ensures s.p2 == CountSeverity(severity, "P2", findings) && s.p3 == CountSeverity(severity, "P3", findings)
    ensures s.p0 + s.p1 + s.p2 + s.p3 <= |findings|
    ensures s.blocking <==> exists i :: 0 <= i < |findings| && severity(findings[i]) in {"P0", "P1"}
  {
    hide CountSeverity;
    NothingCounted(severity);
    s := Summary(0, 0, 0, 0, false);
    for i := 0 to |findings|
      invariant s.p0 == CountSeverity(severity, "P0", findings[..i]) && s.p1 == CountSeverity(severity, "P1", findings[..i])
      invariant s.p2 == CountSeverity(severity, "P2", findings[..i]) && s.p3 == CountSeverity(severity, "P3", findings[..i])
      invariant s.p0 + s.p1 + s.p2 + s.p3 <= i
      invariant s.p0 + s.p1 > 0 <==> exists j :: 0 <= j < i && severity(findings[j]) in {"P0", "P1"}
    {
      OneMoreCounted(severity, findings, i);
      match severity(findings[i])
      case "P0" => s := s.(p0 := s.p0 + 1);
      case "P1" => s := s.(p1 := s.p1 + 1);
      case "P2" => s := s.(p2 := s.p2 + 1);
      case "P3" => s := s.(p3 := s.p3 + 1);
      case _ =>
    }
    assert findings[..|findings|] == findings;
    s := s.(blocking := s.p0 > 0 || s.p1 > 0);
  }

  /** The report's list and its summary: what is counted is the whole deduplicated list, not the packaged part of it. */
  method ReconcileAndSummarize(key: Finding -> string, severity: Finding -> string, agents: seq<AgentResult>)
    returns (uniqueFindings: seq<Finding>, s: Summary)
    ensures uniqueFindings == FindingsOf(Firsts(key, Candidates(agents)))
    ensures s.p0 == CountSeverity(severity, "P0", uniqueFindings) && s.p1 == CountSeverity(severity, "P1", uniqueFindings)
    ensures s.p2 == CountSeverity(severity, "P2", uniqueFindings) && s.p3 == CountSeverity(severity, "P3", uniqueFindings)
    ensures s.blocking <==> exists c :: c in Firsts(key, Candidates(agents)) && severity(c.finding) in {"P0", "P1"}
  {
    hide Candidates, Firsts, CountSeverity;
    uniqueFindings := Reconcile(key, agents);
    s := SeveritySummary(severity, uniqueFindings);
    ghost var firsts := Firsts(key, Candidates(agents));
    assert forall i | 0 <= i < |firsts| :: firsts[i] in firsts && uniqueFindings[i] == firsts[i].finding;
  }

  /** From the agents to the packaged index: scheduling decisions and the pool's width leave no trace. */
  lemma IndexIsDeterministic<T>(
    work: T -> AgentResult, rank: AgentResult -> int, key: Finding -> string,
    items: seq<Option<T>>, limit1: nat, turns1: seq<WorkerPools.Turn>, limit2: nat, turns2: seq<WorkerPools.Turn>)
    requires WorkerPools.Finished(WorkerPools.Run(WorkerPools.Open(items, limit1), turns1))
    requires WorkerPools.Finished(WorkerPools.Run(WorkerPools.Open(items, limit2), turns2))
    requires WorkerPools.DistinctRanks(rank, WorkerPools.Map(work, WorkerPools.Present(items)))
    ensures PackagedAfter(work, rank, key, WorkerPools.Run(WorkerPools.Open(items, limit1), turns1))
         == PackagedAfter(work, rank, key, WorkerPools.Run(WorkerPools.Open(items, limit2), turns2))
  {
    WorkerPools.ScheduleDoesNotShow(work, rank, items, limit1, turns1, items, limit2, turns2);
  }

  /** Sort the pool's results by agent id, then index them. */
  function PackagedAfter<T>(work: T -> AgentResult, rank: AgentResult -> int, key: Finding -> string, p: WorkerPools.Pool<T>): seq<Entry> {
    Capped(Numbered(Firsts(key, Candidates(WorkerPools.SortBy(rank, WorkerPools.Map(work, p.finished))))))
  }
}
