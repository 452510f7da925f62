/**
 Command options printed as an argument list and read back from it (src/commands/legacy-args.js,
 src/legacy-cli.js). Options that take a value are given by their text, "" when they are not set.
 */
module LegacyArgs {
  import opened Text

  datatype Options = Options(
    path: string, outputDir: string, json: bool, ai: Option<bool>, aiDryRun: bool, stream: bool, dryRun: bool,
    email: Option<bool>, dashboard: Option<bool>, scanMode: string, maxParallel: string, maxCost: string,
    maxRuntimeMinutes: string, model: string, provider: string, severityClassifier: string, reuseOmargate: string,
    scopeMode: string, diff: bool, staged: bool, notifyEmail: string, emailOnComplete: string, notifySession: string,
    requireUsageLedger: bool, devtestbotBaseUrl: string, devtestbotScope: string, devtestbot: Option<bool>,
    persona: string, skipPersona: string)

  /** One thing the printer may print: a flag with a value, or a flag alone. */
  datatype Entry = Valued(flag: string, text: string) | Bare(flag: string, on: bool)

  function ClassifierText(s: string): string {
    if s == "off" then "" else s
  }

  /** Every option in the order in which it is printed. */
  function Plan(o: Options): seq<Entry> {
    OutputPlan(o) + LimitPlan(o) + ScopePlan(o) + GatePlan(o)
  }

  function OutputPlan(o: Options): seq<Entry> {
    [ Valued("--path", o.path),
      Valued("--output-dir", o.outputDir),
      Bare("--json", o.json),
      Bare("--no-ai", o.ai == Some(false)),
      Bare("--ai-dry-run", o.aiDryRun),
      Bare("--stream", o.stream),
      Bare("--dry-run", o.dryRun),
      Bare("--no-email", o.email == Some(false)),
      Bare("--no-dashboard", o.dashboard == Some(false)) ]
  }

  function LimitPlan(o: Options): seq<Entry> {
    [ Valued("--scan-mode", o.scanMode),
      Valued("--max-parallel", o.maxParallel),
      Valued("--max-cost", o.maxCost),
      Valued("--max-runtime-minutes", o.maxRuntimeMinutes),
      Valued("--model", o.model),
      Valued("--provider", o.provider),
      Valued("--severity-classifier", ClassifierText(o.severityClassifier)),
      Valued("--reuse-omargate", o.reuseOmargate) ]
  }

  function ScopePlan(o: Options): seq<Entry> {
    [ Valued("--scope-mode", o.scopeMode),
      Bare("--diff", o.diff),
      Bare("--staged", o.staged),
      Valued("--notify-email", o.notifyEmail),
      Valued("--email-on-complete", o.emailOnComplete),
      Valued("--notify-session", o.notifySession),
      Bare("--require-usage-ledger", o.requireUsageLedger) ]
  }

  function GatePlan(o: Options): seq<Entry> {
    [ Valued("--devtestbot-base-url", o.devtestbotBaseUrl),
      Valued("--devtestbot-scope", o.devtestbotScope),
      Bare("--no-devtestbot", o.devtestbot == Some(false)),
      Valued("--persona", o.persona),
      Valued("--skip-persona", o.skipPersona) ]
  }

  function Print(e: Entry): seq<string> {
    match e
    case Valued(flag, text) => if Trim(text) == "" then [] else [flag, Trim(text)]
    case Bare(flag, on) => if on then [flag] else []
  }

  function PrintAll(plan: seq<Entry>): seq<string> {
    if plan == [] then [] else Print(plan[0]) + PrintAll(plan[1..])
  }

  // ---------------------------------------------------------------- the printer

  /** The one array every helper pushes onto; `printed` records what has been printed so far. */
  class ArgumentList {
    var args: seq<string>
    const baseArgs: seq<string>
    ghost var printed: seq<Entry>

    ghost predicate Valid()
      reads this
    {
      args == baseArgs + PrintAll(printed)
    }

    constructor (baseArgs: seq<string>)
      ensures Valid() && this.baseArgs == baseArgs && printed == []
    {
      this.baseArgs := baseArgs;
      args := baseArgs;
      printed := [];
    }

    method AppendValue(flag: string, text: string)
      requires Valid()
      modifies this
      ensures Valid() && printed == old(printed) + [Valued(flag, text)]
    {
      PrintAllSnoc(printed, Valued(flag, text));
      var value := Trim(text);
      if value != "" {
        args := args + [flag, value];
      }
      printed := printed + [Valued(flag, text)];
    }

    method AppendBoolean(flag: string, on: bool)
      requires Valid()
      modifies this
      ensures Valid() && printed == old(printed) + [Bare(flag, on)]
    {
      PrintAllSnoc(printed, Bare(flag, on));
      if on {
        args := args + [flag];
      }
      printed := printed + [Bare(flag, on)];
    }

    method AppendNegatedBoolean(flag: string, given: Option<bool>)
      requires Valid()
      modifies this
      ensures Valid() && printed == old(printed) + [Bare(flag, given == Some(false))]
    {
      AppendBoolean(flag, given == Some(false));
    }

    method AppendOutputOptions(o: Options)
      requires Valid()
      modifies this
      ensures Valid() && printed == old(printed) + OutputPlan(o)
    {
      hide Valid, Trim, PrintAll;
      AppendValue("--path", o.path);
      AppendValue("--output-dir", o.outputDir);
      AppendBoolean("--json", o.json);
      AppendNegatedBoolean("--no-ai", o.ai);
      AppendBoolean("--ai-dry-run", o.aiDryRun);
      AppendBoolean("--stream", o.stream);
      AppendBoolean("--dry-run", o.dryRun);
      AppendNegatedBoolean("--no-email", o.email);
      AppendNegatedBoolean("--no-dashboard", o.dashboard);
    }

    method AppendLimitOptions(o: Options)
      requires Valid()
      modifies this
      ensures Valid() && printed == old(printed) + LimitPlan(o)
    {
      hide Valid, Trim, PrintAll;
      AppendValue("--scan-mode", o.scanMode);
      AppendValue("--max-parallel", o.maxParallel);
      AppendValue("--max-cost", o.maxCost);
      AppendValue("--max-runtime-minutes", o.maxRuntimeMinutes);
      AppendValue("--model", o.model);
      AppendValue("--provider", o.provider);
      // the helper prints nothing for an empty text, so "off" and unset are one case
      AppendValue("--severity-classifier", if o.severityClassifier == "off" then "" else o.severityClassifier);
      AppendValue("--reuse-omargate", o.reuseOmargate);
    }

    method AppendScopeOptions(o: Options)
      requires Valid()
      modifies this
      ensures Valid() && printed == old(printed) + ScopePlan(o)
    {
      hide Valid, Trim, PrintAll;
      AppendValue("--scope-mode", o.scopeMode);
      AppendBoolean("--diff", o.diff);
      AppendBoolean("--staged", o.staged);
      AppendValue("--notify-email", o.notifyEmail);
      AppendValue("--email-on-complete", o.emailOnComplete);
      AppendValue("--notify-session", o.notifySession);
      AppendBoolean("--require-usage-ledger", o.requireUsageLedger);
    }

    method AppendGateOptions(o: Options)
      requires Valid()
      modifies this
      ensures Valid() && printed == old(printed) + GatePlan(o)
    {
      hide Valid, Trim, PrintAll;
      AppendValue("--devtestbot-base-url", o.devtestbotBaseUrl);
      AppendValue("--devtestbot-scope", o.devtestbotScope);
      AppendNegatedBoolean("--no-devtestbot", o.devtestbot);
      AppendValue("--persona", o.persona);
      AppendValue("--skip-persona", o.skipPersona);
    }
  }

  /** buildLegacyArgs */
  method BuildLegacyArgs(baseArgs: seq<string>, o: Options) returns (args: seq<string>)
    ensures args == baseArgs + PrintAll(Plan(o))
  {
    hide PrintAll, OutputPlan, LimitPlan, ScopePlan, GatePlan;
    var list := new ArgumentList(baseArgs);
    list.AppendOutputOptions(o);
    list.AppendLimitOptions(o);
    list.AppendScopeOptions(o);
    list.AppendGateOptions(o);
    assert list.printed == Plan(o);
    args := list.args;
  }

  lemma PrintAllSnoc(plan: seq<Entry>, e: Entry)
    ensures PrintAll(plan + [e]) == PrintAll(plan) + Print(e)
  {
    if plan != [] {
      assert (plan + [e])[1..] == plan[1..] + [e];
      PrintAllSnoc(plan[1..], e);
    }
  }

  // ---------------------------------------------------------------- the reader

  /** getCommandOptionValue: nothing, a value, or an error because no value follows the flag. */
  datatype Found = Absent | Value(text: string) | MissingValue

  function FindFlag(args: seq<string>, flag: string): (i: nat)
    ensures i <= |args|
    ensures i < |args| ==> Trim(args[i]) == flag
    ensures forall j | 0 <= j < i :: Trim(args[j]) != flag
  {
    if args == [] || Trim(args[0]) == flag then 0 else 1 + FindFlag(args[1..], flag)
  }

  predicate StartsWithDash(s: string) {
    s != "" && s[0] == '-'
  }

  function GetValue(args: seq<string>, flag: string): Found {
    var i := FindFlag(args, flag);
    if i == |args| then Absent
    else
      var next := if i + 1 < |args| then Trim(args[i + 1]) else "";
      if next == "" || StartsWithDash(next) then MissingValue else Value(next)
  }

  /** What stands after the first mention of a flag is its value, unless it is blank or begins with a dash. */
  lemma ValueAfterFlag(args: seq<string>, flag: string, i: nat)
    requires i < |args| && Trim(args[i]) == flag && forall j | 0 <= j < i :: Trim(args[j]) != flag
    ensures i + 1 == |args| ==> GetValue(args, flag) == MissingValue
    ensures i + 1 < |args| ==>
      var next := Trim(args[i + 1]);
      GetValue(args, flag) == if next == "" || next[0] == '-' then MissingValue else Value(next)
  {
    hide Trim;
    var found := FindFlag(args, flag);
    assert found == i;
  }

  predicate HasFlag(args: seq<string>, flag: string) {
    exists i :: 0 <= i < |args| && Trim(args[i]) == flag
  }

  // ---------------------------------------------------------------- the round trip

  ghost predicate WellFormed(plan: seq<Entry>) {
    && (forall i | 0 <= i < |plan| :: Trimmed(plan[i].flag) && StartsWithDash(plan[i].flag))
    && (forall i, j | 0 <= i < j < |plan| :: plan[i].flag != plan[j].flag)
  }

  predicate Dashed(e: Entry) {
    e.Valued? && StartsWithDash(Trim(e.text))
  }

  /** Reading back one option: its value up to trimming, absent when unset; present or not for a flag alone. */
  ghost predicate ReadsBack(args: seq<string>, e: Entry) {
    match e
    case Valued(flag, text) => GetValue(args, flag) == if Trim(text) == "" then Absent else Value(Trim(text))
    case Bare(flag, on) => HasFlag(args, flag) <==> on
  }

  ghost predicate AllReadBack(args: seq<string>, plan: seq<Entry>) {
    forall i | 0 <= i < |plan| :: ReadsBack(args, plan[i])
  }

  lemma FindAfter(front: seq<string>, back: seq<string>, flag: string)
    requires !HasFlag(front, flag)
    ensures FindFlag(front + back, flag) == |front| + FindFlag(back, flag)
  {
    var i := FindFlag(back, flag);
    var all := front + back;
    assert forall j | 0 <= j < |front| :: all[j] == front[j];
    assert forall j | 0 <= j < |back| :: all[|front| + j] == back[j];
  }

  lemma HasFlagIn(front: seq<string>, back: seq<string>, flag: string)
    ensures HasFlag(front + back, flag) <==> HasFlag(front, flag) || HasFlag(back, flag)
  {
    var all := front + back;
    assert forall j | 0 <= j < |front| :: all[j] == front[j];
    assert forall j | 0 <= j < |back| :: all[|front| + j] == back[j];
  }

  /** An entry prints its own flag or nothing, and no other text that looks like a flag. */
  lemma PrintedFlags(e: Entry, flag: string)
    requires Trimmed(e.flag) && StartsWithDash(flag) && !Dashed(e)
    ensures HasFlag(Print(e), flag) <==> flag == e.flag && Print(e) != []
  {
    TrimKeepsTrimmed(e.flag);
    if e.Valued? {
      TrimTwice(e.text);
    }
    if Print(e) != [] {
      assert Print(e)[0] == e.flag;
    }
  }

  lemma {:induction false} NoForeignFlag(plan: seq<Entry>, flag: string)
    requires WellFormed(plan) && StartsWithDash(flag)
    requires forall i | 0 <= i < |plan| :: plan[i].flag != flag && !Dashed(plan[i])
    ensures !HasFlag(PrintAll(plan), flag)
  {
    if plan != [] {
      PrintedFlags(plan[0], flag);
      NoForeignFlag(plan[1..], flag);
      HasFlagIn(Print(plan[0]), PrintAll(plan[1..]), flag);
    }
  }

  lemma PrintAllHead(front: seq<string>, plan: seq<Entry>)
    requires plan != []
    ensures front + PrintAll(plan) == (front + Print(plan[0])) + PrintAll(plan[1..])
    ensures WellFormed(plan) ==> WellFormed(plan[1..])
  {
  }

  /** A printed entry whose predecessors are harmless is found at its own place. */
  lemma {:induction false} FoundAtOwnPlace(front: seq<string>, plan: seq<Entry>, i: nat)
    requires WellFormed(plan) && i < |plan| && !HasFlag(front, plan[i].flag)
    requires forall j | 0 <= j < i :: !Dashed(plan[j])
    requires plan[i].Valued? && Trim(plan[i].text) != ""
    ensures GetValue(front + PrintAll(plan), plan[i].flag) ==
      if Dashed(plan[i]) then MissingValue else Value(Trim(plan[i].text))
    decreases i
  {
    hide HasFlag, PrintAll, GetValue;
    var flag := plan[i].flag;
    PrintAllHead(front, plan);
    if i == 0 {
      FoundHere(front, plan[0], PrintAll(plan[1..]));
    } else {
      PrintedFlags(plan[0], flag);
      HasFlagIn(front, Print(plan[0]), flag);
      FoundAtOwnPlace(front + Print(plan[0]), plan[1..], i - 1);
    }
  }

  lemma FoundHere(front: seq<string>, e: Entry, rest: seq<string>)
    requires e.Valued? && Trim(e.text) != "" && Trimmed(e.flag) && !HasFlag(front, e.flag)
    ensures GetValue(front + Print(e) + rest, e.flag) == if Dashed(e) then MissingValue else Value(Trim(e.text))
  {
    var back := [e.flag, Trim(e.text)] + rest;
    TrimKeepsTrimmed(e.flag);
    TrimTwice(e.text);
    FindAfter(front, back, e.flag);
    assert back[0] == e.flag && back[1] == Trim(e.text);
    assert front + Print(e) + rest == front + back;
  }

  /** The flag of an entry that prints nothing is nowhere; that of an entry that prints is there. */
  lemma {:induction false} PresentIffPrinted(front: seq<string>, plan: seq<Entry>, i: nat)
    requires WellFormed(plan) && i < |plan| && !HasFlag(front, plan[i].flag)
    requires forall j | 0 <= j < |plan| :: !Dashed(plan[j])
    ensures HasFlag(front + PrintAll(plan), plan[i].flag) <==> Print(plan[i]) != []
    decreases i
  {
    hide HasFlag, PrintAll, Print;
    var flag := plan[i].flag;
    PrintedFlags(plan[0], flag);
    PrintAllHead(front, plan);
    HasFlagIn(front, Print(plan[0]), flag);
    if i == 0 {
      NoForeignFlag(plan[1..], flag);
      HasFlagIn(front + Print(plan[0]), PrintAll(plan[1..]), flag);
    } else {
      PresentIffPrinted(front + Print(plan[0]), plan[1..], i - 1);
    }
  }

  lemma AbsentWithoutFlag(args: seq<string>, flag: string)
    requires !HasFlag(args, flag)
    ensures GetValue(args, flag) == Absent
  {
    var i := FindFlag(args, flag);
  }

  /** All options read back exactly when none has a value that begins with a dash. */
  lemma RoundTripIff(baseArgs: seq<string>, plan: seq<Entry>)
    requires WellFormed(plan) && forall i | 0 <= i < |plan| :: !HasFlag(baseArgs, plan[i].flag)
    ensures AllReadBack(baseArgs + PrintAll(plan), plan)
      <==> (forall i | 0 <= i < |plan| :: !Dashed(plan[i]))
  {
    var args := baseArgs + PrintAll(plan);
    if forall i | 0 <= i < |plan| :: !Dashed(plan[i]) {
      forall i | 0 <= i < |plan| ensures ReadsBack(args, plan[i]) {
        PresentIffPrinted(baseArgs, plan, i);
        if plan[i].Valued? {
          if Trim(plan[i].text) == "" {
            AbsentWithoutFlag(args, plan[i].flag);
          } else {
            FoundAtOwnPlace(baseArgs, plan, i);
          }
        }
      }
    } else {
      var i := FirstDashed(plan);
      FoundAtOwnPlace(baseArgs, plan, i);
      assert !ReadsBack(args, plan[i]);
    }
  }

  lemma FirstDashed(plan: seq<Entry>) returns (i: nat)
    requires exists j :: 0 <= j < |plan| && Dashed(plan[j])
    ensures i < |plan| && Dashed(plan[i]) && forall j | 0 <= j < i :: !Dashed(plan[j])
  {
    if Dashed(plan[0]) {
      i := 0;
    } else {
      var j :| 0 <= j < |plan| && Dashed(plan[j]);
      assert Dashed(plan[1..][j - 1]);
      i := FirstDashed(plan[1..]);
      i := i + 1;
    }
  }

  /** The place of a flag in the plan. */
  function Place(flag: string): int {
    match flag
    case "--path" => 0
    case "--output-dir" => 1
    case "--json" => 2
    case "--no-ai" => 3
    case "--ai-dry-run" => 4
    case "--stream" => 5
    case "--dry-run" => 6
    case "--no-email" => 7
    case "--no-dashboard" => 8
    case "--scan-mode" => 9
    case "--max-parallel" => 10
    case "--max-cost" => 11
    case "--max-runtime-minutes" => 12
    case "--model" => 13
    case "--provider" => 14
    case "--severity-classifier" => 15
    case "--reuse-omargate" => 16
    case "--scope-mode" => 17
    case "--diff" => 18
    case "--staged" => 19
    case "--notify-email" => 20
    case "--email-on-complete" => 21
    case "--notify-session" => 22
    case "--require-usage-ledger" => 23
    case "--devtestbot-base-url" => 24
    case "--devtestbot-scope" => 25
    case "--no-devtestbot" => 26
    case "--persona" => 27
    case "--skip-persona" => 28
    case _ => -1
  }

  lemma OutputPlanPlaces(o: Options)
    ensures forall i | 0 <= i < |OutputPlan(o)| :: PlacedFlag(OutputPlan(o)[i].flag, i)
  {
  }

  lemma LimitPlanPlaces(o: Options)
    ensures forall i | 0 <= i < |LimitPlan(o)| :: PlacedFlag(LimitPlan(o)[i].flag, 9 + i)
  {
  }

  lemma ScopePlanPlaces(o: Options)
    ensures forall i | 0 <= i < |ScopePlan(o)| :: PlacedFlag(ScopePlan(o)[i].flag, 17 + i)
  {
  }

  lemma GatePlanPlaces(o: Options)
    ensures forall i | 0 <= i < |GatePlan(o)| :: PlacedFlag(GatePlan(o)[i].flag, 24 + i)
  {
  }

  predicate PlacedFlag(flag: string, i: int) {
    Trimmed(flag) && StartsWithDash(flag) && Place(flag) == i
  }

  /** Which part of the plan holds entry i. */
  lemma PlanAt(o: Options, i: nat)
    requires i < 29
    ensures |OutputPlan(o)| == 9 && |LimitPlan(o)| == 8 && |ScopePlan(o)| == 7 && |GatePlan(o)| == 5 && |Plan(o)| == 29
    ensures Plan(o)[i] ==
      if i < 9 then OutputPlan(o)[i] else if i < 17 then LimitPlan(o)[i - 9]
      else if i < 24 then ScopePlan(o)[i - 17] else GatePlan(o)[i - 24]
  {
    assert |OutputPlan(o)| == 9 && |LimitPlan(o)| == 8 && |ScopePlan(o)| == 7 && |GatePlan(o)| == 5;
    hide OutputPlan, LimitPlan, ScopePlan, GatePlan;
  }

  /** The flags are distinct, so the plan is one the round trip applies to. */
  lemma PlanIsWellFormed(o: Options)
    ensures WellFormed(Plan(o)) && |Plan(o)| == 29
  {
    PlanAt(o, 0);
    OutputPlanPlaces(o);
    LimitPlanPlaces(o);
    ScopePlanPlaces(o);
    GatePlanPlaces(o);
    hide Place, OutputPlan, LimitPlan, ScopePlan, GatePlan;
    var plan := Plan(o);
    assert |plan| == 29;
    forall i | 0 <= i < |plan| ensures PlacedFlag(plan[i].flag, i) {
      PlanAt(o, i);
    }
  }

  // ---------------------------------------------------------------- option by option

  /** What a reader should find for a text option. */
  function Printed(text: string): Found {
    if Trim(text) == "" then Absent else Value(Trim(text))
  }

  ghost predicate OutputRead(args: seq<string>, o: Options) {
    && GetValue(args, "--path") == Printed(o.path)
    && GetValue(args, "--output-dir") == Printed(o.outputDir)
    && (HasFlag(args, "--json") <==> o.json)
    && (HasFlag(args, "--no-ai") <==> o.ai == Some(false))
    && (HasFlag(args, "--ai-dry-run") <==> o.aiDryRun)
    && (HasFlag(args, "--stream") <==> o.stream)
    && (HasFlag(args, "--dry-run") <==> o.dryRun)
    && (HasFlag(args, "--no-email") <==> o.email == Some(false))
    && (HasFlag(args, "--no-dashboard") <==> o.dashboard == Some(false))
  }

  ghost predicate LimitRead(args: seq<string>, o: Options) {
    && GetValue(args, "--scan-mode") == Printed(o.scanMode)
    && GetValue(args, "--max-parallel") == Printed(o.maxParallel)
    && GetValue(args, "--max-cost") == Printed(o.maxCost)
    && GetValue(args, "--max-runtime-minutes") == Printed(o.maxRuntimeMinutes)
    && GetValue(args, "--model") == Printed(o.model)
    && GetValue(args, "--provider") == Printed(o.provider)
    && GetValue(args, "--severity-classifier") == Printed(o.severityClassifier)
    && GetValue(args, "--reuse-omargate") == Printed(o.reuseOmargate)
  }

  ghost predicate ScopeRead(args: seq<string>, o: Options) {
    && GetValue(args, "--scope-mode") == Printed(o.scopeMode)
    && (HasFlag(args, "--diff") <==> o.diff)
    && (HasFlag(args, "--staged") <==> o.staged)
    && GetValue(args, "--notify-email") == Printed(o.notifyEmail)
    && GetValue(args, "--email-on-complete") == Printed(o.emailOnComplete)
    && GetValue(args, "--notify-session") == Printed(o.notifySession)
    && (HasFlag(args, "--require-usage-ledger") <==> o.requireUsageLedger)
  }

  ghost predicate GateRead(args: seq<string>, o: Options) {
    && GetValue(args, "--devtestbot-base-url") == Printed(o.devtestbotBaseUrl)
    && GetValue(args, "--devtestbot-scope") == Printed(o.devtestbotScope)
    && (HasFlag(args, "--no-devtestbot") <==> o.devtestbot == Some(false))
    && GetValue(args, "--persona") == Printed(o.persona)
    && GetValue(args, "--skip-persona") == Printed(o.skipPersona)
  }

  lemma OutputReadIff(args: seq<string>, o: Options)
    ensures OutputRead(args, o) <==> AllReadBack(args, OutputPlan(o))
  {
    hide GetValue, HasFlag, Trim;
    var plan := OutputPlan(o);
    assert OutputRead(args, o) <==>
      ReadsBack(args, plan[0]) && ReadsBack(args, plan[1]) && ReadsBack(args, plan[2]) && ReadsBack(args, plan[3]) &&
      ReadsBack(args, plan[4]) && ReadsBack(args, plan[5]) && ReadsBack(args, plan[6]) && ReadsBack(args, plan[7]) &&
      ReadsBack(args, plan[8]);
  }

  lemma LimitReadIff(args: seq<string>, o: Options)
    ensures o.severityClassifier != "off" ==> (LimitRead(args, o) <==> AllReadBack(args, LimitPlan(o)))
    ensures o.severityClassifier == "off" && LimitRead(args, o) ==> ClassifierOnly(args, o)
  {
    hide GetValue, HasFlag, Trim;
    var plan := LimitPlan(o);
    assert o.severityClassifier != "off" ==> (LimitRead(args, o) <==>
      ReadsBack(args, plan[0]) && ReadsBack(args, plan[1]) && ReadsBack(args, plan[2]) && ReadsBack(args, plan[3]) &&
      ReadsBack(args, plan[4]) && ReadsBack(args, plan[5]) && ReadsBack(args, plan[6]) && ReadsBack(args, plan[7]));
  }

  /** Everything of the limit options but the classifier reads back, and that one reads as the text "off". */
  ghost predicate ClassifierOnly(args: seq<string>, o: Options) {
    && (forall i | 0 <= i < |LimitPlan(o)| && i != 6 :: ReadsBack(args, LimitPlan(o)[i]))
    && GetValue(args, "--severity-classifier") == Printed("off")
  }

  lemma ScopeReadIff(args: seq<string>, o: Options)
    ensures ScopeRead(args, o) <==> AllReadBack(args, ScopePlan(o))
  {
    hide GetValue, HasFlag, Trim;
    var plan := ScopePlan(o);
    assert ScopeRead(args, o) <==>
      ReadsBack(args, plan[0]) && ReadsBack(args, plan[1]) && ReadsBack(args, plan[2]) && ReadsBack(args, plan[3]) &&
      ReadsBack(args, plan[4]) && ReadsBack(args, plan[5]) && ReadsBack(args, plan[6]);
  }

  lemma GateReadIff(args: seq<string>, o: Options)
    ensures GateRead(args, o) <==> AllReadBack(args, GatePlan(o))
  {
    hide GetValue, HasFlag, Trim;
    var plan := GatePlan(o);
    assert GateRead(args, o) <==>
      ReadsBack(args, plan[0]) && ReadsBack(args, plan[1]) && ReadsBack(args, plan[2]) && ReadsBack(args, plan[3]) &&
      ReadsBack(args, plan[4]);
  }

  /** Every option of the command, read by its own flag as the local commands read it. */
  ghost predicate OptionsRead(args: seq<string>, o: Options) {
    OutputRead(args, o) && LimitRead(args, o) && ScopeRead(args, o) && GateRead(args, o)
  }

  lemma OptionsReadIff(args: seq<string>, o: Options)
    requires o.severityClassifier != "off"
    ensures OptionsRead(args, o) <==> AllReadBack(args, Plan(o))
  {
    OutputReadIff(args, o);
    LimitReadIff(args, o);
    ScopeReadIff(args, o);
    GateReadIff(args, o);
    hide OutputRead, LimitRead, ScopeRead, GateRead, OutputPlan, LimitPlan, ScopePlan, GatePlan, AllReadBack;
    InEach(args, OutputPlan(o) + LimitPlan(o) + ScopePlan(o), GatePlan(o));
    InEach(args, OutputPlan(o) + LimitPlan(o), ScopePlan(o));
    InEach(args, OutputPlan(o), LimitPlan(o));
  }

  /** With the classifier set to "off", whatever else reads back, it does not. */
  lemma OffIsLost(baseArgs: seq<string>, o: Options)
    requires o.severityClassifier == "off"
    requires forall i | 0 <= i < |Plan(o)| :: !HasFlag(baseArgs, Plan(o)[i].flag)
    ensures !OptionsRead(baseArgs + PrintAll(Plan(o)), o)
  {
    var args := baseArgs + PrintAll(Plan(o));
    LimitReadIff(args, o);
    OthersRead(args, o);
    var i := SomeNotRead(baseArgs, o);
    hide Plan, GetValue, HasFlag, PrintAll, LimitPlan, ReadsBack;
    TrimKeepsTrimmed("off");
  }

  lemma SomeNotRead(baseArgs: seq<string>, o: Options) returns (i: nat)
    requires o.severityClassifier == "off"
    requires forall i | 0 <= i < |Plan(o)| :: !HasFlag(baseArgs, Plan(o)[i].flag)
    ensures i < |Plan(o)|
    ensures if i == 15 then GetValue(baseArgs + PrintAll(Plan(o)), "--severity-classifier") == Absent
      else !ReadsBack(baseArgs + PrintAll(Plan(o)), Plan(o)[i])
  {
    var args := baseArgs + PrintAll(Plan(o));
    PlanIsWellFormed(o);
    ClassifierPlace(o);
    RoundTripIff(baseArgs, Plan(o));
    hide Plan, GetValue, HasFlag, PrintAll;
    if forall i | 0 <= i < |Plan(o)| :: !Dashed(Plan(o)[i]) {
      i := 15;
      assert ReadsBack(args, Plan(o)[15]);
    } else {
      i := FirstDashed(Plan(o));
      FoundAtOwnPlace(baseArgs, Plan(o), i);
    }
  }

  lemma ClassifierPlace(o: Options)
    requires o.severityClassifier == "off"
    ensures |Plan(o)| == 29 && Plan(o)[15] == Valued("--severity-classifier", "")
    ensures !Dashed(Plan(o)[15]) && Trim("") == "" && Trim("off") == "off"
  {
    PlanIsWellFormed(o);
    assert Plan(o)[15] == LimitPlan(o)[6];
    TrimKeepsTrimmed("");
    TrimKeepsTrimmed("off");
  }

  lemma OthersRead(args: seq<string>, o: Options)
    ensures OptionsRead(args, o) && ClassifierOnly(args, o) ==> forall i | 0 <= i < |Plan(o)| && i != 15 :: ReadsBack(args, Plan(o)[i])
  {
    hide OutputRead, LimitRead, ScopeRead, GateRead, OutputPlan, LimitPlan, ScopePlan, GatePlan, Plan, ReadsBack, GetValue, Printed;
    PlanAt(o, 0);
    if OptionsRead(args, o) && ClassifierOnly(args, o) {
      OutputReadIff(args, o);
      ScopeReadIff(args, o);
      GateReadIff(args, o);
      forall i | 0 <= i < |Plan(o)| && i != 15 ensures ReadsBack(args, Plan(o)[i]) {
        PlanAt(o, i);
      }
    }
  }

  lemma InEach(args: seq<string>, a: seq<Entry>, b: seq<Entry>)
    ensures AllReadBack(args, a + b) <==> AllReadBack(args, a) && AllReadBack(args, b)
  {
    hide ReadsBack;
    assert forall i | 0 <= i < |a| :: (a + b)[i] == a[i];
    assert forall i | 0 <= i < |b| :: (a + b)[|a| + i] == b[i];
  }

  /**
   Printed and read back, every option comes out unchanged up to trimming exactly when no value
   begins with a dash and the severity classifier is not "off".
   */
  lemma OptionsRoundTripIff(baseArgs: seq<string>, o: Options)
    requires forall i | 0 <= i < |Plan(o)| :: !HasFlag(baseArgs, Plan(o)[i].flag)
    ensures OptionsRead(baseArgs + PrintAll(Plan(o)), o) <==>
      o.severityClassifier != "off" && forall i | 0 <= i < |Plan(o)| :: !Dashed(Plan(o)[i])
  {
    if o.severityClassifier == "off" {
      OffIsLost(baseArgs, o);
    } else {
      PlanIsWellFormed(o);
      RoundTripIff(baseArgs, Plan(o));
      OptionsReadIff(baseArgs + PrintAll(Plan(o)), o);
    }
  }

  /** The one option that is not printed as given: a severity classifier reads back as it was unless it is exactly "off". */
  lemma ClassifierReadsBackIff(baseArgs: seq<string>, o: Options)
    requires forall i | 0 <= i < |Plan(o)| :: !HasFlag(baseArgs, Plan(o)[i].flag) && !Dashed(Plan(o)[i])
    ensures GetValue(baseArgs + PrintAll(Plan(o)), "--severity-classifier") == Printed(o.severityClassifier)
      <==> o.severityClassifier != "off"
  {
    hide *;
    PlanIsWellFormed(o);
    RoundTripIff(baseArgs, Plan(o));
    ClassifierReads(baseArgs + PrintAll(Plan(o)), o);
    PrintedOffIsLost(o.severityClassifier);
  }

  lemma ClassifierReads(args: seq<string>, o: Options)
    requires AllReadBack(args, Plan(o))
    ensures GetValue(args, "--severity-classifier") == Printed(ClassifierText(o.severityClassifier))
  {
    PlanAt(o, 15);
    hide Plan, GetValue, HasFlag, Trim, OutputPlan, ScopePlan, GatePlan, ClassifierText;
    assert ReadsBack(args, Plan(o)[15]);
  }

  lemma PrintedOffIsLost(classifier: string)
    ensures Printed(ClassifierText(classifier)) == Printed(classifier) <==> classifier != "off"
  {
    TrimKeepsTrimmed("");
    TrimKeepsTrimmed("off");
  }
}
