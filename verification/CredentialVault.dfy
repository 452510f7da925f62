/**
 Opaque credentials: minting, re-binding, freezing the trust context, sending
 (src/auth/credential-destinations.js). `originOf` is URL parsing; it gives "" for anything that is
 not an http(s) URL.
 */
module CredentialVault {
  import opened Text
  import UrlPath
  import UrlParser
  import UrlAgreement

  type Origin = string

  /** A frozen object; `id` is its identity. */
  datatype Credential = Credential(id: nat, origin: Origin, source: string)
  datatype Context = Context(id: nat, apiOrigin: Origin, gatewayOrigin: Origin)

  /** What a trust context is built from: two variables and the `apiUrl` of the global config. */
  datatype Settings = Settings(apiUrl: string, configUrl: string, pocketUrl: string)

  const DEFAULT_API_URL := "https://api.sentinelayer.com"

  /** How a credential came about: bound to a context's API, re-bound to its gateway, or for one admission. */
  datatype Birth = User(context: Context) | Gateway(parent: Credential, context: Context) | Admission(apiUrl: string)

  datatype Sent = Sent(credential: Credential, url: string, token: string)

  /** `pending` holds the settings of freezes that have begun and not ended; `births` and `sends` are history. */
  datatype State = State(
    tokens: map<Credential, string>, births: map<Credential, Birth>, contexts: set<Context>,
    processContext: Option<Context>, pending: seq<Settings>, next: nat, sends: seq<Sent>)

  const EMPTY := State(map[], map[], {}, None, [], 0, [])

  predicate IsUserSource(source: string) {
    source in {"user", "env", "config", "session"}
  }

  function ApiOrigin(originOf: string -> Origin, s: Settings): Origin {
    if Trim(s.apiUrl) != "" then originOf(Trim(s.apiUrl))
    else if Trim(s.configUrl) != "" then originOf(Trim(s.configUrl))
    else originOf(DEFAULT_API_URL)
  }

  /** One call into the module, with every argument. Contexts and credentials are whatever objects the caller holds. */
  datatype Op =
    | Resolve(settings: Settings)
    | FreezeBegin(settings: Settings)
    | FreezeEnd(which: nat)
    | MintUser(token: string, context: Context, source: string)
    | MintGateway(credential: Credential, context: Context)
    | MintAdmission(token: string, apiUrl: string)
    | Send(credential: Credential, url: string)

  function Build(originOf: string -> Origin, s: State, settings: Settings): Context {
    Context(s.next, ApiOrigin(originOf, settings), originOf(settings.pocketUrl))
  }

  /** buildTrustContext */
  function AddContext(s: State, context: Context): State {
    s.(contexts := s.contexts + {context}, next := s.next + 1)
  }

  /** mint: nothing without a token or an origin. */
  function Mint(s: State, token: string, origin: Origin, source: string, birth: Birth): State {
    if Trim(token) == "" || origin == "" then s
    else
      var c := Credential(s.next, origin, source);
      s.(tokens := s.tokens[c := Trim(token)], births := s.births[c := birth], next := s.next + 1)
  }

  /** assertCredentialDestination */
  predicate MaySend(originOf: string -> Origin, s: State, c: Credential, url: string) {
    c in s.tokens && originOf(url) == c.origin && !UrlPath.HasUnsafePathSegment(url)
  }

  function Apply(originOf: string -> Origin, s: State, op: Op): State {
    match op
    case Resolve(settings) => AddContext(s, Build(originOf, s, settings))
    case FreezeBegin(settings) => if s.processContext.Some? then s else s.(pending := s.pending + [settings])
    case FreezeEnd(i) =>
      if i >= |s.pending| then s
      else
        var context := Build(originOf, s, s.pending[i]);
        AddContext(s, context).(processContext := Some(context), pending := s.pending[..i] + s.pending[i + 1..])
    case MintUser(token, context, source) =>
      if context in s.contexts then Mint(s, token, context.apiOrigin, source, User(context)) else s
    case MintGateway(c, context) =>
      if c in s.tokens && context in s.contexts && IsUserSource(c.source)
      then Mint(s, s.tokens[c], context.gatewayOrigin, "pocket_gateway", Gateway(c, context)) else s
    case MintAdmission(token, apiUrl) => Mint(s, token, originOf(apiUrl), "session_admission", Admission(apiUrl))
    case Send(c, url) => if MaySend(originOf, s, c, url) then s.(sends := s.sends + [Sent(c, url, s.tokens[c])]) else s
  }

  function Run(originOf: string -> Origin, s: State, ops: seq<Op>): State {
    if ops == [] then s else Apply(originOf, Run(originOf, s, ops[..|ops| - 1]), ops[|ops| - 1])
  }

  // ---------------------------------------------------------------- the module itself

  /** Minted for the user, and bound to the API of the context it was minted with. */
  predicate BornForUser(s: State, c: Credential) {
    c in s.births && s.births[c].User? && c.origin == s.births[c].context.apiOrigin
  }

  /** A new credential that carries the token of another one and cannot be re-bound itself. */
  predicate Rebound(before: State, after: State, parent: Credential, child: Credential) {
    && child !in before.tokens && !IsUserSource(child.source)
    && parent in before.tokens && child in after.tokens && after.tokens[child] == before.tokens[parent]
  }

  class Vault {
    var tokens: map<Credential, string>
    var births: map<Credential, Birth>
    var contexts: set<Context>
    var processContext: Option<Context>
    var pending: seq<Settings>
    var next: nat
    var sends: seq<Sent>
    const originOf: string -> Origin

    function Snapshot(): State
      reads this
    {
      State(tokens, births, contexts, processContext, pending, next, sends)
    }

    ghost predicate Valid()
      reads this
    {
      Inv(originOf, Snapshot())
    }

    constructor (originOf: string -> Origin)
      ensures this.originOf == originOf && Snapshot() == EMPTY && Valid()
    {
      this.originOf := originOf;
      tokens, births, contexts, processContext, pending, next, sends := map[], map[], {}, None, [], 0, [];
    }

    method BuildTrustContext(settings: Settings) returns (context: Context)
      requires Valid()
      modifies this
      ensures context == Build(originOf, old(Snapshot()), settings) && Snapshot() == AddContext(old(Snapshot()), context)
      ensures Valid()
    {
      ApplyInv(originOf, Snapshot(), Resolve(settings));
      hide Inv, Trim;
      var apiUrl := Trim(settings.apiUrl);
      if apiUrl == "" {
        apiUrl := Trim(settings.configUrl);
        if apiUrl == "" {
          apiUrl := DEFAULT_API_URL;
        }
      }
      context := Context(next, originOf(apiUrl), originOf(settings.pocketUrl));
      contexts := contexts + {context};
      next := next + 1;
    }

    /** resolveTrustContext, for the process environment (`own`) or any other. */
    method ResolveTrustContext(settings: Settings, own: bool) returns (context: Context)
      requires Valid()
      modifies this
      ensures Valid()
      ensures own && old(processContext).Some? ==> context == old(processContext).value && Snapshot() == old(Snapshot())
      ensures !(own && old(processContext).Some?) ==>
        && Snapshot() == Apply(originOf, old(Snapshot()), Resolve(settings)) && context in contexts
        && context.apiOrigin == ApiOrigin(originOf, settings) && context.gatewayOrigin == originOf(settings.pocketUrl)
      ensures processContext == old(processContext)
    {
      hide Inv, ApiOrigin;
      if own && processContext.Some? {
        return processContext.value;
      }
      context := BuildTrustContext(settings);
    }

    /** freezeProcessTrustContext up to its await: the settings are read, nothing is decided yet. */
    method BeginFreeze(settings: Settings)
      requires Valid()
      modifies this
      ensures Snapshot() == Apply(originOf, old(Snapshot()), FreezeBegin(settings)) && Valid()
    {
      ApplyInv(originOf, Snapshot(), FreezeBegin(settings));
      hide Inv;
      if processContext.None? {
        pending := pending + [settings];
      }
    }

    /** freezeProcessTrustContext from its await on. */
    method EndFreeze(i: nat)
      requires Valid() && i < |pending|
      modifies this
      ensures Snapshot() == Apply(originOf, old(Snapshot()), FreezeEnd(i)) && Valid()
    {
      ApplyInv(originOf, Snapshot(), FreezeEnd(i));
      hide Inv;
      var context := BuildTrustContext(pending[i]);
      processContext := Some(context);
      pending := pending[..i] + pending[i + 1..];
    }

    method MintCredential(token: string, origin: Origin, source: string, birth: Birth) returns (c: Option<Credential>)
      modifies this
      ensures Snapshot() == Mint(old(Snapshot()), token, origin, source, birth)
      ensures c.Some? <==> Trim(token) != "" && origin != ""
      ensures c.Some? ==> c.value == Credential(old(next), origin, source)
      ensures old(Valid() && Proper(originOf, Snapshot(), token, origin, source, birth)) ==> Valid()
    {
      hide Trim, Inv, Proper;
      MintKeepsInv(originOf, Snapshot(), token, origin, source, birth);
      var value := Trim(token);
      if value == "" || origin == "" {
        return None;
      }
      c := Some(Credential(next, origin, source));
      tokens := tokens[c.value := value];
      births := births[c.value := birth];
      next := next + 1;
    }

    /** userCredential; an object that is not a context of this module is refused. */
    method UserCredential(token: string, context: Context, source: string) returns (ok: bool, c: Option<Credential>)
      requires Valid()
      modifies this
      ensures ok <==> context in old(contexts)
      ensures Snapshot() == Apply(originOf, old(Snapshot()), MintUser(token, context, source)) && Valid()
      ensures c.Some? ==> c.value in births && births[c.value] == User(context)
    {
      ApplyInv(originOf, Snapshot(), MintUser(token, context, source));
      hide Inv, Trim;
      c := None;
      ok := context in contexts;
      if ok {
        c := MintCredential(token, context.apiOrigin, source, User(context));
      }
    }

    /**
     gatewayCredential. What it re-binds was minted for the user and bound to an API, and the new
     credential can reach nothing but the context's gateway.
     */
    method GatewayCredential(credential: Credential, context: Context) returns (ok: bool, c: Option<Credential>)
      requires Valid()
      modifies this
      ensures Valid() && Snapshot() == Apply(originOf, old(Snapshot()), MintGateway(credential, context))
      ensures !ok ==> c.None? && Snapshot() == old(Snapshot())
      ensures ok <==>
        && credential in old(births) && context in old(contexts)
        && (credential.source == "user" || credential.source == "env" || credential.source == "config" || credential.source == "session")
      ensures ok ==> BornForUser(old(Snapshot()), credential)
      ensures ok ==> (c.None? <==> context.gatewayOrigin == "")
      ensures c.Some? ==> c.value.origin == context.gatewayOrigin && Rebound(old(Snapshot()), Snapshot(), credential, c.value)
    {
      ApplyInv(originOf, Snapshot(), MintGateway(credential, context));
      UserBorn(originOf, Snapshot(), credential);
      hide Inv, Trim;
      c := None;
      ok := credential in tokens && context in contexts && IsUserSource(credential.source);
      if ok {
        c := MintCredential(tokens[credential], context.gatewayOrigin, "pocket_gateway", Gateway(credential, context));
      }
    }

    method AdmissionCredential(token: string, apiUrl: string) returns (c: Option<Credential>)
      requires Valid()
      modifies this
      ensures Snapshot() == Apply(originOf, old(Snapshot()), MintAdmission(token, apiUrl)) && Valid()
      ensures c.Some? ==> c.value in births && births[c.value] == Admission(apiUrl)
    {
      ApplyInv(originOf, Snapshot(), MintAdmission(token, apiUrl));
      hide Inv, Trim;
      c := MintCredential(token, originOf(apiUrl), "session_admission", Admission(apiUrl));
    }

    /**
     credentialedRequest: the checks, then the transport. What goes out goes to the origin the
     credential was minted for, with its own token; anything refused leaves no trace.
     */
    method CredentialedRequest(credential: Credential, url: string) returns (ok: bool)
      requires Valid()
      modifies this
      ensures Valid() && Snapshot() == Apply(originOf, old(Snapshot()), Send(credential, url))
      ensures credential !in births ==> !ok
      ensures credential in births ==>
        (ok <==> originOf(url) == BirthOrigin(originOf, births[credential]) && !UrlPath.HasUnsafePathSegment(url))
      ensures sends == old(sends) + if ok then [Sent(credential, url, tokens[credential])] else []
    {
      ApplyInv(originOf, Snapshot(), Send(credential, url));
      BoundAtBirth(originOf, Snapshot(), credential);
      hide Inv, UrlPath.HasUnsafePathSegment;
      if credential !in tokens || originOf(url) != credential.origin || UrlPath.HasUnsafePathSegment(url) {
        return false;
      }
      sends := sends + [Sent(credential, url, tokens[credential])];
      ok := true;
    }
  }

  // ---------------------------------------------------------------- every run

  /** The origin a credential was bound to when it was minted. */
  function BirthOrigin(originOf: string -> Origin, b: Birth): Origin {
    match b
    case User(context) => context.apiOrigin
    case Gateway(_, context) => context.gatewayOrigin
    case Admission(apiUrl) => originOf(apiUrl)
  }

  /** A re-bound credential carries the token of a credential that the user's own token was minted into, never of a re-bound or admission one. */
  ghost predicate Bound(originOf: string -> Origin, s: State, c: Credential)
    requires c in s.births && c in s.tokens
  {
    var b := s.births[c];
    && c.origin == BirthOrigin(originOf, b) && c.origin != ""
    && (b.User? ==> b.context in s.contexts)
    && (b.Admission? ==> c.source == "session_admission")
    && (b.Gateway? ==>
          && c.source == "pocket_gateway" && b.context in s.contexts
          && b.parent in s.tokens && b.parent in s.births
          && IsUserSource(b.parent.source) && s.births[b.parent].User?
          && s.tokens[c] == s.tokens[b.parent])
  }

  ghost predicate Inv(originOf: string -> Origin, s: State) {
    TokensInv(s) && AllBound(originOf, s) && SendsInv(originOf, s)
  }

  /** Tokens are trimmed texts, and only credentials made so far carry one. */
  ghost predicate TokensInv(s: State) {
    && s.tokens.Keys == s.births.Keys
    && forall c | c in s.tokens :: c.id < s.next && Trim(s.tokens[c]) == s.tokens[c] && s.tokens[c] != ""
  }

  ghost predicate AllBound(originOf: string -> Origin, s: State) {
    forall c | c in s.births :: c in s.tokens && Bound(originOf, s, c)
  }

  /** Every send carried its credential's own token to the credential's origin, along a plain path. */
  ghost predicate SendsInv(originOf: string -> Origin, s: State) {
    forall i | 0 <= i < |s.sends| ::
      var sent := s.sends[i];
      && sent.credential in s.tokens && sent.token == s.tokens[sent.credential]
      && originOf(sent.url) == sent.credential.origin
      && !UrlPath.HasUnsafePathSegment(sent.url)
  }

  lemma BoundAtBirth(originOf: string -> Origin, s: State, c: Credential)
    requires Inv(originOf, s)
    ensures c in s.tokens <==> c in s.births
    ensures c in s.births ==> c.origin == BirthOrigin(originOf, s.births[c])
  {
    hide IsUserSource, BirthOrigin;
    if c in s.births {
      assert Bound(originOf, s, c);
    }
  }

  /** Only what was minted for the user has a user's source. */
  lemma UserBorn(originOf: string -> Origin, s: State, c: Credential)
    requires Inv(originOf, s)
    ensures c in s.tokens <==> c in s.births
    ensures c in s.births && IsUserSource(c.source) ==> BornForUser(s, c)
    ensures c in s.tokens ==> Trim(s.tokens[c]) == s.tokens[c] && s.tokens[c] != "" && c.id < s.next
    ensures forall d | d in s.tokens :: d.id < s.next
    ensures !IsUserSource("pocket_gateway")
  {
    hide Trim;
    if c in s.births && IsUserSource(c.source) {
      UserSourceIsNoOther(c.source);
      assert Bound(originOf, s, c);
    }
    if IsUserSource("pocket_gateway") {
      UserSourceIsNoOther("pocket_gateway");
    }
  }

  lemma UserSourceIsNoOther(source: string)
    requires IsUserSource(source)
    ensures source != "session_admission" && source != "pocket_gateway"
  {
    assert |source| <= 7;
  }

  /** What the three callers of mint give it. */
  ghost predicate Proper(originOf: string -> Origin, s: State, token: string, origin: Origin, source: string, birth: Birth) {
    && origin == BirthOrigin(originOf, birth)
    && (birth.User? ==> birth.context in s.contexts)
    && (birth.Admission? ==> source == "session_admission")
    && (birth.Gateway? ==>
          && source == "pocket_gateway" && birth.context in s.contexts
          && birth.parent in s.tokens && IsUserSource(birth.parent.source) && token == s.tokens[birth.parent])
  }

  lemma MintInv(originOf: string -> Origin, s: State, token: string, origin: Origin, source: string, birth: Birth)
    requires Inv(originOf, s)
    requires Proper(originOf, s, token, origin, source, birth)
    ensures Inv(originOf, Mint(s, token, origin, source, birth))
  {
    if Trim(token) != "" && origin != "" {
      var minted := Credential(s.next, origin, source);
      TrimTwice(token);
      NewIsNew(originOf, s, minted);
      hide Trim, UrlPath.HasUnsafePathSegment, IsUserSource, BirthOrigin, Inv;
      if birth.Gateway? {
        GatewayBound(originOf, s, token, birth.parent);
      }
      AddInv(originOf, s, minted, Trim(token), birth);
    }
  }

  lemma MintKeepsInv(originOf: string -> Origin, s: State, token: string, origin: Origin, source: string, birth: Birth)
    ensures Inv(originOf, s) && Proper(originOf, s, token, origin, source, birth) ==> Inv(originOf, Mint(s, token, origin, source, birth))
  {
    hide *;
    if Inv(originOf, s) && Proper(originOf, s, token, origin, source, birth) {
      MintInv(originOf, s, token, origin, source, birth);
    }
  }

  function Added(s: State, c: Credential, token: string, birth: Birth): State {
    s.(tokens := s.tokens[c := token], births := s.births[c := birth], next := s.next + 1)
  }

  lemma AddInv(originOf: string -> Origin, s: State, c: Credential, token: string, birth: Birth)
    requires Inv(originOf, s) && c.id == s.next && c !in s.tokens && c !in s.births
    requires Trim(token) == token && token != "" && Bound(originOf, Added(s, c, token, birth), c)
    ensures Inv(originOf, Added(s, c, token, birth))
  {
    var t := Added(s, c, token, birth);
    hide Trim, UrlPath.HasUnsafePathSegment, Bound;
    assert TokensInv(t);
    assert Extends(s, t) && SendsInv(originOf, t);
    hide Added, TokensInv, SendsInv;
    forall d | d in t.births ensures d in t.tokens && Bound(originOf, t, d) {
      AddedKeys(s, c, token, birth);
      if d != c {
        BoundStays(originOf, s, t, d);
      }
    }
  }

  lemma AddedKeys(s: State, c: Credential, token: string, birth: Birth)
    ensures var t := Added(s, c, token, birth);
      t.births.Keys == s.births.Keys + {c} && t.tokens.Keys == s.tokens.Keys + {c}
  {
  }

  lemma NewIsNew(originOf: string -> Origin, s: State, c: Credential)
    requires Inv(originOf, s) && c.id == s.next
    ensures c !in s.tokens && c !in s.births
  {
  }

  lemma GatewayBound(originOf: string -> Origin, s: State, token: string, parent: Credential)
    requires Inv(originOf, s) && parent in s.tokens && IsUserSource(parent.source) && token == s.tokens[parent]
    ensures parent in s.births && s.births[parent].User? && Trim(token) == token
  {
    UserBorn(originOf, s, parent);
    hide Inv, IsUserSource, Trim;
  }

  /** The later state knows all the earlier one knew. */
  ghost predicate Extends(s: State, t: State) {
    && s.contexts <= t.contexts
    && (forall c | c in s.tokens :: c in t.tokens && t.tokens[c] == s.tokens[c])
    && (forall c | c in s.births :: c in t.births && t.births[c] == s.births[c])
  }

  lemma BoundStays(originOf: string -> Origin, s: State, t: State, c: Credential)
    requires c in s.births && c in s.tokens && Bound(originOf, s, c) && Extends(s, t)
    ensures c in t.births && c in t.tokens && Bound(originOf, t, c)
  {
    hide BirthOrigin, IsUserSource;
  }

  /** Resolving and freezing only add contexts. */
  lemma NothingMinted(originOf: string -> Origin, s: State, t: State)
    requires Inv(originOf, s) && s.contexts <= t.contexts && s.next <= t.next
    requires t.tokens == s.tokens && t.births == s.births && t.sends == s.sends
    ensures Inv(originOf, t)
  {
    hide Trim, UrlPath.HasUnsafePathSegment, BirthOrigin, IsUserSource;
    forall c | c in t.births ensures Bound(originOf, t, c) {
      BoundStays(originOf, s, t, c);
    }
  }

  lemma SendInv(originOf: string -> Origin, s: State, c: Credential, url: string)
    requires Inv(originOf, s) && MaySend(originOf, s, c, url)
    ensures Inv(originOf, s.(sends := s.sends + [Sent(c, url, s.tokens[c])]))
  {
    hide Trim, UrlPath.HasUnsafePathSegment, BirthOrigin, IsUserSource;
    var t := s.(sends := s.sends + [Sent(c, url, s.tokens[c])]);
    forall d | d in t.births ensures Bound(originOf, t, d) {
      BoundStays(originOf, s, t, d);
    }
  }

  lemma ApplyInv(originOf: string -> Origin, s: State, op: Op)
    requires Inv(originOf, s)
    ensures Inv(originOf, Apply(originOf, s, op))
  {
    hide Trim, UrlPath.HasUnsafePathSegment, IsUserSource, Inv, Mint, MaySend, ApiOrigin;
    match op
    case MintUser(token, context, source) =>
      if context in s.contexts {
        MintInv(originOf, s, token, context.apiOrigin, source, User(context));
      }
    case MintGateway(c, context) =>
      if c in s.tokens && context in s.contexts && IsUserSource(c.source) {
        MintInv(originOf, s, s.tokens[c], context.gatewayOrigin, "pocket_gateway", Gateway(c, context));
      }
    case MintAdmission(token, apiUrl) =>
      MintInv(originOf, s, token, originOf(apiUrl), "session_admission", Admission(apiUrl));
    case Send(c, url) =>
      if MaySend(originOf, s, c, url) {
        SendInv(originOf, s, c, url);
      }
    case _ =>
      NothingMinted(originOf, s, Apply(originOf, s, op));
  }

  lemma {:induction false} RunInv(originOf: string -> Origin, ops: seq<Op>)
    ensures Inv(originOf, Run(originOf, EMPTY, ops))
    decreases |ops|
  {
    if ops != [] {
      RunInv(originOf, ops[..|ops| - 1]);
      ApplyInv(originOf, Run(originOf, EMPTY, ops[..|ops| - 1]), ops[|ops| - 1]);
    }
  }

  /** Every send went to the origin its credential was minted for, along a path of plain segments. */
  lemma SendsStayHome(originOf: string -> Origin, ops: seq<Op>, i: nat)
    requires i < |Run(originOf, EMPTY, ops).sends|
    ensures var s := Run(originOf, EMPTY, ops); var sent := s.sends[i];
      && sent.credential in s.births && sent.credential in s.tokens && sent.token == s.tokens[sent.credential]
      && originOf(sent.url) == BirthOrigin(originOf, s.births[sent.credential])
      && !UrlPath.HasUnsafePathSegment(sent.url)
  {
    RunInv(originOf, ops);
    var s := Run(originOf, EMPTY, ops);
    assert Bound(originOf, s, s.sends[i].credential);
  }

  /** No send of any run climbs out of its path, by slashes or backslashes. */
  lemma SendsNeverClimb(originOf: string -> Origin, hostOk: string -> bool, ops: seq<Op>, i: nat)
    requires i < |Run(originOf, EMPTY, ops).sends|
    ensures var p := UrlParser.Parse(hostOk, Run(originOf, EMPTY, ops).sends[i].url);
      p.Some? ==> !UrlAgreement.Climbs(p.value.text) && p.value.resolved == p.value.raw
  {
    SendsStayHome(originOf, ops, i);
    var url := Run(originOf, EMPTY, ops).sends[i].url;
    if UrlParser.Parse(hostOk, url).Some? {
      UrlAgreement.PathCheckIff(hostOk, url);
      if UrlAgreement.Climbs(UrlParser.Parse(hostOk, url).value.text) {
        UrlAgreement.ClimbingIsRefused(hostOk, url);
      }
    }
  }

  /** Where the API is: the environment first, then the global config, then the default. */
  lemma ApiPrecedence(originOf: string -> Origin, s: Settings)
    ensures Trim(s.apiUrl) != "" ==> ApiOrigin(originOf, s) == originOf(Trim(s.apiUrl))
    ensures Trim(s.apiUrl) == "" && Trim(s.configUrl) != "" ==> ApiOrigin(originOf, s) == originOf(Trim(s.configUrl))
    ensures Trim(s.apiUrl) == "" && Trim(s.configUrl) == "" ==> ApiOrigin(originOf, s) == originOf("https://api.sentinelayer.com")
  {
  }

  /**
   A token is re-bound at most once, to the gateway of a context of this module, and only from a
   credential minted for the user; what a credential minted for an admission or already re-bound
   carries is never re-bound.
   */
  lemma ReboundOnce(originOf: string -> Origin, ops: seq<Op>, c: Credential)
    requires c in Run(originOf, EMPTY, ops).births && Run(originOf, EMPTY, ops).births[c].Gateway?
    ensures var s := Run(originOf, EMPTY, ops); var b := s.births[c];
      && b.context in s.contexts && c.origin == b.context.gatewayOrigin
      && b.parent in s.births && s.births[b.parent].User? && IsUserSource(b.parent.source)
      && c in s.tokens && b.parent in s.tokens && s.tokens[c] == s.tokens[b.parent]
      && !IsUserSource(c.source)
  {
    RunInv(originOf, ops);
    assert Bound(originOf, Run(originOf, EMPTY, ops), c);
  }

  // ---------------------------------------------------------------- freezing

  ghost predicate SameOrigins(a: Context, b: Context) {
    a.apiOrigin == b.apiOrigin && a.gatewayOrigin == b.gatewayOrigin
  }

  /** Every freeze still on its way would come to the same origins. */
  ghost predicate PendingAgree(originOf: string -> Origin, s: State) {
    s.processContext.Some? ==> forall i | 0 <= i < |s.pending| :: SameOrigins(Build(originOf, s, s.pending[i]), s.processContext.value)
  }

  lemma {:induction false} FrozenStays(originOf: string -> Origin, s: State, ops: seq<Op>)
    requires s.processContext.Some? && PendingAgree(originOf, s)
    ensures var t := Run(originOf, s, ops);
      && t.processContext.Some? && SameOrigins(t.processContext.value, s.processContext.value)
      && PendingAgree(originOf, t)
      && (s.pending == [] ==> t.processContext == s.processContext && t.pending == [])
    decreases |ops|
  {
    hide Apply, SameOrigins, PendingAgree;
    if ops != [] {
      FrozenStays(originOf, s, ops[..|ops| - 1]);
      StepFrozen(originOf, Run(originOf, s, ops[..|ops| - 1]), ops[|ops| - 1]);
      SameOriginsChain(Run(originOf, s, ops).processContext, Run(originOf, s, ops[..|ops| - 1]).processContext, s.processContext);
    } else {
      SameOriginsChain(s.processContext, s.processContext, s.processContext);
    }
  }

  lemma SameOriginsChain(a: Option<Context>, b: Option<Context>, c: Option<Context>)
    requires a.Some? && b.Some? && c.Some?
    ensures SameOrigins(a.value, b.value) && SameOrigins(b.value, c.value) ==> SameOrigins(a.value, c.value)
    ensures SameOrigins(c.value, c.value)
  {
  }

  lemma StepFrozen(originOf: string -> Origin, s: State, op: Op)
    requires s.processContext.Some? && PendingAgree(originOf, s)
    ensures var t := Apply(originOf, s, op);
      && t.processContext.Some? && SameOrigins(t.processContext.value, s.processContext.value)
      && PendingAgree(originOf, t)
      && (s.pending == [] ==> t.processContext == s.processContext && t.pending == [])
  {
    hide MaySend, IsUserSource, ApiOrigin, Trim;
  }

  ghost predicate KeepsOrigins(originOf: string -> Origin, s: State, ops: seq<Op>)
    requires s.processContext.Some?
  {
    var t := Run(originOf, s, ops);
    t.processContext.Some? && SameOrigins(t.processContext.value, s.processContext.value)
  }

  /**
   Once a freeze has ended, the origins every later lookup gives stay the same in every continuation
   exactly when no freeze that began before it, and is still on its way, read other settings.
   */
  lemma FrozenForeverIff(originOf: string -> Origin, s: State)
    requires s.processContext.Some?
    ensures PendingAgree(originOf, s) <==> forall ops: seq<Op> :: KeepsOrigins(originOf, s, ops)
  {
    if PendingAgree(originOf, s) {
      forall ops: seq<Op> ensures KeepsOrigins(originOf, s, ops) {
        FrozenStays(originOf, s, ops);
      }
    } else {
      var i :| 0 <= i < |s.pending| && !SameOrigins(Build(originOf, s, s.pending[i]), s.processContext.value);
      OneOp(originOf, s, FreezeEnd(i));
      assert !KeepsOrigins(originOf, s, [FreezeEnd(i)]);
    }
  }

  /**
   Two freezes that overlap both find the module unfrozen; the later one to end replaces the
   context, and the origins change exactly when the two read settings for other origins.
   */
  lemma OverlappingFreezes(originOf: string -> Origin, a: Settings, b: Settings)
    ensures var frozen := Run(originOf, EMPTY, [FreezeBegin(a), FreezeBegin(b), FreezeEnd(0)]);
      var later := Run(originOf, EMPTY, [FreezeBegin(a), FreezeBegin(b), FreezeEnd(0), FreezeEnd(0)]);
      && frozen.processContext.Some? && frozen.pending == [b] && later.processContext.Some?
      && (SameOrigins(frozen.processContext.value, later.processContext.value) <==>
            ApiOrigin(originOf, a) == ApiOrigin(originOf, b) && originOf(a.pocketUrl) == originOf(b.pocketUrl))
  {
    hide ApiOrigin;
    var begun := EMPTY.(pending := [a, b]);
    RunSnoc(originOf, [FreezeBegin(a)], FreezeBegin(b));
    RunSnoc(originOf, [FreezeBegin(a), FreezeBegin(b)], FreezeEnd(0));
    RunSnoc(originOf, [FreezeBegin(a), FreezeBegin(b), FreezeEnd(0)], FreezeEnd(0));
    OneOp(originOf, EMPTY, FreezeBegin(a));
    assert [FreezeBegin(a)] + [FreezeBegin(b)] == [FreezeBegin(a), FreezeBegin(b)];
    assert [FreezeBegin(a), FreezeBegin(b)] + [FreezeEnd(0)] == [FreezeBegin(a), FreezeBegin(b), FreezeEnd(0)];
    assert [FreezeBegin(a), FreezeBegin(b), FreezeEnd(0)] + [FreezeEnd(0)] == [FreezeBegin(a), FreezeBegin(b), FreezeEnd(0), FreezeEnd(0)];
    assert Run(originOf, EMPTY, [FreezeBegin(a), FreezeBegin(b)]) == begun;
    assert begun.pending[..0] + begun.pending[1..] == [b];
  }

  lemma RunSnoc(originOf: string -> Origin, ops: seq<Op>, op: Op)
    ensures Run(originOf, EMPTY, ops + [op]) == Apply(originOf, Run(originOf, EMPTY, ops), op)
  {
    assert (ops + [op])[..|ops|] == ops;
  }

  lemma OneOp(originOf: string -> Origin, s: State, op: Op)
    ensures Run(originOf, s, [op]) == Apply(originOf, s, op)
  {
    assert [op][..0] == [];
    assert Run(originOf, s, [op][..0]) == s;
  }

  /** A freeze that ends alone is final: the very same context object is given out ever after. */
  lemma SoleFreezeIsFinal(originOf: string -> Origin, before: seq<Op>, settings: Settings, after: seq<Op>)
    requires Run(originOf, EMPTY, before).pending == [] && Run(originOf, EMPTY, before).processContext.None?
    ensures var s := Run(originOf, Run(originOf, EMPTY, before), [FreezeBegin(settings), FreezeEnd(0)]);
      && s.processContext.Some? && s.processContext.value.apiOrigin == ApiOrigin(originOf, settings)
      && s.processContext.value.gatewayOrigin == originOf(settings.pocketUrl)
      && Run(originOf, s, after).processContext == s.processContext
  {
    var s0 := Run(originOf, EMPTY, before);
    var ops := [FreezeBegin(settings), FreezeEnd(0)];
    assert ops[..1] == [FreezeBegin(settings)] && ops[..1][..0] == [];
    assert Run(originOf, s0, ops[..1]) == Apply(originOf, s0, FreezeBegin(settings));
    var s := Run(originOf, s0, ops);
    assert s == Apply(originOf, Run(originOf, s0, ops[..1]), FreezeEnd(0));
    FrozenStays(originOf, s, after);
  }
}
