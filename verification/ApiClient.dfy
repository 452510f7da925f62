/**
 requestJson and requestJsonMutation: retries, backoff, idempotency keys and breaker accounting in
 one loop (src/auth/http.js). The network and the clock are the fixed but arbitrary sequences
 `wire` and `clock`; `sent` and `ticks` count how much of them has been used.
 */
module ApiClient {
  import opened Text
  import opened Breaker
  import opened Idempotency

  const DEFAULT_MAX_RETRIES := 2
  const DEFAULT_RETRY_DELAY_MS := 250.0
  const MAX_RETRY_DELAY_MS := 2000

  datatype Verb = GET | HEAD | OPTIONS | POST | PUT | PATCH | DELETE | OtherVerb

  /** JSON values, as far as the callers modelled here look into them. */
  datatype Json = JNull | JObject(fields: map<string, string>) | JOther

  datatype Body = Blank | NotJson | BadJson | Parsed(json: Json)

  /** What one fetch comes to. `retryAfter` is parseRetryAfterMs of the header, `code` the error code in the body. */
  datatype Wire =
    | Response(status: int, body: Body, code: string, retryAfter: Option<nat>)
    | NetworkFailure
    | Aborted(byTimeout: bool, saysCancel: bool)
    | DestinationRefused

  datatype ApiError = ApiError(status: int, code: string, retryAfter: Option<nat>)
  datatype Result = Success(json: Json) | Failure(error: ApiError) | Refused

  predicate IsMutation(verb: Verb) {
    verb.POST? || verb.PUT? || verb.PATCH? || verb.DELETE?
  }

  /** RETRYABLE_STATUS_CODES, which is also CIRCUIT_TRACK_STATUS_CODES. */
  predicate TransientStatus(status: int) {
    status in {408, 425, 429, 500, 502, 503, 504}
  }

  predicate IsOk(status: int) {
    200 <= status <= 299
  }

  /** The error a 2xx reply is turned into when its body is not what was asked for. */
  function MalformedCode(status: int, body: Body, allowEmptyBody: bool): Option<string> {
    match body
    case Blank => if allowEmptyBody || status == 204 || status == 205 then None else Some("EMPTY_BODY")
    case NotJson => Some("INVALID_CONTENT_TYPE")
    case BadJson => Some("INVALID_JSON")
    case Parsed(_) => None
  }

  /** What requestJson gives its caller when this reply is the last one. */
  function Outcome(w: Wire, allowEmptyBody: bool): Result {
    match w
    case Response(status, body, code, retryAfter) =>
      if !IsOk(status) then Failure(ApiError(status, code, retryAfter))
      else (
        match MalformedCode(status, body, allowEmptyBody)
        case Some(malformed) => Failure(ApiError(status, malformed, None))
        case None => Success(if body.Parsed? then body.json else JObject(map[])))
    case NetworkFailure => Failure(ApiError(503, "NETWORK_ERROR", None))
    case Aborted(byTimeout, saysCancel) =>
      if !byTimeout && saysCancel then Failure(ApiError(499, "CANCELLED", None)) else Failure(ApiError(408, "TIMEOUT", None))
    case DestinationRefused => Refused
  }

  /** A reply after which the loop goes round again while it may. */
  predicate Transient(w: Wire) {
    w.NetworkFailure? || w.Aborted? || (w.Response? && TransientStatus(w.status))
  }

  function VerdictOf(w: Wire, allowEmptyBody: bool): Verdict {
    if Transient(w) then Tracked
    else if Outcome(w, allowEmptyBody).Success? then Clears
    else Neutral
  }

  /** A failure that may pass: no connection, an abort, or one of seven statuses. */
  predicate Temporary(w: Wire) {
    match w
    case NetworkFailure => true
    case Aborted(_, _) => true
    case DestinationRefused => false
    case Response(status, _, _, _) =>
      || status == 408 || status == 425 || status == 429
      || status == 500 || status == 502 || status == 503 || status == 504
  }

  function RetryAfterOf(w: Wire): Option<nat> {
    if w.Response? then w.retryAfter else None
  }

  function Pow2(n: nat): int {
    if n == 0 then 1 else 2 * Pow2(n - 1)
  }

  /** Math.round */
  function Round(x: real): int {
    (x + 0.5).Floor
  }

  function Min(a: int, b: int): int {
    if a < b then a else b
  }

  function Max(a: int, b: int): int {
    if a < b then b else a
  }

  /** computeBackoffMs */
  function Backoff(attempt: nat, retryDelay: real, retryAfter: Option<nat>): (ms: int)
    ensures 0 <= ms <= MAX_RETRY_DELAY_MS
  {
    match retryAfter
    case Some(given) => Min(given, MAX_RETRY_DELAY_MS)
    case None => Min(Max(1, Round(retryDelay * Pow2(if attempt > 0 then attempt - 1 else 0) as real)), MAX_RETRY_DELAY_MS)
  }

  /** Without a wish of the server's, the default pause doubles from 250 ms and stops at two seconds. */
  lemma DefaultBackoffs(attempt: nat)
    ensures Backoff(1, 250.0, None) == 250 && Backoff(2, 250.0, None) == 500 && Backoff(3, 250.0, None) == 1000
    ensures attempt >= 4 ==> Backoff(attempt, 250.0, None) == 2000
  {
    assert Pow2(1) == 2 && Pow2(2) == 4;
    if attempt >= 4 {
      PowAtLeast(attempt - 1);
    }
  }

  lemma PowAtLeast(n: nat)
    ensures n >= 3 ==> Pow2(n) >= 8
  {
  }

  /** The server's wish is granted up to two seconds, and no pause is longer or negative. */
  lemma BackoffFollowsServer(attempt: nat, retryDelay: real, ms: nat)
    ensures ms <= 2000 ==> Backoff(attempt, retryDelay, Some(ms)) == ms
    ensures ms > 2000 ==> Backoff(attempt, retryDelay, Some(ms)) == 2000
    ensures 0 <= Backoff(attempt, retryDelay, None) <= 2000
  {
  }

  function Sum(xs: seq<int>): int {
    if xs == [] then 0 else Sum(xs[..|xs| - 1]) + xs[|xs| - 1]
  }

  lemma {:induction false} SumAtMost(xs: seq<int>, bound: int)
    requires forall x | x in xs :: 0 <= x <= bound
    ensures 0 <= Sum(xs) <= |xs| * bound
  {
    if xs != [] {
      var front := xs[..|xs| - 1];
      assert (forall x | x in front :: x in xs) && xs[|xs| - 1] in xs;
      SumAtMost(front, bound);
      OneMoreTime(|front|, bound);
    }
  }

  lemma OneMoreTime(n: nat, bound: int)
    ensures (n + 1) * bound == n * bound + bound
  {
  }

  /** normalizeNonNegativeInteger and normalizePositiveNumber, with their defaults. */
  function Retries(given: real): nat {
    if given < 0.0 then DEFAULT_MAX_RETRIES else given.Floor
  }

  function RetryDelay(given: real): real {
    if given <= 0.0 then DEFAULT_RETRY_DELAY_MS else given
  }

  /** The most sends one call may make. */
  function SendLimit(verb: Verb, hasKey: bool, retries: nat): nat {
    if verb.GET? || verb.HEAD? || verb.OPTIONS? || (hasKey && IsMutation(verb)) then retries + 1 else 1
  }

  const KEY_REQUIRED := ApiError(400, "IDEMPOTENCY_KEY_REQUIRED", None)
  const KEY_INVALID := ApiError(400, "IDEMPOTENCY_KEY_INVALID", None)
  const CIRCUIT_OPEN := ApiError(503, "CIRCUIT_OPEN", None)

  /** The check before anything else happens; `unsafeAllowed` is the test-only escape hatch. */
  function KeyError(verb: Verb, checked: string, unsafeAllowed: bool): Option<ApiError> {
    if IsMutation(verb) && checked == "" && !unsafeAllowed then Some(KEY_REQUIRED)
    else if IsMutation(verb) && checked != "" && !IsValidKey(checked) then Some(KEY_INVALID)
    else None
  }

  /** The options of one call. */
  datatype Request = Request(
    scope: Scope, verb: Verb, optionKey: string, headerKey: string, unsafeAllowed: bool,
    maxRetries: real, retryDelay: real, allowEmptyBody: bool)
  {
    function Checked(): string { CheckedKey(optionKey, headerKey) }
    function Error(): Option<ApiError> { KeyError(verb, Checked(), unsafeAllowed) }
    function Limit(): nat { SendLimit(verb, Checked() != "", Retries(maxRetries)) }
  }

  /**
   One call of requestJson that got past its key: the replies it used are number first, ..., last - 1,
   `before` is the breaker it met, `began` the clock reading it met it at, and `ended` the number of
   readings taken by its end.
   */
  datatype Exchange = Exchange(
    request: Request, result: Result, first: nat, last: nat, slept: seq<int>, call: Breaker.Call,
    before: Circuit, began: nat, ended: nat)

  function CallsOf(es: seq<Exchange>): (calls: seq<Breaker.Call>)
    ensures |calls| == |es| && forall i | 0 <= i < |es| :: calls[i] == es[i].call
  {
    seq(|es|, i requires 0 <= i < |es| => es[i].call)
  }

  /** The idempotency keys of all sends, in order. */
  function KeysOf(es: seq<Exchange>): seq<string> {
    if es == [] then []
    else
      var last := es[|es| - 1];
      KeysOf(es[..|es| - 1]) + Copies(if last.first <= last.last then last.last - last.first else 0, KeyOnWire(last.request))
  }

  function KeyOnWire(r: Request): string {
    SentKey(r.optionKey, r.headerKey)
  }

  /** The fields of a client at one moment. */
  datatype State = State(circuits: Circuits, loaded: bool, disk: Circuits, sent: nat, ticks: nat, keys: seq<string>)

  /** A file that answers like the map in memory, for every origin and from a time on. */
  ghost predicate Agrees(memory: Circuits, disk: Circuits, since: int) {
    forall scope, now | now >= since :: OpenAt(Lookup(disk, scope), now) == OpenAt(Lookup(memory, scope), now)
  }

  class Client {
    var circuits: Circuits
    var loaded: bool
    var disk: Circuits
    var sent: nat
    var ticks: nat
    var keys: seq<string> // the idempotency key of every request sent so far; "" for none
    ghost var persisted: bool // no write of the file has failed since the last that worked
    ghost var since: int // when the file was loaded
    const wire: nat -> Wire
    const clock: nat -> int

    function Snapshot(): State
      reads this
    {
      State(circuits, loaded, disk, sent, ticks, keys)
    }

    /** Nothing is in memory before the file is loaded; then the two agree as long as writing works. */
    ghost predicate Valid()
      reads this`circuits, this`loaded, this`disk, this`persisted, this`since
    {
      && (!loaded ==> circuits == map[])
      && (loaded && persisted ==> Agrees(circuits, disk, since))
    }

    constructor (wire: nat -> Wire, clock: nat -> int, disk: Circuits)
      ensures Valid() && this.wire == wire && this.clock == clock && Snapshot() == State(map[], false, disk, 0, 0, [])
    {
      this.wire, this.clock, this.disk := wire, clock, disk;
      circuits, loaded, sent, ticks, keys := map[], false, 0, 0, [];
      persisted, since := true, 0;
    }

    /** After any run whose last write of the file worked, a fresh process that loads it answers like this one. */
    lemma FreshProcessAnswersAlike(loadedAt: int, now: int, scope: Scope)
      requires Valid() && loaded && persisted && since <= loadedAt <= now
      ensures OpenAt(Lookup(Load(disk, loadedAt), scope), now) == OpenAt(Lookup(circuits, scope), now)
    {
      FreshProcessAgrees(disk, loadedAt, now, scope);
    }

    method Now() returns (now: int)
      modifies this`ticks
      ensures now == clock(old(ticks)) && ticks == old(ticks) + 1
    {
      now := clock(ticks);
      ticks := ticks + 1;
    }

    /** Best effort: the file takes the new contents or keeps the old ones. */
    method PersistCircuitState()
      requires loaded
      modifies this`disk, this`persisted
      ensures Valid() && (if persisted then disk == circuits else disk == old(disk))
    {
      var works: bool := *;
      if works {
        disk := circuits;
      }
      persisted := works;
    }

    /** The breaker map the next call works with. */
    function Current(): Circuits
      reads this
    {
      if loaded then circuits else circuits + Load(disk, clock(ticks))
    }

    method LoadCircuitStateFromDisk()
      requires Valid()
      modifies this`circuits, this`loaded, this`ticks, this`persisted, this`since
      ensures Valid() && loaded && circuits == old(Current())
      ensures ticks == old(ticks) + (if old(loaded) then 0 else 1)
    {
      if !loaded {
        loaded := true;
        var now := Now();
        circuits := circuits + Load(disk, now);
        persisted, since := true, now;
        LoadedAgrees(disk, now);
        assert map[] + Load(disk, now) == Load(disk, now);
      }
    }

    /** getCircuitState: every origin has an entry from its first use on. */
    method GetCircuitState(scope: Scope) returns (c: Circuit)
      requires Valid()
      modifies this`circuits, this`loaded, this`ticks, this`persisted, this`since
      ensures Valid() && loaded && c == Lookup(old(Current()), scope)
      ensures circuits == old(Current())[scope := c]
      ensures ticks == old(ticks) + (if old(loaded) then 0 else 1)
    {
      LoadCircuitStateFromDisk();
      ClosedEntryAgrees(circuits, disk, since, scope);
      hide Agrees;
      if scope !in circuits {
        circuits := circuits[scope := CLOSED];
      }
      c := circuits[scope];
    }

    method IsCircuitOpen(scope: Scope) returns (open: bool, now: int)
      requires Valid()
      modifies this`circuits, this`loaded, this`ticks, this`disk, this`persisted, this`since
      ensures Valid() && loaded && now == clock(old(ticks) + (if old(loaded) then 0 else 1))
      ensures ticks == old(ticks) + (if old(loaded) then 1 else 2)
      ensures circuits == old(Current())[scope := Expire(Lookup(old(Current()), scope), now)]
      ensures open <==> OpenAt(circuits[scope], now)
    {
      hide Agrees, Load;
      var c := GetCircuitState(scope);
      now := Now();
      if c.openedAt <= 0 {
        open := false;
      } else if now - c.openedAt >= CIRCUIT_BREAKER_COOLDOWN_MS {
        circuits := circuits[scope := CLOSED];
        PersistCircuitState();
        open := false;
      } else {
        open := true;
      }
    }

    method RecordFailureForCircuit(scope: Scope) returns (now: int)
      requires Valid()
      modifies this`circuits, this`loaded, this`ticks, this`disk, this`persisted, this`since
      ensures Valid() && loaded && ticks > old(ticks) && now == clock(ticks - 1)
      ensures circuits == old(Current())[scope := Fail(Lookup(old(Current()), scope), now)]
    {
      hide Agrees, Load;
      var c := GetCircuitState(scope);
      now := Now();
      c := c.(failures := c.failures + 1);
      if c.failures >= CIRCUIT_BREAKER_THRESHOLD {
        c := c.(openedAt := now);
      }
      circuits := circuits[scope := c];
      PersistCircuitState();
    }

    method RecordSuccessForCircuit(scope: Scope)
      requires Valid()
      modifies this`circuits, this`loaded, this`ticks, this`disk, this`persisted, this`since
      ensures Valid() && loaded && ticks >= old(ticks) && circuits == old(Current())[scope := CLOSED]
    {
      hide Agrees, Load;
      var c := GetCircuitState(scope);
      circuits := circuits[scope := CLOSED];
      PersistCircuitState();
    }

    /** The i-th reply of a call whose first send was number `first`. */
    function Reply(first: nat, i: nat): Wire {
      wire(first + i)
    }

    /** The first n attempts of a call were transient failures, each followed by its backoff. */
    ghost predicate Retried(r: Request, first: nat, n: nat, slept: seq<int>) {
      && |slept| == n
      && forall i | 0 <= i < n ::
           && Transient(Reply(first, i))
           && slept[i] == Backoff(i + 1, RetryDelay(r.retryDelay), RetryAfterOf(Reply(first, i)))
    }

    /**
     The replies number first, ..., last - 1 are those of one call that was let through: all but the
     last were transient, the last one was not or used up the limit, and it alone decides the result
     and what the breaker is told.
     */
    ghost predicate Attempts(r: Request, first: nat, last: nat, result: Result, slept: seq<int>, call: Breaker.Call) {
      && first < last <= first + r.Limit()
      && Retried(r, first, last - first - 1, slept)
      && var final := Reply(first, last - first - 1);
      && (last == first + r.Limit() || !Transient(final))
      && result == Outcome(final, r.allowEmptyBody)
      && call.verdict == VerdictOf(final, r.allowEmptyBody)
    }

    /** The attempt loop of requestJson, entered with the breaker closed. */
    method SendWithRetries(r: Request, begin: int) returns (result: Result, slept: seq<int>, call: Breaker.Call)
      requires Valid() && loaded && r.scope in circuits
      requires Expire(circuits[r.scope], begin) == circuits[r.scope] && !OpenAt(circuits[r.scope], begin)
      modifies this
      ensures Valid() && old(sent) <= sent && loaded && ticks >= old(ticks)
      ensures keys == old(keys) + Copies(sent - old(sent), KeyOnWire(r))
      ensures Attempts(r, old(sent), sent, result, slept, call)
      ensures call.begin == begin && (call.verdict.Tracked? ==> ticks > old(ticks) && call.end == clock(ticks - 1))
      ensures circuits == old(circuits)[r.scope := After(old(circuits)[r.scope], call)]
    {
      hide *;
      var outgoingKey := KeyOnWire(r);
      var retryable := r.verb.GET? || r.verb.HEAD? || r.verb.OPTIONS? || (r.Checked() != "" && IsMutation(r.verb));
      var retries, delay := Retries(r.maxRetries), RetryDelay(r.retryDelay);
      LimitIs(r, retryable, retries);
      var attempt := 0;
      slept := [];
      NothingSent(r, sent, outgoingKey);
      ghost var closed := circuits[r.scope];
      while attempt <= retries
        invariant 0 <= attempt < r.Limit()
        invariant sent == old(sent) + attempt && circuits == old(circuits) && loaded && Valid() && ticks == old(ticks)
        invariant keys == old(keys) + Copies(attempt, outgoingKey)
        invariant Retried(r, old(sent), attempt, slept)
        decreases retries + 1 - attempt
      {
        var reply := wire(sent);
        ReplyIs(old(sent), attempt);
        sent := sent + 1;
        keys := keys + [outgoingKey];
        CopiesOneMore(attempt, outgoingKey);
        result := Outcome(reply, r.allowEmptyBody);
        CurrentIs();
        LookupIs(circuits, r.scope);
        if !Transient(reply) {
          call := Call(begin, begin, Neutral);
          if result.Success? {
            RecordSuccessForCircuit(r.scope);
            call := Call(begin, begin, Clears);
          }
          VerdictIs(reply, r.allowEmptyBody);
          AfterClosed(closed, call);
          FinalAttempt(r, old(sent), attempt, slept, call);
          return;
        }
        if !retryable || attempt >= retries {
          var end := RecordFailureForCircuit(r.scope);
          call := Call(begin, end, Tracked);
          VerdictIs(reply, r.allowEmptyBody);
          AfterClosed(closed, call);
          FinalAttempt(r, old(sent), attempt, slept, call);
          return;
        }
        RetriedMore(r, old(sent), attempt, slept);
        slept := slept + [Backoff(attempt + 1, delay, RetryAfterOf(reply))];
        attempt := attempt + 1;
      }
      assert false; // control never reaches the code behind the loop
    }

    lemma CurrentIs()
      ensures loaded ==> Current() == circuits
    {
    }

    lemma ReplyIs(first: nat, i: nat)
      ensures Reply(first, i) == wire(first + i)
    {
    }

    lemma NothingSent(r: Request, first: nat, key: string)
      ensures Retried(r, first, 0, []) && Copies(0, key) == []
    {
    }

    lemma RetriedMore(r: Request, first: nat, n: nat, slept: seq<int>)
      requires Retried(r, first, n, slept) && Transient(Reply(first, n))
      ensures Retried(r, first, n + 1, slept + [Backoff(n + 1, RetryDelay(r.retryDelay), RetryAfterOf(Reply(first, n)))])
    {
      hide Transient, Backoff, RetryAfterOf, RetryDelay, Reply;
    }

    lemma FinalAttempt(r: Request, first: nat, n: nat, slept: seq<int>, call: Breaker.Call)
      requires n < r.Limit() && Retried(r, first, n, slept)
      requires n + 1 == r.Limit() || !Transient(Reply(first, n))
      requires call.verdict == VerdictOf(Reply(first, n), r.allowEmptyBody)
      ensures Attempts(r, first, first + n + 1, Outcome(Reply(first, n), r.allowEmptyBody), slept, call)
    {
      hide Transient, Retried, Outcome, VerdictOf, Reply;
    }

    /** The breaker map that a call beginning at reading `began` works with. */
    function MapAt(s: State, began: nat): Circuits {
      if s.loaded || began == 0 then s.circuits else s.circuits + Load(s.disk, clock(began - 1))
    }

    /** What one call comes to, given the breaker it met: refused by it with nothing sent, or one run of the attempt loop. */
    ghost predicate Accounted(e: Exchange) {
      && e.request.Error().None?
      && e.began < e.ended && e.call.begin == clock(e.began)
      && (e.call.verdict.Tracked? ==> e.call.end == clock(e.ended - 1))
      && if OpenAt(e.before, e.call.begin) then e.result == Failure(CIRCUIT_OPEN) && e.first == e.last && e.call.verdict.Neutral?
         else Attempts(e.request, e.first, e.last, e.result, e.slept, e.call)
    }

    /** The exchange is what took the client from one state to another. */
    ghost predicate Took(before: State, after: State, e: Exchange) {
      && Accounted(e)
      && e.first == before.sent && e.last == after.sent && e.first <= e.last
      && after.keys == before.keys + Copies(e.last - e.first, KeyOnWire(e.request))
      && e.began == before.ticks + (if before.loaded then 0 else 1) && e.ended == after.ticks
      && e.before == Lookup(MapAt(before, e.began), e.request.scope)
      && after.loaded && after.circuits == MapAt(before, e.began)[e.request.scope := After(e.before, e.call)]
    }

    /**
     One call. It fails before any breaker or network work when its key is missing or bad, and it
     sends nothing while the breaker is open. Either way the breaker moves by `After` and no more.
     */
    method RequestJson(r: Request) returns (e: Exchange)
      requires Valid()
      modifies this
      ensures Valid() && e.request == r
      ensures r.Error().Some? ==> e.result == Failure(r.Error().value) && Snapshot() == old(Snapshot())
      ensures r.Error().None? ==> Took(old(Snapshot()), Snapshot(), e)
    {
      hide Load, IsValidKey, CheckedKey, KeyOnWire, Agrees, Attempts, After, Expire, OpenAt, Copies, MapAt, Valid, KEY_INVALID, KEY_REQUIRED;
      var before, began := Lookup(Current(), r.scope), ticks + (if loaded then 0 else 1);
      e := Exchange(r, Refused, sent, sent, [], Call(0, 0, Neutral), before, began, ticks);
      var checked := CheckedKey(r.optionKey, r.headerKey);
      if IsMutation(r.verb) && checked == "" && !r.unsafeAllowed {
        e := e.(result := Failure(KEY_REQUIRED));
        return;
      }
      if IsMutation(r.verb) && checked != "" && !IsValidKey(checked) {
        e := e.(result := Failure(KEY_INVALID));
        return;
      }
      CurrentIsMapAt();
      var open, begin := IsCircuitOpen(r.scope);
      e := e.(call := Call(begin, begin, Neutral), ended := ticks);
      if open {
        e := e.(result := Failure(CIRCUIT_OPEN));
        AfterRefused(before, e.call);
        return;
      }
      AfterExpired(before, e.call);
      var result, slept, call := SendWithRetries(r, begin);
      AfterExpired(before, call);
      e := e.(result := result, slept := slept, call := call, last := sent, ended := ticks);
    }

    lemma CurrentIsMapAt()
      ensures Current() == MapAt(Snapshot(), ticks + (if loaded then 0 else 1))
    {
    }

    // ---------------------------------------------------------------- calls to one origin, one after the other

    /** The second call goes on where the first one ended. */
    ghost predicate Linked(a: Exchange, b: Exchange) {
      b.first == a.last && b.before == After(a.before, a.call) && a.ended <= b.began
    }

    /**
     The calls in es are what took the client from one state to another: they share one origin, use up
     the replies and send the keys between the two states, each meets the breaker its predecessor
     left, and the other origins' breakers are as they were found. The clock may be read in between.
     */
    ghost predicate Exchanged(scope: Scope, before: State, after: State, es: seq<Exchange>) {
      && InTurn(scope, es)
      && after.keys == before.keys + KeysOf(es)
      && before.ticks <= after.ticks
      && if es == [] then after == before.(ticks := after.ticks) else Spans(scope, before, after, es[0], es[|es| - 1])
    }

    ghost predicate InTurn(scope: Scope, es: seq<Exchange>) {
      && (forall i | 0 <= i < |es| :: es[i].request.scope == scope && Accounted(es[i]))
      && (forall i | 0 < i < |es| :: Linked(es[i - 1], es[i]))
    }

    /** The first and the last call reach from one state to the other. */
    ghost predicate Spans(scope: Scope, before: State, after: State, head: Exchange, last: Exchange) {
      && head.first == before.sent && before.ticks <= head.began && (before.loaded || before.ticks < head.began)
      && head.before == Lookup(MapAt(before, head.began), scope)
      && last.last == after.sent && last.ended <= after.ticks
      && after.loaded && after.circuits == MapAt(before, head.began)[scope := After(last.before, last.call)]
    }

    lemma NothingExchanged(scope: Scope, s: State)
      ensures Exchanged(scope, s, s, [])
    {
    }

    lemma ExchangedTick(scope: Scope, before: State, mid: State, after: State, es: seq<Exchange>)
      requires Exchanged(scope, before, mid, es) && after == mid.(ticks := after.ticks) && mid.ticks <= after.ticks
      ensures Exchanged(scope, before, after, es)
    {
      hide InTurn, MapAt, KeysOf, After;
    }

    lemma ExchangedMore(scope: Scope, before: State, mid: State, after: State, es: seq<Exchange>, e: Exchange)
      requires Exchanged(scope, before, mid, es) && Took(mid, after, e) && e.request.scope == scope
      ensures Exchanged(scope, before, after, es + [e])
    {
      hide KeysOf, Copies, InTurn, Accounted, Linked, Took, Spans;
      TookIsAccounted(mid, after, e);
      KeysGrow(before.keys, mid.keys, after.keys, es, e);
      if es == [] {
        FirstSpans(scope, before, mid, after, e);
        assert es + [e] == [e];
        InTurnOne(scope, e);
      } else {
        NextSpans(scope, before, mid, after, es[0], es[|es| - 1], e);
        InTurnMore(scope, es, e);
      }
    }

    lemma KeysGrow(before: seq<string>, mid: seq<string>, after: seq<string>, es: seq<Exchange>, e: Exchange)
      requires mid == before + KeysOf(es) && e.first <= e.last && after == mid + Copies(e.last - e.first, KeyOnWire(e.request))
      ensures after == before + KeysOf(es + [e])
    {
      KeysOneMore(es, e);
      hide KeysOf, Copies, KeyOnWire;
    }

    lemma KeysOneMore(es: seq<Exchange>, e: Exchange)
      requires e.first <= e.last
      ensures KeysOf(es + [e]) == KeysOf(es) + Copies(e.last - e.first, KeyOnWire(e.request))
    {
      assert (es + [e])[..|es|] == es;
    }

    lemma TookIsAccounted(before: State, after: State, e: Exchange)
      requires Took(before, after, e)
      ensures Accounted(e) && e.began < e.ended == after.ticks && before.ticks <= e.began
      ensures e.first <= e.last && after.keys == before.keys + Copies(e.last - e.first, KeyOnWire(e.request))
    {
    }

    lemma InTurnOne(scope: Scope, e: Exchange)
      requires Accounted(e) && e.request.scope == scope
      ensures InTurn(scope, [e])
    {
      hide Accounted, Linked;
    }

    lemma InTurnMore(scope: Scope, es: seq<Exchange>, e: Exchange)
      requires InTurn(scope, es) && es != [] && Accounted(e) && e.request.scope == scope && Linked(es[|es| - 1], e)
      ensures InTurn(scope, es + [e])
    {
      hide Accounted, Linked;
      var more := es + [e];
      forall i | 0 <= i < |more| ensures more[i].request.scope == scope && Accounted(more[i]) {
        assert more[i] == if i < |es| then es[i] else e;
      }
      forall i | 0 < i < |more| ensures Linked(more[i - 1], more[i]) {
        assert more[i - 1] == es[i - 1] && more[i] == if i < |es| then es[i] else e;
      }
    }

    /** Until the first call only the clock has moved. */
    lemma FirstSpans(scope: Scope, before: State, mid: State, after: State, e: Exchange)
      requires mid == before.(ticks := mid.ticks) && before.ticks <= mid.ticks && Took(mid, after, e) && e.request.scope == scope
      ensures Spans(scope, before, after, e, e)
    {
      hide After, Accounted, Load;
    }

    lemma NextSpans(scope: Scope, before: State, mid: State, after: State, head: Exchange, last: Exchange, e: Exchange)
      requires Spans(scope, before, mid, head, last) && Took(mid, after, e) && e.request.scope == scope
      ensures Spans(scope, before, after, head, e) && Linked(last, e)
    {
      hide After, Accounted, Load;
      assert MapAt(mid, e.began) == mid.circuits;
      var map0 := MapAt(before, head.began);
      assert map0[scope := After(last.before, last.call)][scope := After(e.before, e.call)] == map0[scope := After(e.before, e.call)];
    }

    /** In such a run from a closed breaker, every call met what the calls before it had made of it. */
    lemma {:induction false} MetAfterRun(scope: Scope, before: State, after: State, es: seq<Exchange>, i: nat)
      requires Exchanged(scope, before, after, es) && i < |es| && es[0].before == CLOSED
      ensures es[i].before == AfterRun(CallsOf(es[..i]))
      ensures After(es[i].before, es[i].call) == AfterRun(CallsOf(es[..i + 1]))
    {
      hide After, Accounted;
      if i > 0 {
        MetAfterRun(scope, before, after, es, i - 1);
        assert Linked(es[i - 1], es[i]);
      } else {
        assert CallsOf(es[..0]) == [];
      }
      assert CallsOf(es[..i + 1])[..i] == CallsOf(es[..i]);
    }

    /**
     The history behind the breaker after calls to one origin from a closed one: which of them failed
     since which point, and why nothing was sent while it was open.
     */
    lemma BreakerIsExplained(scope: Scope, before: State, after: State, es: seq<Exchange>) returns (from: nat, upto: nat)
      requires Exchanged(scope, before, after, es) && (es != [] ==> es[0].before == CLOSED)
      requires forall tick: nat :: clock(tick) > 0
      ensures Explains(CallsOf(es), if es == [] then CLOSED else Lookup(after.circuits, scope), from, upto)
    {
      hide Explains, After;
      forall i | 0 <= i < |es| ensures es[i].call.verdict.Tracked? ==> es[i].call.end > 0 {
        assert Accounted(es[i]);
      }
      hide Accounted;
      from, upto := CountIsTrackedFailures(CallsOf(es));
      if es != [] {
        MetAfterRun(scope, before, after, es, |es| - 1);
        assert es[..|es|] == es;
      }
    }

    // ---------------------------------------------------------------- replies by their status

    /** The breaker let the call through. */
    ghost predicate LetThrough(e: Exchange) {
      !(e.before.openedAt > 0 && e.call.begin - e.before.openedAt < 30000)
    }

    /** The breaker as the call found it, closed again when its thirty seconds were over. */
    function Met(e: Exchange): Circuit {
      if e.before.openedAt > 0 && e.call.begin - e.before.openedAt >= 30000 then Circuit(0, 0) else e.before
    }

    /**
     A call goes on after a temporary failure only, as far as its limit: the given number of retries,
     two when it is negative, for reading methods and for mutations with a key, and none otherwise.
     When the last reply too is a temporary failure the limit is used up and the breaker counts one.
     */
    lemma TemporaryFailuresAreRetried(before: State, after: State, e: Exchange)
      requires Took(before, after, e) && LetThrough(e)
      ensures var r, n := e.request, e.last - e.first;
        var limit := if r.verb in {GET, HEAD, OPTIONS} || (r.verb in {POST, PUT, PATCH, DELETE} && r.Checked() != "")
          then (if r.maxRetries < 0.0 then 2 else r.maxRetries.Floor) + 1 else 1;
        && 1 <= n <= limit
        && (forall send: nat | e.first <= send < e.last - 1 :: Temporary(wire(send)))
        && (Temporary(wire(e.last - 1)) ==> n == limit && e.result.Failure?)
      ensures var w := wire(e.last - 1);
        && (Temporary(w) && w.Response? ==> e.result == Failure(ApiError(w.status, w.code, w.retryAfter)))
        && (w.NetworkFailure? ==> e.result == Failure(ApiError(503, "NETWORK_ERROR", None)))
        && (w.Aborted? ==> e.result == Failure(if w.saysCancel && !w.byTimeout then ApiError(499, "CANCELLED", None) else ApiError(408, "TIMEOUT", None)))
      ensures Temporary(wire(e.last - 1)) ==>
        Lookup(after.circuits, e.request.scope) ==
          Circuit(Met(e).failures + 1, if Met(e).failures + 1 >= 5 then e.call.end else Met(e).openedAt)
    {
      hide MapAt, Copies, KeyOnWire, Backoff, CheckedKey, KeyError;
      var n := e.last - e.first;
      forall send: nat | e.first <= send < e.last - 1 ensures Temporary(wire(send)) {
        assert Transient(Reply(e.first, send - e.first));
      }
      assert Reply(e.first, n - 1) == wire(e.last - 1);
    }

    /** Replies that say nothing of the server's health: the breaker stays as it was met, whatever the call's result. */
    lemma OtherRepliesAreNeutral(before: State, after: State, e: Exchange)
      requires Took(before, after, e) && LetThrough(e)
      ensures var w, found := wire(e.last - 1), Lookup(after.circuits, e.request.scope);
        && (w.Response? && (w.status == 401 || w.status == 403) ==> found == Met(e) && e.result == Failure(ApiError(w.status, w.code, w.retryAfter)))
        && (w.Response? && !(200 <= w.status <= 299) && !Temporary(w) ==> found == Met(e) && e.result == Failure(ApiError(w.status, w.code, w.retryAfter)))
        && (w.Response? && 200 <= w.status <= 299 && w.body == NotJson ==> found == Met(e) && e.result == Failure(ApiError(w.status, "INVALID_CONTENT_TYPE", None)))
        && (w.Response? && 200 <= w.status <= 299 && w.body == BadJson ==> found == Met(e) && e.result == Failure(ApiError(w.status, "INVALID_JSON", None)))
        && (w.Response? && 200 <= w.status <= 299 && w.body == Blank && !e.request.allowEmptyBody && w.status != 204 && w.status != 205 ==>
              found == Met(e) && e.result == Failure(ApiError(w.status, "EMPTY_BODY", None)))
        && (w.DestinationRefused? ==> found == Met(e) && e.result == Refused)
    {
      hide MapAt, Copies, KeyOnWire, Backoff, CheckedKey, KeyError, Retried;
      assert Reply(e.first, e.last - e.first - 1) == wire(e.last - 1);
    }

    /** A reply of the 2xx kind with a JSON body, or an allowed empty one, is the result and closes the breaker. */
    lemma GoodRepliesClear(before: State, after: State, e: Exchange)
      requires Took(before, after, e) && LetThrough(e)
      requires wire(e.last - 1).Response? && 200 <= wire(e.last - 1).status <= 299
      ensures var w, found := wire(e.last - 1), Lookup(after.circuits, e.request.scope);
        && (w.body.Parsed? ==> found == Circuit(0, 0) && e.result == Success(w.body.json))
        && (w.body == Blank && (e.request.allowEmptyBody || w.status == 204 || w.status == 205) ==>
              found == Circuit(0, 0) && e.result == Success(JObject(map[])))
    {
      hide MapAt, Copies, KeyOnWire, Backoff, CheckedKey, KeyError, Retried;
      assert Reply(e.first, e.last - e.first - 1) == wire(e.last - 1);
    }

    /** A refused token, a forbidden or a malformed reply, or any other one that is not temporary, ends the call at its first send. */
    lemma FirstReplyMayDecide(before: State, after: State, e: Exchange)
      requires Took(before, after, e) && LetThrough(e) && !Temporary(wire(e.first))
      ensures e.last == e.first + 1
    {
      hide Took;
      TemporaryFailuresAreRetried(before, after, e);
      assert e.first < e.last - 1 ==> Temporary(wire(e.first));
    }

    /** However many calls in a row are answered 401 or 403, each sends once and the breaker stays closed. */
    lemma {:induction false} RefusedTokensNeverOpen(scope: Scope, before: State, after: State, es: seq<Exchange>, i: nat)
      requires Exchanged(scope, before, after, es) && i < |es| && es[0].before == Circuit(0, 0)
      requires forall k | 0 <= k <= i :: wire(es[k].first).Response? && (wire(es[k].first).status == 401 || wire(es[k].first).status == 403)
      ensures es[i].before == Circuit(0, 0) && es[i].last == es[i].first + 1 && After(es[i].before, es[i].call) == Circuit(0, 0)
    {
      if i > 0 {
        RefusedTokensNeverOpen(scope, before, after, es, i - 1);
        assert Linked(es[i - 1], es[i]);
      }
      hide Spans, KeysOf;
      RefusedOnce(es[i]);
    }

    lemma RefusedOnce(e: Exchange)
      requires Accounted(e) && e.before == Circuit(0, 0)
      requires wire(e.first).Response? && (wire(e.first).status == 401 || wire(e.first).status == 403)
      ensures e.last == e.first + 1 && After(e.before, e.call) == Circuit(0, 0)
    {
      hide Backoff, CheckedKey, KeyError, SendLimit;
      assert Reply(e.first, 0) == wire(e.first);
      assert !Transient(Reply(e.first, 0));
      OnlySend(e.request, e.first, e.last, e.slept);
    }

    lemma OnlySend(r: Request, first: nat, last: nat, slept: seq<int>)
      requires first < last && Retried(r, first, last - first - 1, slept) && !Transient(Reply(first, 0))
      ensures last == first + 1
    {
    }

    /** The requests that get past their key, in order. */
    function Keyed(rs: seq<Request>): seq<Request> {
      if rs == [] then []
      else Keyed(rs[..|rs| - 1]) + (if rs[|rs| - 1].Error().None? then [rs[|rs| - 1]] else [])
    }

    function RequestsOf(es: seq<Exchange>): (rs: seq<Request>)
      ensures |rs| == |es| && forall i | 0 <= i < |es| :: rs[i] == es[i].request
    {
      seq(|es|, i requires 0 <= i < |es| => es[i].request)
    }

    /**
     Requests to one origin, one after the other. Those without a valid key fail at once and touch
     nothing; the others are the exchanges returned, in order, and nothing else happened.
     */
    method RequestInTurn(rs: seq<Request>, scope: Scope) returns (results: seq<Result>, es: seq<Exchange>)
      requires Valid() && forall r | r in rs :: r.scope == scope
      modifies this
      ensures Valid() && Exchanged(scope, old(Snapshot()), Snapshot(), es)
      ensures RequestsOf(es) == Keyed(rs)
      ensures |results| == |rs| && forall i | 0 <= i < |rs| :: Answered(rs, i, results[i], es)
    {
      results, es := [], [];
      hide Exchanged, Took, KeyError, Agrees;
      NothingExchanged(scope, Snapshot());
      for i := 0 to |rs|
        invariant Valid() && Exchanged(scope, old(Snapshot()), Snapshot(), es)
        invariant RequestsOf(es) == Keyed(rs[..i])
        invariant |results| == i && forall j | 0 <= j < i :: Answered(rs, j, results[j], es)
      {
        ghost var mid := Snapshot();
        assert rs[i] in rs;
        OneMoreKeyed(rs, i);
        var e := RequestJson(rs[i]);
        ghost var had := es;
        if rs[i].Error().None? {
          ExchangedMore(scope, old(Snapshot()), mid, Snapshot(), es, e);
          es := es + [e];
        }
        StillAnswered(rs, i, results, had, es, e.result);
        results := results + [e.result];
      }
      assert rs[..|rs|] == rs;
    }

    /** Request i got the error of its key, or the result of its own exchange. */
    ghost predicate Answered(rs: seq<Request>, i: nat, result: Result, es: seq<Exchange>)
      requires i < |rs|
    {
      var n := |Keyed(rs[..i])|;
      if rs[i].Error().Some? then result == Failure(rs[i].Error().value)
      else n < |es| && es[n].request == rs[i] && result == es[n].result
    }

    lemma OneMoreKeyed(rs: seq<Request>, i: nat)
      requires i < |rs|
      ensures Keyed(rs[..i + 1]) == Keyed(rs[..i]) + if rs[i].Error().None? then [rs[i]] else []
    {
      assert rs[..i + 1][..i] == rs[..i];
    }

    lemma StillAnswered(rs: seq<Request>, i: nat, results: seq<Result>, had: seq<Exchange>, es: seq<Exchange>, result: Result)
      requires i < |rs| && |results| == i && had <= es && |had| == |Keyed(rs[..i])|
      requires forall j | 0 <= j < i :: Answered(rs, j, results[j], had)
      requires if rs[i].Error().Some? then result == Failure(rs[i].Error().value)
        else |es| == |had| + 1 && es[|had|].request == rs[i] && es[|had|].result == result
      ensures forall j | 0 <= j <= i :: Answered(rs, j, (results + [result])[j], es)
    {
      hide Keyed, KeyError;
      forall j | 0 <= j <= i ensures Answered(rs, j, (results + [result])[j], es) {
        if j < i {
          assert Answered(rs, j, results[j], had);
        }
      }
    }

    /** At most one send more than the retries allow, and never more than two seconds of sleep per retry. */
    lemma CallIsBounded(r: Request, first: nat, last: nat, result: Result, slept: seq<int>, call: Breaker.Call)
      requires Attempts(r, first, last, result, slept, call)
      ensures last - first <= Retries(r.maxRetries) + 1
      ensures !(r.verb.GET? || r.verb.HEAD? || r.verb.OPTIONS? || (IsMutation(r.verb) && r.Checked() != "")) ==> last - first == 1
      ensures 0 <= Sum(slept) <= MAX_RETRY_DELAY_MS * Retries(r.maxRetries)
    {
      SumAtMost(slept, MAX_RETRY_DELAY_MS);
    }

    /** requestJsonMutation: a wrong method or a blank operation name is refused; the key, if none is given, is built here. */
    method RequestJsonMutation(r: Request, loweredName: string, suffix: Suffix) returns (e: Exchange)
      requires Valid()
      modifies this
      ensures Valid()
      ensures MutationError(r.verb, loweredName).Some? ==>
        e.result == Failure(MutationError(r.verb, loweredName).value) && Snapshot() == old(Snapshot())
      ensures MutationError(r.verb, loweredName).None? ==>
        var full := WithKey(r, loweredName, suffix);
        && e.request == full
        && (Trim(r.optionKey) == "" ==> full.Error().None?)
        && (full.Error().Some? ==> e.result == Failure(full.Error().value) && Snapshot() == old(Snapshot()))
        && (full.Error().None? ==> Took(old(Snapshot()), Snapshot(), e))
    {
      hide *;
      MutationErrorIs(r.verb, loweredName);
      e := Exchange(r, Refused, sent, sent, [], Call(0, 0, Neutral), CLOSED, ticks, ticks);
      if !IsMutation(r.verb) {
        e := e.(result := Failure(METHOD_INVALID));
        return;
      }
      if Trim(loweredName) == "" {
        e := e.(result := Failure(NAME_REQUIRED));
        return;
      }
      if Trim(r.optionKey) == "" {
        BuiltKeyChecked(r, loweredName, suffix);
      }
      e := RequestJson(WithKey(r, loweredName, suffix));
    }
  }

  const METHOD_INVALID := ApiError(400, "INVALID_MUTATION_METHOD", None)
  const NAME_REQUIRED := ApiError(400, "OPERATION_NAME_REQUIRED", None)

  function MutationError(verb: Verb, name: string): Option<ApiError> {
    if !IsMutation(verb) then Some(METHOD_INVALID) else if Trim(name) == "" then Some(NAME_REQUIRED) else None
  }

  lemma MutationErrorIs(verb: Verb, name: string)
    ensures MutationError(verb, name) ==
      if !IsMutation(verb) then Some(METHOD_INVALID) else if Trim(name) == "" then Some(NAME_REQUIRED) else None
  {
  }

  /**
   Which requests are refused before anything is sent, and how: a mutation without a key, or with
   one shorter than 32 characters or holding one that is no letter, digit, '_' or '-'. Only a
   mutation with a name goes through requestJsonMutation.
   */
  lemma RefusedIff(r: Request, name: string)
    ensures var option, header := Trim(r.optionKey), Trim(r.headerKey);
      var key := if option != "" then option else header;
      var plain := forall c | c in key :: 'a' <= c <= 'z' || 'A' <= c <= 'Z' || '0' <= c <= '9' || c == '_' || c == '-';
      r.Error() ==
        if r.verb !in {POST, PUT, PATCH, DELETE} then None
        else if key == "" then (if r.unsafeAllowed then None else Some(ApiError(400, "IDEMPOTENCY_KEY_REQUIRED", None)))
        else if |key| >= 32 && plain then None
        else Some(ApiError(400, "IDEMPOTENCY_KEY_INVALID", None))
    ensures MutationError(r.verb, name) ==
      if r.verb !in {POST, PUT, PATCH, DELETE} then Some(ApiError(400, "INVALID_MUTATION_METHOD", None))
      else if forall c | c in name :: IsSpace(c) then Some(ApiError(400, "OPERATION_NAME_REQUIRED", None))
      else None
  {
    var key := r.Checked();
    TrimTwice(r.optionKey);
    TrimTwice(r.headerKey);
    ValidKeyIff(key);
    BlankIff(name);
    hide IsValidKey, Trim;
  }

  lemma LoadedAgrees(disk: Circuits, now: int)
    ensures Agrees(Load(disk, now), disk, now)
  {
    forall scope, t | t >= now ensures OpenAt(Lookup(disk, scope), t) == OpenAt(Lookup(Load(disk, now), scope), t) {
      FreshProcessAgrees(disk, now, t, scope);
    }
  }

  lemma ClosedEntryAgrees(memory: Circuits, disk: Circuits, since: int, scope: Scope)
    ensures Agrees(memory, disk, since) && scope !in memory ==> Agrees(memory[scope := CLOSED], disk, since)
  {
  }

  lemma AfterRefused(c: Circuit, call: Breaker.Call)
    ensures var c1 := Expire(c, call.begin);
      (OpenAt(c, call.begin) <==> OpenAt(c1, call.begin)) && (OpenAt(c, call.begin) ==> c1 == c && After(c, call) == c)
  {
  }

  lemma AfterExpired(c: Circuit, call: Breaker.Call)
    ensures var c1 := Expire(c, call.begin);
      && Expire(c1, call.begin) == c1 && (OpenAt(c, call.begin) <==> OpenAt(c1, call.begin)) && After(c1, call) == After(c, call)
  {
  }

  function Copies(n: nat, key: string): (copies: seq<string>)
    ensures |copies| == n && forall i | 0 <= i < n :: copies[i] == key
  {
    seq(n, _ => key)
  }

  lemma CopiesOneMore(n: nat, key: string)
    ensures Copies(n, key) + [key] == Copies(n + 1, key)
  {
  }

  lemma LookupIs(circuits: Circuits, scope: Scope)
    ensures scope in circuits ==> Lookup(circuits, scope) == circuits[scope] && circuits[scope := circuits[scope]] == circuits
  {
  }

  lemma LimitIs(r: Request, retryable: bool, retries: nat)
    requires retryable == (r.verb.GET? || r.verb.HEAD? || r.verb.OPTIONS? || (r.Checked() != "" && IsMutation(r.verb)))
    requires retries == Retries(r.maxRetries)
    ensures r.Limit() == if retryable then retries + 1 else 1
  {
    hide CheckedKey, IsMutation, Retries;
  }

  lemma VerdictIs(w: Wire, allowEmptyBody: bool)
    ensures VerdictOf(w, allowEmptyBody) ==
      if Transient(w) then Tracked else if Outcome(w, allowEmptyBody).Success? then Clears else Neutral
  {
  }

  /** A call that found the breaker closed. */
  lemma AfterClosed(c: Circuit, call: Breaker.Call)
    requires Expire(c, call.begin) == c && !OpenAt(c, call.begin)
    ensures After(c, call) == if call.verdict.Tracked? then Fail(c, call.end) else if call.verdict.Clears? then CLOSED else c
  {
  }

  function WithKey(r: Request, loweredName: string, suffix: Suffix): Request {
    r.(optionKey := if Trim(r.optionKey) != "" then Trim(r.optionKey) else KeyForOperation(Trim(loweredName), suffix))
  }

  /** The caller's own key is used, and only without one a key is built. */
  lemma KeyOfMutation(r: Request, loweredName: string, suffix: Suffix)
    ensures Trim(r.optionKey) != "" ==> WithKey(r, loweredName, suffix).Checked() == Trim(r.optionKey)
    ensures Trim(r.optionKey) == "" ==> WithKey(r, loweredName, suffix).Checked() == KeyForOperation(Trim(loweredName), suffix)
  {
    TrimTwice(r.optionKey);
    BuiltKeyIsValid(Trim(loweredName), suffix);
    hide Trim, KeyForOperation, IsValidKey;
  }

  lemma BuiltKeyChecked(r: Request, loweredName: string, suffix: Suffix)
    requires Trim(r.optionKey) == ""
    ensures WithKey(r, loweredName, suffix).Error().None?
  {
    BuiltKeyIsValid(Trim(loweredName), suffix);
    TrimTwice(KeyForOperation(Trim(loweredName), suffix));
  }
}
