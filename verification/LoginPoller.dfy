/**
 Waiting for a browser login to be approved (src/auth/service.js): one loop under a deadline, an
 attempt cap, a weighted budget for transient errors and a budget for the sleeping they cause.
 It polls through the request engine of module ApiClient.
 */
module LoginPoller {
  import opened Text
  import opened Reals
  import opened Idempotency
  import opened ApiClient

  const DEFAULT_AUTH_TIMEOUT_MS := 600000.0
  const MAX_AUTH_POLL_REQUESTS := 600
  const MIN_TRANSIENT_POLL_DELAY_MS := 2000
  const TRANSIENT_DELAY_THRESHOLD := 3

  function Ceil(x: real): int {
    -((-x).Floor)
  }

  /** The numbers fixed before the first poll. */
  datatype Plan = Plan(timeout: real, pollMs: int, maxPollMs: int, transientBudget: int, sleepBudget: int, maxAttempts: int)

  function MakePlan(timeout: real, pollSeconds: real): (p: Plan)
    requires timeout > 0.0
    ensures 250 <= p.pollMs <= p.maxPollMs
    ensures 1 <= p.maxAttempts <= 600
    ensures p.transientBudget >= 8 && p.sleepBudget >= 2000
  {
    var pollMs := Max(250, Round((if pollSeconds == 0.0 then 2.0 else pollSeconds) * 1000.0));
    var maxPollMs := Max(pollMs, Min(5000, (timeout / 4.0).Floor));
    Plan(timeout, pollMs, maxPollMs,
         Max(8, Ceil(timeout / maxPollMs as real) * 3),
         Max(2000, (timeout * 0.8).Floor),
         Min(MAX_AUTH_POLL_REQUESTS, Max(1, Ceil(timeout / Max(250, pollMs) as real))))
  }

  /** Attempts enough to fill the time at the poll interval, one at least and 600 at most. */
  lemma AttemptsFillTimeout(timeout: real, pollSeconds: real)
    requires timeout > 0.0
    ensures var p := MakePlan(timeout, pollSeconds);
      && (p.maxAttempts < 600 ==> Times(p.maxAttempts as real, p.pollMs as real) >= timeout)
      && (p.maxAttempts > 1 ==> Times((p.maxAttempts - 1) as real, p.pollMs as real) < timeout)
  {
    var p := MakePlan(timeout, pollSeconds);
    var n := Ceil(timeout / p.pollMs as real);
    CeilOfQuotient(timeout, p.pollMs as real, n);
    assert p.maxAttempts == if n < 600 then n else 600;
    hide MakePlan, Times;
    if 1 < p.maxAttempts {
      TimesMonotone((p.maxAttempts - 1) as real, (n - 1) as real, p.pollMs as real);
    }
  }

  /** Three errors' weight for every pause of the longest kind that the time holds, eight at least. */
  lemma ErrorsFitTimeout(timeout: real, pollSeconds: real)
    requires timeout > 0.0
    ensures var p := MakePlan(timeout, pollSeconds);
      var n := p.transientBudget / 3;
      && (p.transientBudget == 8 ==> Times(2.0, p.maxPollMs as real) >= timeout)
      && (p.transientBudget != 8 ==> n >= 3 && p.transientBudget == 3 * n)
      && (p.transientBudget != 8 ==>
            Times(n as real, p.maxPollMs as real) >= timeout && Times((n - 1) as real, p.maxPollMs as real) < timeout)
  {
    var p := MakePlan(timeout, pollSeconds);
    var n := Ceil(timeout / p.maxPollMs as real);
    CeilOfQuotient(timeout, p.maxPollMs as real, n);
    assert p.transientBudget == if n * 3 < 8 then 8 else n * 3;
    hide MakePlan, Times;
    if n <= 2 {
      TimesMonotone(n as real, 2.0, p.maxPollMs as real);
    }
  }

  /** Four fifths of the time for sleeping after errors, two seconds at least; pauses up to a quarter of it, or five seconds; polls at the rounded interval, 250 ms apart at least. */
  lemma PlanFitsTimeout(timeout: real, pollSeconds: real)
    requires timeout > 0.0
    ensures var p := MakePlan(timeout, pollSeconds);
      && p.timeout == timeout
      && (p.sleepBudget > 2000 ==> p.sleepBudget as real <= 0.8 * timeout)
      && 0.8 * timeout < p.sleepBudget as real + 1.0
      && (p.maxPollMs > p.pollMs ==> p.maxPollMs <= 5000 && p.maxPollMs as real <= timeout / 4.0)
      && (p.maxPollMs >= 5000 || timeout / 4.0 < p.maxPollMs as real + 1.0)
    ensures var ms, asked := MakePlan(timeout, pollSeconds).pollMs as real, 1000.0 * pollSeconds;
      pollSeconds != 0.0 ==> (asked < 250.0 ==> ms == 250.0) && (asked >= 250.0 ==> ms - 0.5 <= asked < ms + 0.5)
  {
  }

  lemma CeilOfQuotient(t: real, m: real, n: int)
    requires t > 0.0 && m > 0.0 && n == Ceil(t / m)
    ensures n >= 1 && Times(n as real, m) >= t && Times((n - 1) as real, m) < t
  {
    var q := t / m;
    assert q > 0.0 by { QuotientPositive(t, m); }
    assert n as real >= q > n as real - 1.0;
    TimesQuotient(t, m);
    TimesMonotone(q, n as real, m);
    TimesMonotone((n - 1) as real, q, m);
  }

  lemma QuotientPositive(t: real, m: real)
    requires t > 0.0 && m > 0.0
    ensures t / m > 0.0
  {
  }

  /** The wait the command line starts: 300 polls two seconds apart, pauses of at most five seconds. */
  lemma DefaultPlan()
    ensures MakePlan(600000.0, 2.0) == Plan(600000.0, 2000, 5000, 360, 480000, 300)
    ensures MakePlan(600000.0, 0.0) == MakePlan(600000.0, 2.0)
  {
  }

  datatype Kind = RateLimit | Server | Network

  function Weight(k: Kind): int {
    match k
    case RateLimit => 3
    case Server => 2
    case Network => 1
  }

  /** classifyPollError */
  function Classify(e: ApiError): Option<Kind> {
    if e.status == 429 then Some(RateLimit)
    else if e.status >= 500 then Some(Server)
    else if e.code == "NETWORK_ERROR" || e.code == "TIMEOUT" then Some(Network)
    else None
  }

  datatype Ending =
    | Approved(payload: map<string, string>)
    | Rejected
    | Expired
    | AttemptsSpent
    | TransientSpent
    | SleepSpent
    | TimedOut
    | Passed(error: ApiError)
    | PassedRefusal
    | NullPayload
    | BadTimeout

  /** Endings that no single poll decides. */
  predicate BudgetEnding(e: Ending) {
    e.AttemptsSpent? || e.TransientSpent? || e.SleepSpent? || e.TimedOut? || e.BadTimeout?
  }

  function Field(fields: map<string, string>, name: string): string {
    if name in fields then fields[name] else ""
  }

  /** How one poll ends the wait on its own, if it does. */
  function Decides(r: Result): (d: Option<Ending>)
    ensures d.Some? ==> !BudgetEnding(d.value)
    ensures d.None? && r.Failure? ==> Classify(r.error).Some?
  {
    match r
    case Refused => Some(PassedRefusal)
    case Failure(e) => if Classify(e).None? then Some(Passed(e)) else None
    case Success(JNull) => Some(NullPayload)
    case Success(JOther) => None
    case Success(JObject(fields)) =>
      var status := Lower(Trim(Field(fields, "status")));
      if status == "approved" && Field(fields, "auth_token") != "" then Some(Approved(fields))
      else if status == "rejected" || status == "denied" || status == "cancelled" then Some(Rejected)
      else if status == "expired" then Some(Expired)
      else None
  }

  /**
   What the wait did, in order. A poll is the exchange it made. `left` is the time to the deadline by
   the clock reading number `tick`, taken just before the poll or the sleep; a sleep that the budget
   does not allow is Denied.
   */
  datatype Event =
    | Polled(exchange: Exchange, tick: nat, left: real)
    | Absorbed(kind: Kind)
    | Slept(ms: real, tick: nat, left: real, afterError: bool)
    | Denied(ms: real, tick: nat, left: real)

  function Polls(trace: seq<Event>): nat {
    if trace == [] then 0 else Polls(trace[..|trace| - 1]) + (if trace[|trace| - 1].Polled? then 1 else 0)
  }

  function Count(trace: seq<Event>, k: Kind): nat {
    if trace == [] then 0 else Count(trace[..|trace| - 1], k) + (if trace[|trace| - 1] == Absorbed(k) then 1 else 0)
  }

  function ErrorSleep(trace: seq<Event>): real {
    if trace == [] then 0.0
    else ErrorSleep(trace[..|trace| - 1]) +
         (if trace[|trace| - 1].Slept? && trace[|trace| - 1].afterError then trace[|trace| - 1].ms else 0.0)
  }

  function Sleeps(trace: seq<Event>): nat {
    if trace == [] then 0 else Sleeps(trace[..|trace| - 1]) + (if trace[|trace| - 1].Slept? then 1 else 0)
  }

  lemma OneMore(trace: seq<Event>, e: Event)
    ensures Polls(trace + [e]) == Polls(trace) + (if e.Polled? then 1 else 0)
    ensures forall k :: Count(trace + [e], k) == Count(trace, k) + (if e == Absorbed(k) then 1 else 0)
    ensures ErrorSleep(trace + [e]) == ErrorSleep(trace) + (if e.Slept? && e.afterError then e.ms else 0.0)
    ensures Sleeps(trace + [e]) == Sleeps(trace) + (if e.Slept? then 1 else 0)
  {
    assert (trace + [e])[..|trace|] == trace;
  }

  function TransientUsed(trace: seq<Event>): int {
    3 * Count(trace, RateLimit) + 2 * Count(trace, Server) + Count(trace, Network)
  }

  function Last(trace: seq<Event>): Event
    requires trace != []
  {
    trace[|trace| - 1]
  }

  /** Errors are absorbed under their own kind, and every poll is followed by its own sleep. */
  ghost predicate Follows(a: Event, b: Event) {
    match a
    case Polled(e, _, _) =>
      if e.result.Failure? then b.Absorbed? && Classify(e.result.error) == Some(b.kind) else b.Slept? && !b.afterError
    case Absorbed(_) => b.Denied? || (b.Slept? && b.afterError)
    case Slept(_, _, _, _) => b.Polled?
    case Denied(_, _, _) => false
  }

  ghost predicate InOrder(trace: seq<Event>) {
    && (trace != [] ==> trace[0].Polled?)
    && (forall i | 0 < i < |trace| :: Follows(trace[i - 1], trace[i]))
  }

  /** The budgets are kept, every sleep fits into the time that was left, and the trace is a real one. */
  ghost predicate WithinBudgets(p: Plan, trace: seq<Event>) {
    && Polls(trace) <= p.maxAttempts
    && TransientUsed(trace) <= p.transientBudget
    && ErrorSleep(trace) <= p.sleepBudget as real
    && (forall i | 0 <= i < |trace| && trace[i].Slept? :: 250.0 <= trace[i].ms <= trace[i].left)
    && InOrder(trace)
  }

  ghost predicate Undecided(trace: seq<Event>) {
    forall i | 0 <= i < |trace| && trace[i].Polled? :: Decides(trace[i].exchange.result).None?
  }

  /** Not an error still to be weighed, and not a denied sleep. */
  predicate Settled(e: Event) {
    e.Slept? || e.Absorbed? || (e.Polled? && !e.exchange.result.Failure?)
  }

  /** Why the wait ended as it did. A poll that decides is the last event and names the ending; without one a budget or the clock does. */
  ghost predicate Because(p: Plan, trace: seq<Event>, ending: Ending) {
    match ending
    case AttemptsSpent => Undecided(trace) && Polls(trace) == p.maxAttempts && (trace == [] || Last(trace).Slept?)
    case TransientSpent =>
      && Undecided(trace) && trace != [] && Last(trace).Polled? && Last(trace).exchange.result.Failure?
      && var kind := Classify(Last(trace).exchange.result.error);
      && kind.Some? && TransientUsed(trace) + Weight(kind.value) > p.transientBudget
    case SleepSpent =>
      && Undecided(trace) && trace != [] && trace[|trace| - 1].Denied?
      && 250.0 <= trace[|trace| - 1].ms <= trace[|trace| - 1].left
      && ErrorSleep(trace) + trace[|trace| - 1].ms > p.sleepBudget as real
    case TimedOut => Undecided(trace) && (trace == [] || Settled(Last(trace)))
    case BadTimeout => false
    case _ =>
      && trace != [] && trace[|trace| - 1].Polled? && Decides(trace[|trace| - 1].exchange.result) == Some(ending)
      && Undecided(trace[..|trace| - 1])
  }

  function PowReal(base: real, n: nat): real {
    if n == 0 then 1.0 else base * PowReal(base, n - 1)
  }

  /** computePollDelayMs; `jitter` is the deterministic factor of this attempt. */
  function PollDelay(p: Plan, errors: nat, pollAttempt: nat, jitter: real, retryAfter: Option<nat>): (ms: int)
    ensures ms >= 250
  {
    var floor := if errors >= TRANSIENT_DELAY_THRESHOLD then MIN_TRANSIENT_POLL_DELAY_MS else 250;
    if retryAfter.Some? && retryAfter.value > 0 then Max(floor, Min(p.maxPollMs, retryAfter.value))
    else Max(floor, Round(Times(PollBackoff(p, pollAttempt) as real, jitter)))
  }

  function PollBackoff(p: Plan, pollAttempt: nat): int {
    Min(p.maxPollMs, Round(Times(p.pollMs as real, PowReal(1.5, Min(6, pollAttempt)))))
  }

  /** The server's wish is met as far as it lies between the least and the longest pause; three errors raise the least one to two seconds. A wish of zero is none. */
  lemma PauseFollowsServer(p: Plan, errors: nat, pollAttempt: nat, jitter: real, wish: nat)
    ensures wish == 0 ==> PollDelay(p, errors, pollAttempt, jitter, Some(wish)) == PollDelay(p, errors, pollAttempt, jitter, None)
    ensures wish > 0 ==>
      var ms, least := PollDelay(p, errors, pollAttempt, jitter, Some(wish)), if errors >= 3 then 2000 else 250;
      && (least <= wish <= p.maxPollMs ==> ms == wish)
      && (wish <= least ==> ms == least)
      && (least <= p.maxPollMs <= wish ==> ms == p.maxPollMs)
  {
  }

  /** Without one the pause lies between the least one and the longest, give or take the jitter. */
  lemma PauseWithinLongest(p: Plan, errors: nat, pollAttempt: nat, jitter: real)
    requires p.pollMs > 0 && p.maxPollMs > 0 && 0.85 <= jitter <= 1.15
    ensures var ms, least := PollDelay(p, errors, pollAttempt, jitter, None), if errors >= 3 then 2000 else 250;
      ms >= least && (ms > least ==> ms as real <= 1.15 * p.maxPollMs as real + 0.5)
  {
    BackoffPositive(p, pollAttempt);
    JitterBound(PollBackoff(p, pollAttempt), p.maxPollMs, jitter);
    hide PollBackoff, Times;
  }

  /** In the default wait the pauses grow by half, from two seconds to five. */
  lemma DefaultPauses(p: Plan)
    requires p.pollMs == 2000 && p.maxPollMs == 5000
    ensures PollDelay(p, 0, 0, 1.0, None) == 2000 && PollDelay(p, 0, 1, 1.0, None) == 3000
    ensures PollDelay(p, 0, 2, 1.0, None) == 4500 && PollDelay(p, 0, 3, 1.0, None) == 5000
  {
    PowersOfHalfMore();
    hide PowReal;
    assert PollBackoff(p, 0) == 2000 && PollBackoff(p, 1) == 3000 && PollBackoff(p, 2) == 4500 && PollBackoff(p, 3) == 5000;
    hide PollBackoff;
  }

  /** After six pauses they grow no more: from a quarter of a second to less than three. */
  lemma PausesStopGrowing(p: Plan, pollAttempt: nat)
    requires p.pollMs == 250 && p.maxPollMs == 5000 && pollAttempt >= 6
    ensures PollDelay(p, 0, pollAttempt, 1.0, None) == 2848
  {
    PowersOfHalfMore();
    hide PowReal;
    assert Times(250.0, 11.390625) == 2847.65625;
    assert PollBackoff(p, pollAttempt) == 2848;
    hide PollBackoff;
  }

  lemma PowersOfHalfMore()
    ensures PowReal(1.5, 0) == 1.0 && PowReal(1.5, 1) == 1.5 && PowReal(1.5, 2) == 2.25 && PowReal(1.5, 3) == 3.375
    ensures PowReal(1.5, 6) == 11.390625
  {
    assert PowReal(1.5, 6) == 1.5 * PowReal(1.5, 5);
    assert PowReal(1.5, 5) == 1.5 * PowReal(1.5, 4);
    assert PowReal(1.5, 4) == 1.5 * PowReal(1.5, 3);
    assert PowReal(1.5, 1) == 1.5 * PowReal(1.5, 0);
    assert PowReal(1.5, 2) == 1.5 * PowReal(1.5, 1);
    assert PowReal(1.5, 3) == 1.5 * PowReal(1.5, 2);
  }

  lemma BackoffPositive(p: Plan, pollAttempt: nat)
    requires p.pollMs > 0 && p.maxPollMs > 0
    ensures 0 <= PollBackoff(p, pollAttempt) <= p.maxPollMs
  {
    PowPositive(Min(6, pollAttempt));
    TimesPositive(p.pollMs as real, PowReal(1.5, Min(6, pollAttempt)));
  }

  lemma PowPositive(n: nat)
    ensures PowReal(1.5, n) > 0.0
  {
  }

  lemma JitterBound(backoff: int, most: int, jitter: real)
    requires 0 <= backoff <= most && 0 < most && 0.85 <= jitter <= 1.15
    ensures Round(Times(backoff as real, jitter)) as real <= 1.15 * most as real + 0.5
  {
    TimesMonotone(jitter, 1.15, most as real);
    TimesMonotone(backoff as real, most as real, jitter);
    assert Times(jitter, most as real) == Times(most as real, jitter);
    assert Times(1.15, most as real) == 1.15 * most as real;
    hide Times;
  }

  function Bounded(delay: int, left: real): (ms: real)
    requires left > 250.0 && delay >= 250
    ensures 250.0 <= ms <= left
    ensures delay as real <= left ==> ms == delay as real
    ensures left <= delay as real ==> ms == left
  {
    var d := delay as real;
    var m := if d < left then d else left;
    if m < 250.0 then 250.0 else m
  }

  function Errors(trace: seq<Event>): nat {
    Count(trace, RateLimit) + Count(trace, Server) + Count(trace, Network)
  }

  /** The server's own wish for the pause after a poll that failed. */
  function RetryAfter(trace: seq<Event>): Option<nat> {
    if |trace| > 1 && Last(trace).Absorbed? && trace[|trace| - 2].Polled? && trace[|trace| - 2].exchange.result.Failure?
    then trace[|trace| - 2].exchange.result.error.retryAfter
    else None
  }

  /** The pause that is due after this much of the wait: it depends on the errors and the sleeps so far, and on nothing else. */
  function Due(p: Plan, jitter: nat -> real, trace: seq<Event>, left: real): (ms: real)
    requires left > 250.0
    ensures 250.0 <= ms <= left
  {
    Bounded(PollDelay(p, Errors(trace), Sleeps(trace), jitter(Sleeps(trace)), RetryAfter(trace)), left)
  }

  /** Every sleep, and a sleep that was denied, is the one that was due. */
  ghost predicate Paced(p: Plan, jitter: nat -> real, trace: seq<Event>) {
    forall i | 0 <= i < |trace| && (trace[i].Slept? || trace[i].Denied?) ::
      trace[i].left > 250.0 && trace[i].ms == Due(p, jitter, trace[..i], trace[i].left)
  }

  lemma PacedOneMore(p: Plan, jitter: nat -> real, trace: seq<Event>, e: Event)
    requires Paced(p, jitter, trace)
    requires e.Slept? || e.Denied? ==> e.left > 250.0 && e.ms == Due(p, jitter, trace, e.left)
    ensures Paced(p, jitter, trace + [e])
    ensures Sleeps(trace + [e]) == Sleeps(trace) + (if e.Slept? then 1 else 0)
    ensures Errors(trace + [e]) == Errors(trace) + (if e.Absorbed? then 1 else 0)
  {
    hide Due, Polls, Count, ErrorSleep, Sleeps;
    OneMore(trace, e);
    if e.Absorbed? {
      match e.kind
      case RateLimit =>
      case Server =>
      case Network =>
    }
    var t := trace + [e];
    assert t[..|trace|] == trace;
    forall i | 0 <= i < |trace| ensures t[..i] == trace[..i] {}
  }

  /** What the loop's counters hold. */
  datatype Used = Used(polls: nat, transient: int, slept: real, errors: nat, sleeps: nat)

  function UsedBy(trace: seq<Event>): Used {
    Used(Polls(trace), TransientUsed(trace), ErrorSleep(trace), Errors(trace), Sleeps(trace))
  }

  ghost predicate Kept(p: Plan, jitter: nat -> real, trace: seq<Event>) {
    WithinBudgets(p, trace) && Paced(p, jitter, trace)
  }

  /** No poll has decided yet. */
  ghost predicate Going(p: Plan, jitter: nat -> real, trace: seq<Event>) {
    Kept(p, jitter, trace) && Undecided(trace)
  }

  /** Where the loop stands: before a poll, after one, or after an error has been absorbed. */
  datatype Phase = BetweenPolls | JustPolled(result: Result) | JustAbsorbed(retryAfter: Option<nat>)

  ghost predicate InPhase(trace: seq<Event>, phase: Phase) {
    match phase
    case BetweenPolls => trace == [] || Last(trace).Slept?
    case JustPolled(r) => trace != [] && Last(trace).Polled? && Last(trace).exchange.result == r
    case JustAbsorbed(hint) => trace != [] && Last(trace).Absorbed? && RetryAfter(trace) == hint
  }

  /** What holds at every point of the loop. */
  ghost predicate At(p: Plan, jitter: nat -> real, trace: seq<Event>, phase: Phase, used: Used) {
    Going(p, jitter, trace) && InPhase(trace, phase) && UsedBy(trace) == used
  }

  lemma NothingYet(p: Plan, jitter: nat -> real)
    requires p.maxAttempts >= 0 && p.transientBudget >= 0 && p.sleepBudget >= 0
    ensures At(p, jitter, [], BetweenPolls, Used(0, 0, 0.0, 0, 0))
  {
  }

  /** What one more event adds to the counters. */
  lemma UsedOneMore(trace: seq<Event>, e: Event)
    ensures UsedBy(trace + [e]) ==
      match e
      case Polled(_, _, _) => UsedBy(trace).(polls := Polls(trace) + 1)
      case Absorbed(k) => UsedBy(trace).(transient := TransientUsed(trace) + Weight(k), errors := Errors(trace) + 1)
      case Slept(ms, _, _, afterError) => UsedBy(trace).(slept := ErrorSleep(trace) + (if afterError then ms else 0.0), sleeps := Sleeps(trace) + 1)
      case Denied(_, _, _) => UsedBy(trace)
  {
    OneMore(trace, e);
    hide Polls, Count, ErrorSleep, Sleeps;
    if e.Absorbed? {
      match e.kind
      case RateLimit =>
      case Server =>
      case Network =>
    }
  }

  lemma OrderOneMore(trace: seq<Event>, e: Event)
    requires InOrder(trace)
    requires if trace == [] then e.Polled? else Follows(Last(trace), e)
    ensures InOrder(trace + [e])
  {
    hide Follows;
  }

  lemma WithinOneMore(p: Plan, trace: seq<Event>, e: Event)
    requires WithinBudgets(p, trace) && InOrder(trace + [e])
    requires var u := UsedBy(trace + [e]);
      u.polls <= p.maxAttempts && u.transient <= p.transientBudget && u.slept <= p.sleepBudget as real
    requires e.Slept? ==> 250.0 <= e.ms <= e.left
    ensures WithinBudgets(p, trace + [e])
  {
    hide Polls, TransientUsed, ErrorSleep, InOrder, Errors, Sleeps;
    var t := trace + [e];
    forall i | 0 <= i < |t| && t[i].Slept? ensures 250.0 <= t[i].ms <= t[i].left {
      if i < |trace| {
        assert t[i] == trace[i];
      }
    }
  }

  /** The budgets themselves, as the counters see them. */
  lemma WithinMeans(p: Plan, trace: seq<Event>)
    requires WithinBudgets(p, trace)
    ensures InOrder(trace)
    ensures var u := UsedBy(trace);
      u.polls <= p.maxAttempts && u.transient <= p.transientBudget && u.slept <= p.sleepBudget as real
  {
    hide Polls, TransientUsed, ErrorSleep, InOrder, Errors, Sleeps;
  }

  lemma UndecidedOneMore(trace: seq<Event>, e: Event)
    requires Undecided(trace) && (e.Polled? ==> Decides(e.exchange.result).None?)
    ensures Undecided(trace + [e])
  {
    hide Decides;
  }

  /** A poll either ends the wait or leaves it going. */
  lemma AfterPoll(p: Plan, jitter: nat -> real, trace: seq<Event>, used: Used, e: Event)
    requires At(p, jitter, trace, BetweenPolls, used) && used.polls < p.maxAttempts
    requires e.Polled?
    ensures var t := trace + [e];
      && Kept(p, jitter, t) && Polls(t) == used.polls + 1
      && (Decides(e.exchange.result).Some? ==> Because(p, t, Decides(e.exchange.result).value) && Decides(e.exchange.result).value != TimedOut)
      && (Decides(e.exchange.result).None? ==> At(p, jitter, t, JustPolled(e.exchange.result), used.(polls := used.polls + 1)))
      && (e.exchange.result.Failure? && Decides(e.exchange.result).None? && used.transient + Weight(Classify(e.exchange.result.error).value) > p.transientBudget ==>
            Because(p, t, TransientSpent))
  {
    hide WithinBudgets, Errors, TransientUsed, Paced, Polls, ErrorSleep, Sleeps, Due, InOrder, Undecided, Classify, Decides, Weight;
    WithinMeans(p, trace);
    UsedOneMore(trace, e);
    PacedOneMore(p, jitter, trace, e);
    OrderOneMore(trace, e);
    WithinOneMore(p, trace, e);
    if Decides(e.exchange.result).None? {
      UndecidedOneMore(trace, e);
    }
    assert (trace + [e])[..|trace|] == trace;
  }

  lemma AfterAbsorbed(p: Plan, jitter: nat -> real, trace: seq<Event>, r: Result, used: Used, k: Kind)
    requires At(p, jitter, trace, JustPolled(r), used) && used.transient + Weight(k) <= p.transientBudget
    requires r.Failure? && Classify(r.error) == Some(k)
    ensures At(p, jitter, trace + [Absorbed(k)], JustAbsorbed(r.error.retryAfter),
               used.(transient := used.transient + Weight(k), errors := used.errors + 1))
  {
    hide WithinBudgets, Errors, TransientUsed, Paced, Polls, ErrorSleep, Sleeps, Due, InOrder, Undecided, Classify, Decides, Weight;
    WithinMeans(p, trace);
    UsedOneMore(trace, Absorbed(k));
    PacedOneMore(p, jitter, trace, Absorbed(k));
    OrderOneMore(trace, Absorbed(k));
    UndecidedOneMore(trace, Absorbed(k));
    WithinOneMore(p, trace, Absorbed(k));
    assert (trace + [Absorbed(k)])[|trace| - 1] == Last(trace);
  }

  /** After a poll that failed, and after one that brought nothing, a pause may follow. */
  predicate MayPause(phase: Phase) {
    phase.JustAbsorbed? || (phase.JustPolled? && !phase.result.Failure?)
  }

  function Hint(phase: Phase): Option<nat> {
    if phase.JustAbsorbed? then phase.retryAfter else None
  }

  /** The pause that is due, from the counters. */
  lemma DueFromCounters(
    p: Plan, jitter: nat -> real, trace: seq<Event>, phase: Phase, used: Used, left: real)
    requires At(p, jitter, trace, phase, used) && MayPause(phase) && left > 250.0
    ensures Due(p, jitter, trace, left) == Bounded(PollDelay(p, used.errors, used.sleeps, jitter(used.sleeps), Hint(phase)), left)
  {
    hide Going, PollDelay, Bounded, Errors, TransientUsed, Polls, ErrorSleep, Sleeps;
  }

  lemma AfterSleep(
    p: Plan, jitter: nat -> real, trace: seq<Event>, phase: Phase, used: Used, ms: real, tick: nat, left: real)
    requires At(p, jitter, trace, phase, used) && MayPause(phase) && left > 250.0
    requires ms == Bounded(PollDelay(p, used.errors, used.sleeps, jitter(used.sleeps), Hint(phase)), left)
    requires phase.JustAbsorbed? ==> used.slept + ms <= p.sleepBudget as real
    ensures At(p, jitter, trace + [Slept(ms, tick, left, phase.JustAbsorbed?)], BetweenPolls,
               used.(slept := used.slept + (if phase.JustAbsorbed? then ms else 0.0), sleeps := used.sleeps + 1))
  {
    hide WithinBudgets, Errors, TransientUsed, Paced, Polls, ErrorSleep, Sleeps, Due, InOrder, Undecided, Classify, Decides, Weight;
    var e := Slept(ms, tick, left, phase.JustAbsorbed?);
    WithinMeans(p, trace);
    DueFromCounters(p, jitter, trace, phase, used, left);
    UsedOneMore(trace, e);
    PacedOneMore(p, jitter, trace, e);
    OrderOneMore(trace, e);
    UndecidedOneMore(trace, e);
    WithinOneMore(p, trace, e);
  }

  lemma AfterDenied(
    p: Plan, jitter: nat -> real, trace: seq<Event>, phase: Phase, used: Used, ms: real, tick: nat, left: real)
    requires At(p, jitter, trace, phase, used) && phase.JustAbsorbed? && left > 250.0
    requires ms == Bounded(PollDelay(p, used.errors, used.sleeps, jitter(used.sleeps), Hint(phase)), left)
    requires used.slept + ms > p.sleepBudget as real
    ensures var t := trace + [Denied(ms, tick, left)];
      Kept(p, jitter, t) && Because(p, t, SleepSpent) && Polls(t) == used.polls
  {
    hide WithinBudgets, Errors, TransientUsed, Paced, Polls, ErrorSleep, Sleeps, Due, InOrder, Undecided, Classify, Decides, Weight;
    WithinMeans(p, trace);
    DueFromCounters(p, jitter, trace, phase, used, left);
    UsedOneMore(trace, Denied(ms, tick, left));
    PacedOneMore(p, jitter, trace, Denied(ms, tick, left));
    OrderOneMore(trace, Denied(ms, tick, left));
    UndecidedOneMore(trace, Denied(ms, tick, left));
    WithinOneMore(p, trace, Denied(ms, tick, left));
  }

  /** Out of time or of attempts: the endings that need no last event. */
  lemma Undecisive(p: Plan, jitter: nat -> real, trace: seq<Event>, phase: Phase, used: Used)
    requires At(p, jitter, trace, phase, used) && (phase.BetweenPolls? || MayPause(phase))
    ensures Kept(p, jitter, trace) && Because(p, trace, TimedOut) && Polls(trace) == used.polls
    ensures used.polls == p.maxAttempts && phase.BetweenPolls? ==> Because(p, trace, AttemptsSpent)
  {
    hide WithinBudgets, Paced, Undecided, Errors, TransientUsed, Polls, ErrorSleep, Sleeps;
  }

  /** normalizePositiveNumber refuses a timeout that is given but not positive. */
  predicate BadTimeoutGiven(timeoutMs: Option<real>) {
    timeoutMs.Some? && timeoutMs.value <= 0.0
  }

  function PollRequest(scope: string): Request {
    Request(scope, POST, "", "", false, 1.0, 250.0, false)
  }

  /** The request of poll number n. */
  function PollCall(scope: string, suffixes: nat -> Suffix, n: nat): Request {
    WithKey(PollRequest(scope), "auth-poll", suffixes(n))
  }

  lemma PollLimit(scope: string, suffixes: nat -> Suffix, n: nat)
    ensures Trim(PollRequest(scope).optionKey) == "" && MutationError(PollRequest(scope).verb, "auth-poll").None?
    ensures PollCall(scope, suffixes, n) == WithKey(PollRequest(scope), "auth-poll", suffixes(n))
    ensures PollCall(scope, suffixes, n).Limit() <= 2 && PollCall(scope, suffixes, n).scope == scope
  {
    assert Retries(1.0) == 1;
    TrimKeepsTrimmed("auth-poll");
    assert Trim("") == "" by { TrimKeepsTrimmed(""); }
  }

  /** What poll number n asks for: a POST with a fresh key, at most one retry, 250 ms as the first backoff. */
  lemma PollCallIs(scope: string, suffixes: nat -> Suffix, n: nat)
    ensures PollCall(scope, suffixes, n) == Request(scope, POST, "sl-cli-" + "auth-poll" + "-" + suffixes(n), "", false, 1.0, 250.0, false)
    ensures PollCall(scope, suffixes, n).Error().None?
  {
    hide *;
    PollLimit(scope, suffixes, n);
    BuiltKeyChecked(PollRequest(scope), "auth-poll", suffixes(n));
    PollKeyIs(suffixes(n));
    PollTrims();
    PollFields(scope, suffixes(n));
  }

  lemma PollFields(scope: string, suffix: Suffix)
    requires Trim("") == "" && Trim("auth-poll") == "auth-poll"
    ensures WithKey(PollRequest(scope), "auth-poll", suffix) ==
      Request(scope, POST, KeyForOperation("auth-poll", suffix), "", false, 1.0, 250.0, false)
  {
    hide KeyForOperation, Trim;
  }

  lemma PollKeyIs(suffix: Suffix)
    ensures KeyForOperation("auth-poll", suffix) == "sl-cli-" + "auth-poll" + "-" + suffix
  {
    AuthPollKept();
    hide SanitizeOperation;
  }

  lemma PollTrims()
    ensures Trim("") == "" && Trim("auth-poll") == "auth-poll"
  {
    TrimKeepsTrimmed("");
    TrimKeepsTrimmed("auth-poll");
  }

  lemma AuthPollKept()
    ensures SanitizeOperation("auth-poll") == "auth-poll"
  {
    var pieces := [("", "auth"), ("-", "poll")];
    SanitizedIsHyphenated(pieces, "");
    hide SanitizeOperation;
    assert pieces[1..] == [("-", "poll")] && pieces[1..][1..] == [];
    assert Hyphenated(pieces) == "auth-poll";
    assert Sentence(pieces, "") == "auth-poll";
  }

  function Exchanges(trace: seq<Event>): seq<Exchange> {
    if trace == [] then []
    else Exchanges(trace[..|trace| - 1]) + (if Last(trace).Polled? then [Last(trace).exchange] else [])
  }

  /** The number of clock readings taken by the end of an event. */
  function EndTick(e: Event): nat {
    match e
    case Polled(x, _, _) => x.ended
    case Absorbed(_) => 0
    case Slept(_, tick, _, _) => tick + 1
    case Denied(_, tick, _) => tick + 1
  }

  /** More than 250 ms were left, by the reading the event names, of the time that began at reading `begin`. */
  ghost predicate Measured(clock: nat -> int, p: Plan, begin: nat, end: nat, e: Event) {
    e.Absorbed? || (
      && begin < e.tick < EndTick(e) <= end && e.left > 250.0
      && e.left == clock(begin) as real + p.timeout - clock(e.tick) as real
      && (e.Polled? ==> e.tick < e.exchange.began))
  }

  /** Every reading was taken after everything that came before it. */
  ghost predicate Clocked(clock: nat -> int, p: Plan, begin: nat, end: nat, trace: seq<Event>) {
    && (forall i | 0 <= i < |trace| :: Measured(clock, p, begin, end, trace[i]))
    && (forall i, j | 0 <= i < j < |trace| && !trace[j].Absorbed? :: EndTick(trace[i]) <= trace[j].tick)
  }

  ghost predicate AreCalls(scope: string, suffixes: nat -> Suffix, es: seq<Exchange>) {
    forall n | 0 <= n < |es| :: es[n].request == PollCall(scope, suffixes, n)
  }

  /** What does not change during a wait; `before` is the client as the wait found it. */
  datatype Wait = Wait(
    client: Client, scope: string, suffixes: nat -> Suffix, jitter: nat -> real, plan: Plan, before: State)

  /**
   The trace is what the client did since the wait began: its polls are all the calls that were made,
   and its times are readings of the client's clock against the deadline set by the first one.
   */
  ghost predicate Happened(w: Wait, now: State, trace: seq<Event>) {
    && w.client.Exchanged(w.scope, w.before, now, Exchanges(trace))
    && AreCalls(w.scope, w.suffixes, Exchanges(trace)) && |Exchanges(trace)| == Polls(trace)
    && w.before.ticks < now.ticks
    && Clocked(w.client.clock, w.plan, w.before.ticks, now.ticks, trace)
    && now.sent <= w.before.sent + 2 * Polls(trace)
  }

  /** The last thing that happened was a reading of the clock, after all the trace tells of. */
  ghost predicate JustRead(w: Wait, now: State, trace: seq<Event>, time: int) {
    && w.before.ticks + 1 < now.ticks && time == w.client.clock(now.ticks - 1)
    && forall i | 0 <= i < |trace| :: EndTick(trace[i]) <= now.ticks - 1
  }

  function Left(w: Wait, time: int): real {
    w.client.clock(w.before.ticks) as real + w.plan.timeout - time as real
  }

  /** No more than 250 ms were left by the last reading of the clock. */
  ghost predicate TimeIsUp(w: Wait, now: State) {
    now.ticks > 0 && Left(w, w.client.clock(now.ticks - 1)) <= 250.0
  }

  /** What holds at every point of the loop. */
  ghost predicate Stands(w: Wait, now: State, trace: seq<Event>, phase: Phase, used: Used) {
    Happened(w, now, trace) && At(w.plan, w.jitter, trace, phase, used)
  }

  lemma Parts(w: Wait, now: State, trace: seq<Event>) returns (es: seq<Exchange>)
    requires Happened(w, now, trace)
    ensures es == Exchanges(trace) && w.client.Exchanged(w.scope, w.before, now, es)
    ensures AreCalls(w.scope, w.suffixes, es) && |es| == Polls(trace) && w.before.ticks < now.ticks
    ensures Clocked(w.client.clock, w.plan, w.before.ticks, now.ticks, trace) && now.sent <= w.before.sent + 2 * Polls(trace)
  {
    hide Client.Exchanged, AreCalls, Clocked, Polls, Exchanges;
    es := Exchanges(trace);
  }

  lemma Whole(w: Wait, now: State, trace: seq<Event>)
    requires w.client.Exchanged(w.scope, w.before, now, Exchanges(trace))
    requires AreCalls(w.scope, w.suffixes, Exchanges(trace)) && |Exchanges(trace)| == Polls(trace) && w.before.ticks < now.ticks
    requires Clocked(w.client.clock, w.plan, w.before.ticks, now.ticks, trace) && now.sent <= w.before.sent + 2 * Polls(trace)
    ensures Happened(w, now, trace)
  {
    hide Client.Exchanged, AreCalls, Clocked, Polls, Exchanges;
  }

  lemma NothingHappened(w: Wait, now: State)
    requires now == w.before.(ticks := w.before.ticks + 1)
    requires w.plan.maxAttempts >= 0 && w.plan.transientBudget >= 0 && w.plan.sleepBudget >= 0
    ensures Stands(w, now, [], BetweenPolls, Used(0, 0, 0.0, 0, 0))
  {
    hide At, Client.Exchanged;
    w.client.NothingExchanged(w.scope, w.before);
    w.client.ExchangedTick(w.scope, w.before, w.before, now, []);
    NothingYet(w.plan, w.jitter);
  }

  /** The clock has been read once more. */
  lemma ClockRead(w: Wait, mid: State, now: State, trace: seq<Event>)
    requires Happened(w, mid, trace) && now == mid.(ticks := mid.ticks + 1)
    ensures Happened(w, now, trace) && JustRead(w, now, trace, w.client.clock(mid.ticks))
  {
    var es := Parts(w, mid, trace);
    w.client.ExchangedTick(w.scope, w.before, mid, now, es);
    hide Exchanges, EndTick, Polls, AreCalls, Clocked, Client.Exchanged, Happened;
    ClockedBy(w.client.clock, w.plan, w.before.ticks, mid.ticks, trace);
    LaterClocked(w.client.clock, w.plan, w.before.ticks, mid.ticks, now.ticks, trace);
    Whole(w, now, trace);
  }

  lemma LaterClocked(clock: nat -> int, p: Plan, begin: nat, end: nat, later: nat, trace: seq<Event>)
    requires Clocked(clock, p, begin, end, trace) && end <= later
    ensures Clocked(clock, p, begin, later, trace)
  {
    hide EndTick;
  }

  lemma ClockedOneMore(clock: nat -> int, p: Plan, begin: nat, end: nat, trace: seq<Event>, e: Event)
    requires Clocked(clock, p, begin, end, trace)
    requires e.Absorbed? || (Measured(clock, p, begin, end, e) && forall i | 0 <= i < |trace| :: EndTick(trace[i]) <= e.tick)
    ensures Clocked(clock, p, begin, end, trace + [e])
  {
    hide EndTick, Measured;
    var t := trace + [e];
    forall i | 0 <= i < |t| ensures Measured(clock, p, begin, end, t[i]) {
      if i == |trace| && e.Absorbed? {
        AbsorbedMeasured(clock, p, begin, end, e);
      }
    }
    forall i, j | 0 <= i < j < |t| && !t[j].Absorbed? ensures EndTick(t[i]) <= t[j].tick {
      assert t[i] == trace[i] && (j < |trace| ==> t[j] == trace[j]);
    }
  }

  lemma AbsorbedMeasured(clock: nat -> int, p: Plan, begin: nat, end: nat, e: Event)
    requires e.Absorbed?
    ensures Measured(clock, p, begin, end, e)
  {
  }

  /** All events had ended by then. */
  lemma ClockedBy(clock: nat -> int, p: Plan, begin: nat, end: nat, trace: seq<Event>)
    requires Clocked(clock, p, begin, end, trace)
    ensures forall i | 0 <= i < |trace| :: EndTick(trace[i]) <= end
  {
    forall i | 0 <= i < |trace| ensures EndTick(trace[i]) <= end {
      assert Measured(clock, p, begin, end, trace[i]);
    }
  }

  lemma ExchangesOneMore(trace: seq<Event>, e: Event)
    ensures Exchanges(trace + [e]) == Exchanges(trace) + if e.Polled? then [e.exchange] else []
    ensures Polls(trace + [e]) == Polls(trace) + if e.Polled? then 1 else 0
  {
    assert (trace + [e])[..|trace|] == trace;
  }

  /** A poll, begun right after a reading of the clock. */
  lemma PollHappened(w: Wait, mid: State, now: State, trace: seq<Event>, time: int, e: Event)
    requires Happened(w, mid, trace) && JustRead(w, mid, trace, time) && Left(w, time) > 250.0
    requires e.Polled? && e.tick + 1 == mid.ticks && e.left == Left(w, time)
    requires w.client.Took(mid, now, e.exchange) && e.exchange.request == PollCall(w.scope, w.suffixes, Polls(trace))
    ensures Happened(w, now, trace + [e])
  {
    hide *;
    var es := Parts(w, mid, trace);
    AtMostLimit(w.client, mid, now, e.exchange);
    PollClocked(w, mid, now, trace, time, e);
    PollExchanged(w, mid, now, trace, e);
    Whole(w, now, trace + [e]);
  }

  lemma PollClocked(w: Wait, mid: State, now: State, trace: seq<Event>, time: int, e: Event)
    requires Clocked(w.client.clock, w.plan, w.before.ticks, mid.ticks, trace) && JustRead(w, mid, trace, time) && Left(w, time) > 250.0
    requires e.Polled? && e.tick + 1 == mid.ticks && e.left == Left(w, time)
    requires mid.ticks <= e.exchange.began < e.exchange.ended == now.ticks
    ensures Clocked(w.client.clock, w.plan, w.before.ticks, now.ticks, trace + [e])
  {
    hide *;
    ReadMeans(w, mid, trace, time, e.tick);
    PollMeasured(w.client.clock, w.plan, w.before.ticks, now.ticks, e);
    LaterClocked(w.client.clock, w.plan, w.before.ticks, mid.ticks, now.ticks, trace);
    ClockedOneMore(w.client.clock, w.plan, w.before.ticks, now.ticks, trace, e);
  }

  lemma PollExchanged(w: Wait, mid: State, now: State, trace: seq<Event>, e: Event)
    requires w.client.Exchanged(w.scope, w.before, mid, Exchanges(trace)) && AreCalls(w.scope, w.suffixes, Exchanges(trace))
    requires |Exchanges(trace)| == Polls(trace) && mid.sent <= w.before.sent + 2 * Polls(trace)
    requires e.Polled? && w.client.Took(mid, now, e.exchange) && e.exchange.request == PollCall(w.scope, w.suffixes, Polls(trace))
    ensures w.client.Exchanged(w.scope, w.before, now, Exchanges(trace + [e])) && AreCalls(w.scope, w.suffixes, Exchanges(trace + [e]))
    ensures |Exchanges(trace + [e])| == Polls(trace + [e]) && now.sent <= w.before.sent + 2 * Polls(trace + [e])
  {
    hide *;
    ExchangesOneMore(trace, e);
    PollLimit(w.scope, w.suffixes, Polls(trace));
    AtMostLimit(w.client, mid, now, e.exchange);
    w.client.ExchangedMore(w.scope, w.before, mid, now, Exchanges(trace), e.exchange);
    CallsOneMore(w.scope, w.suffixes, Exchanges(trace), e.exchange);
  }

  lemma ReadMeans(w: Wait, now: State, trace: seq<Event>, time: int, tick: nat)
    requires JustRead(w, now, trace, time) && tick + 1 == now.ticks
    ensures w.before.ticks < tick && forall i | 0 <= i < |trace| :: EndTick(trace[i]) <= tick
    ensures Left(w, time) == w.client.clock(w.before.ticks) as real + w.plan.timeout - w.client.clock(tick) as real
  {
    hide EndTick;
  }

  lemma AtMostLimit(client: Client, before: State, after: State, e: Exchange)
    requires client.Took(before, after, e)
    ensures after.sent <= before.sent + e.request.Limit() && e.began < e.ended == after.ticks && before.ticks <= e.began
  {
    hide SendLimit, CheckedKey, Outcome, VerdictOf;
  }

  lemma PollMeasured(clock: nat -> int, p: Plan, begin: nat, end: nat, e: Event)
    requires e.Polled? && begin < e.tick < e.exchange.began < e.exchange.ended == end && e.left > 250.0
    requires e.left == clock(begin) as real + p.timeout - clock(e.tick) as real
    ensures Measured(clock, p, begin, end, e)
  {
  }

  lemma PauseMeasured(clock: nat -> int, p: Plan, begin: nat, end: nat, e: Event)
    requires (e.Slept? || e.Denied?) && begin < e.tick && e.tick + 1 == end && e.left > 250.0
    requires e.left == clock(begin) as real + p.timeout - clock(e.tick) as real
    ensures Measured(clock, p, begin, end, e)
  {
  }

  lemma CallsOneMore(scope: string, suffixes: nat -> Suffix, es: seq<Exchange>, e: Exchange)
    requires AreCalls(scope, suffixes, es) && e.request == PollCall(scope, suffixes, |es|)
    ensures AreCalls(scope, suffixes, es + [e])
  {
    hide PollCall;
  }

  /** A pause, planned right after a reading of the clock, or an error taken in. */
  lemma OtherHappened(w: Wait, now: State, trace: seq<Event>, time: int, e: Event)
    requires Happened(w, now, trace) && !e.Polled?
    requires e.Absorbed? || (
      JustRead(w, now, trace, time) && e.tick + 1 == now.ticks && e.left == Left(w, time) && e.left > 250.0)
    ensures Happened(w, now, trace + [e])
  {
    if !e.Absorbed? {
      ReadMeans(w, now, trace, time, e.tick);
      PauseMeasured(w.client.clock, w.plan, w.before.ticks, now.ticks, e);
    }
    hide *;
    var es := Parts(w, now, trace);
    ExchangesOneMore(trace, e);
    assert es + [] == es;
    ClockedOneMore(w.client.clock, w.plan, w.before.ticks, now.ticks, trace, e);
    Whole(w, now, trace + [e]);
  }

  /** No sleep reaches past the deadline. */
  lemma NoSleepPastDeadline(w: Wait, now: State, trace: seq<Event>, i: nat)
    requires Happened(w, now, trace) && WithinBudgets(w.plan, trace)
    requires i < |trace| && trace[i].Slept?
    ensures w.client.clock(trace[i].tick) as real + trace[i].ms <= w.client.clock(w.before.ticks) as real + w.plan.timeout
  {
    var es := Parts(w, now, trace);
    hide Happened, Client.Exchanged, Polls, TransientUsed, ErrorSleep, InOrder;
    assert Measured(w.client.clock, w.plan, w.before.ticks, now.ticks, trace[i]);
  }

  // ---------------------------------------------------------------- the loop

  /** Taking in an error that the budget allows. */
  lemma TakeIn(w: Wait, now: State, trace: seq<Event>, r: Result, used: Used, k: Kind)
    requires Stands(w, now, trace, JustPolled(r), used) && used.transient + Weight(k) <= w.plan.transientBudget
    requires r.Failure? && Classify(r.error) == Some(k)
    ensures Stands(w, now, trace + [Absorbed(k)], JustAbsorbed(r.error.retryAfter),
                   used.(transient := used.transient + Weight(k), errors := used.errors + 1))
  {
    hide Happened, At, Classify, Weight;
    AfterAbsorbed(w.plan, w.jitter, trace, r, used, k);
    OtherHappened(w, now, trace, 0, Absorbed(k));
  }

  /** The pause that is due at a reading of the clock. */
  function DuePause(w: Wait, phase: Phase, used: Used, left: real): (ms: real)
    requires left > 250.0
    ensures 250.0 <= ms <= left
  {
    Bounded(PollDelay(w.plan, used.errors, used.sleeps, w.jitter(used.sleeps), Hint(phase)), left)
  }

  lemma Pause(w: Wait, now: State, trace: seq<Event>, phase: Phase, used: Used, time: int, e: Event)
    requires Stands(w, now, trace, phase, used) && MayPause(phase) && JustRead(w, now, trace, time) && Left(w, time) > 250.0
    requires var ms := DuePause(w, phase, used, Left(w, time));
      now.ticks > 0 && e == Slept(ms, now.ticks - 1, Left(w, time), phase.JustAbsorbed?)
    requires phase.JustAbsorbed? ==> used.slept + e.ms <= w.plan.sleepBudget as real
    ensures Stands(w, now, trace + [e], BetweenPolls,
                   used.(slept := used.slept + (if phase.JustAbsorbed? then e.ms else 0.0), sleeps := used.sleeps + 1))
  {
    hide Happened, At, JustRead, Left, PollDelay, Bounded;
    AfterSleep(w.plan, w.jitter, trace, phase, used, e.ms, e.tick, e.left);
    OtherHappened(w, now, trace, time, e);
  }

  lemma Deny(w: Wait, now: State, trace: seq<Event>, phase: Phase, used: Used, time: int, e: Event)
    requires Stands(w, now, trace, phase, used) && phase.JustAbsorbed? && JustRead(w, now, trace, time) && Left(w, time) > 250.0
    requires var ms := DuePause(w, phase, used, Left(w, time)); now.ticks > 0 && e == Denied(ms, now.ticks - 1, Left(w, time))
    requires used.slept + e.ms > w.plan.sleepBudget as real
    ensures Finished(w, now, trace + [e], SleepSpent)
  {
    hide Happened, At, JustRead, Left, PollDelay, Bounded, Kept, Because, TimeIsUp;
    AfterDenied(w.plan, w.jitter, trace, phase, used, e.ms, e.tick, e.left);
    OtherHappened(w, now, trace, time, e);
  }

  /** The wait is over, and the trace says why. */
  ghost predicate Finished(w: Wait, now: State, trace: seq<Event>, ending: Ending) {
    && Happened(w, now, trace) && Kept(w.plan, w.jitter, trace) && Because(w.plan, trace, ending)
    && (ending == TimedOut ==> TimeIsUp(w, now))
  }

  /** Out of time or of attempts: the endings that need no last event. */
  lemma GiveUp(w: Wait, now: State, trace: seq<Event>, phase: Phase, used: Used, time: int)
    requires Stands(w, now, trace, phase, used) && JustRead(w, now, trace, time) && (phase.BetweenPolls? || MayPause(phase))
    ensures Left(w, time) <= 250.0 ==> Finished(w, now, trace, TimedOut)
    ensures used.polls == w.plan.maxAttempts && phase.BetweenPolls? ==> Finished(w, now, trace, AttemptsSpent)
  {
    hide Happened, At, Kept, Because, Left;
    Undecisive(w.plan, w.jitter, trace, phase, used);
  }

  /** What a poll comes to: an ending, an error beyond the budget, or the wait goes on. */
  lemma Polling(w: Wait, mid: State, now: State, trace: seq<Event>, used: Used, time: int, e: Event)
    requires Stands(w, mid, trace, BetweenPolls, used) && used.polls < w.plan.maxAttempts
    requires JustRead(w, mid, trace, time) && Left(w, time) > 250.0
    requires e.Polled? && e.tick + 1 == mid.ticks && e.left == Left(w, time)
    requires w.client.Took(mid, now, e.exchange) && e.exchange.request == PollCall(w.scope, w.suffixes, used.polls)
    ensures var r, t := e.exchange.result, trace + [e];
      && (Decides(r).Some? ==> Finished(w, now, t, Decides(r).value))
      && (Decides(r).None? ==> Stands(w, now, t, JustPolled(r), used.(polls := used.polls + 1)))
      && (r.Failure? && Decides(r).None? && used.transient + Weight(Classify(r.error).value) > w.plan.transientBudget ==>
            Finished(w, now, t, TransientSpent))
  {
    Undecisive(w.plan, w.jitter, trace, BetweenPolls, used);
    hide Happened, At, Kept, Because, Left, JustRead, TimeIsUp, Client.Took, PollCall, Decides, Classify, Weight;
    AfterPoll(w.plan, w.jitter, trace, used, e);
    PollHappened(w, mid, now, trace, time, e);
  }

  method PollCliAuthSession(
    client: Client, scope: string, timeoutMs: Option<real>, pollSeconds: real, jitter: nat -> real, suffixes: nat -> Suffix)
    returns (ending: Ending, trace: seq<Event>)
    requires client.Valid()
    modifies client
    ensures client.Valid()
    ensures BadTimeoutGiven(timeoutMs) ==> ending == BadTimeout && client.Snapshot() == old(client.Snapshot())
    ensures !BadTimeoutGiven(timeoutMs) ==>
      var p := MakePlan(timeoutMs.GetOr(DEFAULT_AUTH_TIMEOUT_MS), pollSeconds);
      Finished(Wait(client, scope, suffixes, jitter, p, old(client.Snapshot())), client.Snapshot(), trace, ending)
  {
    hide *;
    trace := [];
    if BadTimeoutGiven(timeoutMs) {
      return BadTimeout, trace;
    }
    TimeoutIsPositive(timeoutMs);
    var p := MakePlan(timeoutMs.GetOr(DEFAULT_AUTH_TIMEOUT_MS), pollSeconds);
    ghost var w := Wait(client, scope, suffixes, jitter, p, client.Snapshot());
    var pollAttempt, pollIterations, errors := 0, 0, 0;
    var transientUsed, slept := 0, 0.0;
    var start := StartClock(client, w);
    var deadline := start as real + p.timeout;
    while true
      invariant client.Valid() && 0 <= pollIterations <= p.maxAttempts
      invariant Stands(w, client.Snapshot(), trace, BetweenPolls, Used(pollIterations, transientUsed, slept, errors, pollAttempt))
      decreases p.maxAttempts - pollIterations
    {
      ghost var used := Used(pollIterations, transientUsed, slept, errors, pollAttempt);
      var now, tick := ReadClock(client, w, trace, BetweenPolls, used);
      LeftIs(w, start, now);
      if now as real >= deadline {
        break;
      }
      now, tick := ReadClock(client, w, trace, BetweenPolls, used);
      LeftIs(w, start, now);
      var left := deadline - now as real;
      if left <= 250.0 {
        break;
      }
      if pollIterations + 1 > p.maxAttempts {
        return AttemptsSpent, trace;
      }
      var poll := Poll(client, w, trace, used, now, scope, suffixes, pollIterations, tick, left);
      pollIterations := pollIterations + 1;
      used := used.(polls := pollIterations);
      trace := trace + [poll];
      var result := poll.exchange.result;
      var decided := Decides(result);
      if decided.Some? {
        return decided.value, trace;
      }
      ghost var phase := JustPolled(result);
      var failed, retryAfter := result.Failure?, None;
      if failed {
        var kind := Classify(result.error).value;
        if transientUsed + Weight(kind) > p.transientBudget {
          return TransientSpent, trace;
        }
        TakeIn(w, client.Snapshot(), trace, result, used, kind);
        transientUsed := transientUsed + Weight(kind);
        errors := errors + 1;
        used := used.(transient := transientUsed, errors := errors);
        trace := trace + [Absorbed(kind)];
        retryAfter := result.error.retryAfter;
        phase := JustAbsorbed(retryAfter);
      }
      PauseFollows(w, phase, failed, retryAfter, used);
      var delay := PollDelay(p, errors, pollAttempt, jitter(pollAttempt), retryAfter);
      now, tick := ReadClock(client, w, trace, phase, used);
      LeftIs(w, start, now);
      left := deadline - now as real;
      if left <= 250.0 {
        break;
      }
      var ms := Bounded(delay, left);
      if failed {
        if slept + ms > p.sleepBudget as real {
          Deny(w, client.Snapshot(), trace, phase, used, now, Denied(ms, tick, left));
          trace := trace + [Denied(ms, tick, left)];
          return SleepSpent, trace;
        }
        slept := slept + ms;
      }
      Pause(w, client.Snapshot(), trace, phase, used, now, Slept(ms, tick, left, failed));
      pollAttempt := pollAttempt + 1;
      trace := trace + [Slept(ms, tick, left, failed)];
    }
    ending := TimedOut;
  }

  lemma LeftIs(w: Wait, start: int, time: int)
    requires start == w.client.clock(w.before.ticks)
    ensures Left(w, time) == start as real + w.plan.timeout - time as real
  {
  }

  /** The first Date.now(), from which the deadline is set. */
  method StartClock(client: Client, ghost w: Wait) returns (start: int)
    requires client.Valid() && w.client == client && w.before == client.Snapshot()
    requires w.plan.maxAttempts >= 0 && w.plan.transientBudget >= 0 && w.plan.sleepBudget >= 0
    modifies client
    ensures client.Valid() && Stands(w, client.Snapshot(), [], BetweenPolls, Used(0, 0, 0.0, 0, 0))
    ensures start == client.clock(w.before.ticks)
  {
    hide Stands, Agrees;
    start := client.Now();
    NothingHappened(w, client.Snapshot());
  }

  /** Date.now(); `tick` is the number of the reading. */
  method ReadClock(client: Client, ghost w: Wait, ghost trace: seq<Event>, ghost phase: Phase, ghost used: Used)
    returns (now: int, tick: nat)
    requires client.Valid() && w.client == client && Stands(w, client.Snapshot(), trace, phase, used)
    requires phase.BetweenPolls? || MayPause(phase)
    modifies client
    ensures client.Valid() && Stands(w, client.Snapshot(), trace, phase, used)
    ensures JustRead(w, client.Snapshot(), trace, now) && tick + 1 == client.Snapshot().ticks
    ensures Left(w, now) <= 250.0 ==> Finished(w, client.Snapshot(), trace, TimedOut)
    ensures used.polls == w.plan.maxAttempts && phase.BetweenPolls? ==> Finished(w, client.Snapshot(), trace, AttemptsSpent)
  {
    hide Happened, At, JustRead, Left, Finished, Agrees;
    ghost var mid := client.Snapshot();
    now := client.Now();
    tick := client.ticks - 1;
    ClockRead(w, mid, client.Snapshot(), trace);
    GiveUp(w, client.Snapshot(), trace, phase, used, now);
  }

  /** One poll, right after a reading of the clock: at most two sends, whatever the network does. */
  method Poll(
    client: Client, ghost w: Wait, ghost trace: seq<Event>, ghost used: Used, ghost time: int,
    scope: string, suffixes: nat -> Suffix, n: nat, tick: nat, left: real) returns (e: Event)
    requires client.Valid() && w.client == client && w.scope == scope && w.suffixes == suffixes
    requires Stands(w, client.Snapshot(), trace, BetweenPolls, used) && used.polls == n < w.plan.maxAttempts
    requires JustRead(w, client.Snapshot(), trace, time) && left == Left(w, time) && left > 250.0 && tick + 1 == client.Snapshot().ticks
    modifies client
    ensures client.Valid() && e.Polled? && client.Took(old(client.Snapshot()), client.Snapshot(), e.exchange)
    ensures client.Snapshot().sent <= old(client.Snapshot()).sent + 2
    ensures var r, t := e.exchange.result, trace + [e];
      && (Decides(r).Some? ==> Finished(w, client.Snapshot(), t, Decides(r).value))
      && (Decides(r).None? ==> Stands(w, client.Snapshot(), t, JustPolled(r), used.(polls := used.polls + 1)))
      && (r.Failure? && Decides(r).None? && used.transient + Weight(Classify(r.error).value) > w.plan.transientBudget ==>
            Finished(w, client.Snapshot(), t, TransientSpent))
  {
    hide *;
    PollLimit(scope, suffixes, n);
    ghost var mid := client.Snapshot();
    var exchange := client.RequestJsonMutation(PollRequest(scope), "auth-poll", suffixes(n));
    e := Polled(exchange, tick, left);
    PollIs(client, mid, client.Snapshot(), exchange, scope, suffixes, n);
    Polling(w, mid, client.Snapshot(), trace, used, time, e);
  }

  lemma PollIs(client: Client, before: State, after: State, e: Exchange, scope: string, suffixes: nat -> Suffix, n: nat)
    requires client.Took(before, after, e) && e.request == PollCall(scope, suffixes, n)
    ensures after.sent <= before.sent + 2
  {
    hide PollCall;
    AtMostLimit(client, before, after, e);
    PollLimit(scope, suffixes, n);
  }

  lemma PauseFollows(w: Wait, phase: Phase, failed: bool, retryAfter: Option<nat>, used: Used)
    requires if failed then phase == JustAbsorbed(retryAfter) else phase.JustPolled? && !phase.result.Failure? && retryAfter.None?
    ensures MayPause(phase) && phase.JustAbsorbed? == failed
    ensures forall left | left > 250.0 ::
      DuePause(w, phase, used, left) == Bounded(PollDelay(w.plan, used.errors, used.sleeps, w.jitter(used.sleeps), retryAfter), left)
  {
  }

  lemma TimeoutIsPositive(timeoutMs: Option<real>)
    requires !BadTimeoutGiven(timeoutMs)
    ensures timeoutMs.GetOr(DEFAULT_AUTH_TIMEOUT_MS) > 0.0
  {
  }

  // ---------------------------------------------------------------- the ending, by the fields of the last reply

  function LastReply(trace: seq<Event>): Option<Result> {
    if trace != [] && Last(trace).Polled? then Some(Last(trace).exchange.result) else None
  }

  /** The reply's status, without white space around it and in whatever case. */
  predicate Says(fields: map<string, string>, status: string) {
    "status" in fields && Lower(Trim(fields["status"])) == status
  }

  predicate CarriesToken(fields: map<string, string>) {
    "auth_token" in fields && fields["auth_token"] != ""
  }

  /** A wait ends Approved, Rejected, Expired or with an error of its own exactly when its last reply says so. */
  lemma EndingIsLastReplys(w: Wait, now: State, trace: seq<Event>, ending: Ending)
    requires Finished(w, now, trace, ending)
    ensures forall f :: ending == Approved(f) <==> LastReply(trace) == Some(Success(JObject(f))) && Says(f, "approved") && CarriesToken(f)
    ensures ending == Rejected <==>
      exists f :: LastReply(trace) == Some(Success(JObject(f))) && (Says(f, "rejected") || Says(f, "denied") || Says(f, "cancelled"))
    ensures ending == Expired <==> exists f :: LastReply(trace) == Some(Success(JObject(f))) && Says(f, "expired")
    ensures ending == NullPayload <==> LastReply(trace) == Some(Success(JNull))
    ensures ending == PassedRefusal <==> LastReply(trace) == Some(Refused)
    ensures forall e :: ending == Passed(e) <==>
      && LastReply(trace) == Some(Failure(e))
      && e.status != 429 && e.status < 500 && e.code != "NETWORK_ERROR" && e.code != "TIMEOUT"
  {
    hide Happened, Kept, Polls, TransientUsed, ErrorSleep;
    LastReplyDecides(w.plan, trace, ending);
    if LastReply(trace).Some? {
      DecidesByFields(LastReply(trace).value);
    }
  }

  /** The last reply decides, when it is one that decides, and nothing else ends the wait in its name. */
  lemma LastReplyDecides(p: Plan, trace: seq<Event>, ending: Ending)
    requires Because(p, trace, ending)
    ensures LastReply(trace).Some? && Decides(LastReply(trace).value).Some? ==> Decides(LastReply(trace).value) == Some(ending)
    ensures LastReply(trace).None? || Decides(LastReply(trace).value).None? ==> BudgetEnding(ending)
  {
    hide Decides, Polls, TransientUsed, ErrorSleep, Weight, Classify;
    if LastReply(trace).Some? && Decides(LastReply(trace).value).Some? {
      assert !Undecided(trace) by {
        assert trace[|trace| - 1].Polled?;
      }
    }
  }

  lemma DecidesByFields(r: Result)
    ensures forall f :: Decides(r) == Some(Approved(f)) <==> r == Success(JObject(f)) && Says(f, "approved") && CarriesToken(f)
    ensures Decides(r) == Some(Rejected) <==>
      exists f :: r == Success(JObject(f)) && (Says(f, "rejected") || Says(f, "denied") || Says(f, "cancelled"))
    ensures Decides(r) == Some(Expired) <==> exists f :: r == Success(JObject(f)) && Says(f, "expired")
    ensures Decides(r) == Some(NullPayload) <==> r == Success(JNull)
    ensures Decides(r) == Some(PassedRefusal) <==> r == Refused
    ensures forall e :: Decides(r) == Some(Passed(e)) <==>
      && r == Failure(e) && e.status != 429 && e.status < 500 && e.code != "NETWORK_ERROR" && e.code != "TIMEOUT"
  {
    StatusesDiffer();
    hide Lower;
    match r
    case Success(JObject(f)) =>
      assert r == Success(JObject(f));
      if "status" !in f {
        TrimKeepsTrimmed("");
        LowerOfEmpty();
      }
    case _ =>
  }

  lemma LowerOfEmpty()
    ensures Lower("") == ""
  {
  }

  lemma StatusesDiffer()
    ensures "approved" != "rejected" && "approved" != "denied" && "approved" != "cancelled" && "approved" != "expired"
    ensures "rejected" != "expired" && "denied" != "expired" && "cancelled" != "expired"
  {
    assert "approved"[0] == 'a' && "rejected"[0] == 'r' && "expired"[0] == 'e' && "denied"[0] == 'd' && "cancelled"[0] == 'c';
  }

  /** Any other object, with a status that ends nothing or an approval without a token. */
  predicate KeepsWaiting(r: Result) {
    r.Success? && (r.json.JOther? || (r.json.JObject?
      && !Says(r.json.fields, "rejected") && !Says(r.json.fields, "denied") && !Says(r.json.fields, "cancelled")
      && !Says(r.json.fields, "expired") && !(Says(r.json.fields, "approved") && CarriesToken(r.json.fields))))
  }

  /** Such a reply, a pending one for instance, is followed by a pause, or time runs out on it. */
  lemma OtherRepliesKeepWaiting(w: Wait, now: State, trace: seq<Event>, ending: Ending, i: nat)
    requires Finished(w, now, trace, ending)
    requires i < |trace| && trace[i].Polled? && KeepsWaiting(trace[i].exchange.result)
    ensures if i + 1 < |trace| then trace[i + 1].Slept? && !trace[i + 1].afterError else ending == TimedOut
  {
    hide Happened, Polls, TransientUsed, ErrorSleep;
    if i + 1 < |trace| {
      assert Follows(trace[i], trace[i + 1]);
    } else {
      DecidesByFields(trace[i].exchange.result);
      LastReplyDecides(w.plan, trace, ending);
    }
  }

  /** An error of one of the three kinds is taken into the budget and followed by its pause, or it ends the wait by exceeding the budget. */
  lemma ErrorsCost(w: Wait, now: State, trace: seq<Event>, ending: Ending, i: nat)
    requires Finished(w, now, trace, ending)
    requires i < |trace| && trace[i].Polled? && trace[i].exchange.result.Failure?
    ensures var e := trace[i].exchange.result.error;
      && (i + 1 < |trace| ==>
            trace[i + 1] == Absorbed(if e.status == 429 then RateLimit else if e.status >= 500 then Server else Network))
      && (i + 1 == |trace| ==> ending == TransientSpent || ending == Passed(e))
  {
    hide Happened, Polls, TransientUsed, ErrorSleep;
    if i + 1 < |trace| {
      assert Follows(trace[i], trace[i + 1]);
    } else {
      LastReplyDecides(w.plan, trace, ending);
    }
  }

  /**
   Every pause fits the time left. After an error it is what the server wished for, when that lies
   between two seconds and the longest pause; otherwise it is no longer than two seconds or the
   longest pause with its jitter, whichever is more.
   */
  lemma PausesAreDue(w: Wait, now: State, trace: seq<Event>, ending: Ending, i: nat)
    requires Finished(w, now, trace, ending) && w.plan.pollMs > 0 && w.plan.maxPollMs > 0
    requires forall n :: 0.85 <= w.jitter(n) <= 1.15
    requires i < |trace| && trace[i].Slept?
    ensures 250.0 <= trace[i].ms <= trace[i].left
    ensures !trace[i].afterError ==> trace[i].ms <= 2000.0 || trace[i].ms <= 1.15 * w.plan.maxPollMs as real + 0.5
    ensures trace[i].afterError ==>
      && i > 1 && trace[i - 2].Polled? && trace[i - 2].exchange.result.Failure?
      && var wish := trace[i - 2].exchange.result.error.retryAfter;
      && (wish.Some? && 2000 <= wish.value <= w.plan.maxPollMs ==>
            trace[i].ms == if wish.value as real <= trace[i].left then wish.value as real else trace[i].left)
      && (wish.None? ==> trace[i].ms <= 2000.0 || trace[i].ms <= 1.15 * w.plan.maxPollMs as real + 0.5)
  {
    hide Happened, Polls, TransientUsed, ErrorSleep, Because, Errors, Sleeps, PollDelay, Times;
    assert Follows(trace[i - 1], trace[i]);
    var errors, n := Errors(trace[..i]), Sleeps(trace[..i]);
    if trace[i].afterError {
      assert Follows(trace[i - 2], trace[i - 1]);
      assert trace[..i][i - 2] == trace[i - 2];
      var wish := trace[i - 2].exchange.result.error.retryAfter;
      if wish.Some? {
        PauseFollowsServer(w.plan, errors, n, w.jitter(n), wish.value);
      }
    }
    assert trace[..i][i - 1] == trace[i - 1];
    PauseWithinLongest(w.plan, errors, n, w.jitter(n));
  }

  /** The budgets in numbers: three for a rate limit, two for a server error, one for a network error. */
  lemma BudgetsInNumbers(w: Wait, now: State, trace: seq<Event>, ending: Ending)
    requires Finished(w, now, trace, ending)
    ensures var used := 3 * Count(trace, RateLimit) + 2 * Count(trace, Server) + Count(trace, Network);
      && used <= w.plan.transientBudget
      && (ending == TransientSpent ==>
            && trace != [] && trace[|trace| - 1].Polled? && trace[|trace| - 1].exchange.result.Failure?
            && var status := trace[|trace| - 1].exchange.result.error.status;
            used + (if status == 429 then 3 else if status >= 500 then 2 else 1) > w.plan.transientBudget)
    ensures ErrorSleep(trace) <= w.plan.sleepBudget as real
    ensures ending == SleepSpent ==>
      trace != [] && trace[|trace| - 1].Denied? && ErrorSleep(trace) + trace[|trace| - 1].ms > w.plan.sleepBudget as real
  {
    hide Happened, Polls, Count, ErrorSleep, Paced, InOrder, Undecided;
  }

  /** An approval that carries a token is returned exactly when a poll brought one, and no other ending hides it. */
  lemma ApprovedIff(p: Plan, trace: seq<Event>, ending: Ending, payload: map<string, string>)
    requires Because(p, trace, ending)
    ensures ending == Approved(payload) <==>
      exists i :: 0 <= i < |trace| && trace[i].Polled? && Decides(trace[i].exchange.result) == Some(Approved(payload))
  {
    forall i | 0 <= i < |trace| - 1 ensures trace[i] == trace[..|trace| - 1][i] {}
  }

  /**
   How a poll's last reply is weighed. A dropped connection is reported with status 503, so it
   counts as a server error; the third kind is for time-outs and for replies of a lower status whose
   own error code is one of the two names.
   */
  lemma PollErrorKinds(w: Wire, allowEmptyBody: bool)
    ensures KindOf(w, allowEmptyBody) == Some(RateLimit) <==> w.Response? && w.status == 429
    ensures KindOf(w, allowEmptyBody) == Some(Server) <==> w.NetworkFailure? || (w.Response? && w.status >= 500)
    ensures KindOf(w, allowEmptyBody) == Some(Network) <==>
      || (w.Aborted? && (w.byTimeout || !w.saysCancel))
      || (w.Response? && !IsOk(w.status) && w.status < 500 && w.status != 429 && (w.code == "NETWORK_ERROR" || w.code == "TIMEOUT"))
  {
    assert |"EMPTY_BODY"| != |"NETWORK_ERROR"| && |"INVALID_CONTENT_TYPE"| != |"NETWORK_ERROR"|;
    assert |"INVALID_JSON"| != |"NETWORK_ERROR"| && |"CANCELLED"| != |"NETWORK_ERROR"|;
  }

  function KindOf(w: Wire, allowEmptyBody: bool): Option<Kind> {
    var r := Outcome(w, allowEmptyBody);
    if r.Failure? then Classify(r.error) else None
  }
}
