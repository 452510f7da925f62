/** The per-origin circuit breaker and its disk copy (src/auth/http.js). */
module Breaker {
  const CIRCUIT_BREAKER_THRESHOLD := 5
  const CIRCUIT_BREAKER_COOLDOWN_MS := 30000

  type Scope = string

  /** openedAt is 0 while the breaker is closed. */
  datatype Circuit = Circuit(failures: int, openedAt: int)

  const CLOSED := Circuit(0, 0)

  type Circuits = map<Scope, Circuit>

  function Lookup(circuits: Circuits, scope: Scope): Circuit {
    if scope in circuits then circuits[scope] else CLOSED
  }

  /** isCircuitOpen's answer. */
  predicate OpenAt(c: Circuit, now: int) {
    c.openedAt > 0 && now - c.openedAt < CIRCUIT_BREAKER_COOLDOWN_MS
  }

  /** isCircuitOpen's effect: an open breaker whose cooldown is over is closed again. */
  function Expire(c: Circuit, now: int): Circuit {
    if c.openedAt > 0 && now - c.openedAt >= CIRCUIT_BREAKER_COOLDOWN_MS then CLOSED else c
  }

  /** recordFailureForCircuit */
  function Fail(c: Circuit, now: int): Circuit {
    Circuit(c.failures + 1, if c.failures + 1 >= CIRCUIT_BREAKER_THRESHOLD then now else c.openedAt)
  }

  /** What the last reply of a call means to the breaker. */
  datatype Verdict = Tracked | Clears | Neutral

  /** One requestJson call: when it asked the breaker, when it ended, how. */
  datatype Call = Call(begin: int, end: int, verdict: Verdict)

  function After(c: Circuit, call: Call): Circuit {
    var c1 := Expire(c, call.begin);
    if OpenAt(c1, call.begin) then c1
    else
      match call.verdict
      case Tracked => Fail(c1, call.end)
      case Clears => CLOSED
      case Neutral => c1
  }

  /** The breaker of one origin after a run of calls, one after the other, from a fresh state. */
  function AfterRun(calls: seq<Call>): Circuit {
    if calls == [] then CLOSED else After(AfterRun(calls[..|calls| - 1]), calls[|calls| - 1])
  }

  // ---------------------------------------------------------------- what the count means

  function TrackedIn(calls: seq<Call>): nat {
    if calls == [] then 0
    else TrackedIn(calls[..|calls| - 1]) + (if calls[|calls| - 1].verdict.Tracked? then 1 else 0)
  }

  /** Counting may start at call `from`: at the beginning, after a success, or after a cooldown has run out. */
  ghost predicate CountsFrom(calls: seq<Call>, from: nat)
    requires from <= |calls|
  {
    || from == 0
    || calls[from - 1].verdict.Clears?
    || (from < |calls| && exists k :: 0 <= k < from && CooldownOver(calls, k, from))
  }

  /** The breaker opened at the end of call k; call `next` is the first to begin a cooldown later. */
  ghost predicate CooldownOver(calls: seq<Call>, k: nat, next: nat)
    requires k < next < |calls|
  {
    && calls[k].verdict.Tracked?
    && calls[next].begin - calls[k].end >= CIRCUIT_BREAKER_COOLDOWN_MS
    && AllWithinCooldown(calls, k, next)
  }

  ghost predicate AllWithinCooldown(calls: seq<Call>, k: nat, upto: nat)
    requires k < upto <= |calls|
  {
    forall j | k < j < upto :: calls[j].begin - calls[k].end < CIRCUIT_BREAKER_COOLDOWN_MS
  }

  /**
   The history behind a breaker state. Calls from..sent reached the server; the count is the number
   of tracked failures among them, none of them succeeded, and the count started at a legitimate
   place. The breaker is open exactly when the count is five, and then every call after the fifth
   failure began inside its cooldown and sent nothing.
   */
  ghost predicate Explains(calls: seq<Call>, c: Circuit, from: nat, sent: nat) {
    && from <= sent <= |calls|
    && CountsFrom(calls, from)
    && c.failures == TrackedIn(calls[from..sent])
    && (forall j | from <= j < sent :: !calls[j].verdict.Clears?)
    && 0 <= c.failures <= CIRCUIT_BREAKER_THRESHOLD
    && (c.openedAt > 0 <==> c.failures == CIRCUIT_BREAKER_THRESHOLD)
    && (c.failures < CIRCUIT_BREAKER_THRESHOLD ==> sent == |calls| && c.openedAt == 0)
    && (c.failures == CIRCUIT_BREAKER_THRESHOLD ==>
          && from < sent
          && calls[sent - 1].verdict.Tracked?
          && c.openedAt == calls[sent - 1].end
          && AllWithinCooldown(calls, sent - 1, |calls|))
  }

  /** Every breaker state has such a history. */
  lemma {:induction false} CountIsTrackedFailures(calls: seq<Call>) returns (from: nat, sent: nat)
    requires forall j | 0 <= j < |calls| :: calls[j].verdict.Tracked? ==> calls[j].end > 0
    ensures Explains(calls, AfterRun(calls), from, sent)
    decreases |calls|
  {
    if calls == [] {
      return 0, 0;
    }
    var front, last := calls[..|calls| - 1], calls[|calls| - 1];
    assert calls == front + [last];
    from, sent := CountIsTrackedFailures(front);
    var c := AfterRun(front);
    if OpenAt(c, last.begin) {
      RejectedCall(front, last, c, from, sent);
    } else if last.verdict.Clears? {
      from, sent := |calls|, |calls|;
    } else if c.openedAt > 0 {
      CallAfterCooldown(front, last, c, from, sent);
      from, sent := |front|, |calls|;
    } else {
      CountedCall(front, last, c, from);
      sent := |calls|;
    }
  }

  lemma RejectedCall(front: seq<Call>, last: Call, c: Circuit, from: nat, sent: nat)
    requires Explains(front, c, from, sent) && OpenAt(c, last.begin)
    ensures Explains(front + [last], After(c, last), from, sent)
  {
    var calls := front + [last];
    assert front[from..sent] == calls[from..sent];
    CountsFromExtends(front, last, from);
  }

  lemma CallAfterCooldown(front: seq<Call>, last: Call, c: Circuit, from: nat, sent: nat)
    requires Explains(front, c, from, sent) && c.openedAt > 0 && !OpenAt(c, last.begin)
    requires (last.verdict.Tracked? ==> last.end > 0) && !last.verdict.Clears?
    ensures Explains(front + [last], After(c, last), |front|, |front| + 1)
  {
    var calls := front + [last];
    assert AllWithinCooldown(front, sent - 1, |front|);
    assert CooldownOver(calls, sent - 1, |front|);
    assert calls[|front|..|front| + 1] == [last];
    assert TrackedIn([last][..0]) == 0;
  }

  lemma CountedCall(front: seq<Call>, last: Call, c: Circuit, from: nat)
    requires Explains(front, c, from, |front|) && c.openedAt <= 0
    requires (last.verdict.Tracked? ==> last.end > 0) && !last.verdict.Clears?
    ensures Explains(front + [last], After(c, last), from, |front| + 1)
  {
    var calls := front + [last];
    CountsFromExtends(front, last, from);
    assert front[from..|front|] == front[from..];
    TrackedOneMore(front[from..], last);
    assert calls[from..|front| + 1] == front[from..] + [last];
  }

  lemma TrackedOneMore(calls: seq<Call>, last: Call)
    ensures TrackedIn(calls + [last]) == TrackedIn(calls) + (if last.verdict.Tracked? then 1 else 0)
  {
    assert (calls + [last])[..|calls|] == calls;
  }

  lemma CountsFromExtends(front: seq<Call>, last: Call, from: nat)
    requires from <= |front| && CountsFrom(front, from)
    ensures CountsFrom(front + [last], from)
  {
    var calls := front + [last];
    if from > 0 && !front[from - 1].verdict.Clears? {
      var k :| 0 <= k < from && CooldownOver(front, k, from);
      assert CooldownOver(calls, k, from);
    }
  }

  /**
   After any run of calls from a fresh state the breaker refuses a call exactly when five of those
   sent since the right point have failed and the last of the five ended less than thirty seconds ago.
   */
  lemma OpenIff(calls: seq<Call>, now: int) returns (from: nat, sent: nat)
    requires forall j | 0 <= j < |calls| :: calls[j].verdict.Tracked? ==> calls[j].end > 0
    ensures Explains(calls, AfterRun(calls), from, sent)
    ensures OpenAt(AfterRun(calls), now) <==>
      TrackedIn(calls[from..sent]) == 5 && sent > 0 && now - calls[sent - 1].end < 30000
  {
    from, sent := CountIsTrackedFailures(calls);
  }

  // ---------------------------------------------------------------- the disk copy

  /** loadCircuitStateFromDisk: only entries still inside their cooldown are carried over. */
  function Load(disk: Circuits, now: int): Circuits {
    map scope | scope in disk && OpenAt(disk[scope], now) :: disk[scope]
  }

  /** A fresh process answers isCircuitOpen like the one that wrote the file, for every origin, from its loading on. */
  lemma FreshProcessAgrees(memory: Circuits, loadedAt: int, now: int, scope: Scope)
    requires loadedAt <= now
    ensures OpenAt(Lookup(Load(memory, loadedAt), scope), now) == OpenAt(Lookup(memory, scope), now)
  {
  }

  /**
   The count below the threshold does not survive, although the comment above the cache says it
   does: the loaded state of an origin is the writer's exactly when the breaker is open or closed
   with no failures.
   */
  lemma LoadedStateIff(memory: Circuits, loadedAt: int, scope: Scope)
    requires scope in memory ==> memory[scope].openedAt >= 0
    ensures Lookup(Load(memory, loadedAt), scope) == Expire(Lookup(memory, scope), loadedAt) <==>
      OpenAt(Lookup(memory, scope), loadedAt) || Expire(Lookup(memory, scope), loadedAt) == CLOSED
  {
  }

  /** Four failures in one process and one in the next leave the breaker closed; five in one process open it. */
  lemma RestartForgetsFailures(scope: Scope, t: int) returns (four: seq<Call>, fifth: Call)
    requires t > 0
    ensures |four| == 4 && forall c | c in four + [fifth] :: c.verdict.Tracked?
    ensures OpenAt(AfterRun(four + [fifth]), t)
    ensures !OpenAt(After(Lookup(Load(map[scope := AfterRun(four)], t), scope), fifth), t)
  {
    fifth := Call(t, t, Tracked);
    four := [fifth, fifth, fifth, fifth];
    assert four[..3] == [fifth, fifth, fifth];
    assert four[..3][..2] == [fifth, fifth];
    assert four[..2][..1] == [fifth];
    assert four[..1][..0] == [];
    assert AfterRun([fifth]) == Circuit(1, 0);
    assert AfterRun([fifth, fifth]) == Circuit(2, 0);
    assert AfterRun([fifth, fifth, fifth]) == Circuit(3, 0);
    assert AfterRun(four) == Circuit(4, 0);
    assert (four + [fifth])[..4] == four;
    assert AfterRun(four + [fifth]) == Circuit(5, t);
  }
}
