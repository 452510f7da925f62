/**
 Token rotation: issue, then persist, then revoke (src/auth/service.js).

 Any number of processes rotate the one stored session. Each atomic step (read the store, ask the
 server for a token, replace the stored document, ask the server to revoke) is one event, and an
 event may fail, lose the server's reply after the server acted, or end the process.
 */
module Rotation {
  import opened Text

  type Pid = nat

  /** A stored session; servers may leave out the id that revocation needs, and a usable expiry time. */
  datatype Session = Session(token: nat, hasId: bool, expiry: Option<int>)

  const DEFAULT_TOKEN_ROTATE_THRESHOLD_DAYS := 7.0
  const DAY_MS := 86400000.0

  /** isNearExpiry; without a number of days, and for zero, the default counts. */
  predicate NearExpiry(expiry: Option<int>, now: int, days: Option<real>) {
    var threshold := if days.None? || days.value == 0.0 then DEFAULT_TOKEN_ROTATE_THRESHOLD_DAYS else days.value;
    expiry.Some? && (expiry.value - now) as real <= threshold * DAY_MS
  }

  datatype Pc =
    | Idle
    | Read(session: Session)
    | Issued(session: Session, renewed: Session)
    | Persisted(session: Session, renewed: Session)
    | Handed(token: nat)
    | Crashed

  /** `next` numbers the server's tokens, `published` is every token that was ever stored. */
  datatype State = State(
    stored: Session,
    revoked: set<nat>,
    next: nat,
    published: set<nat>,
    procs: map<Pid, Pc>)

  /** What the server makes of a request: an answer, which for a new token brings its particulars, a refusal, or an answer that is lost. */
  datatype Reply = Answer(hasId: bool, expiry: Option<int>) | Refused | LostReply

  /** How one step goes: when and with which threshold it is taken and what comes of it, or the process ends. */
  datatype Choice = Proceed(now: int, days: Option<real>, reply: Reply) | Crash

  datatype Event = Event(pid: Pid, choice: Choice)

  predicate Active(pc: Pc) {
    pc.Read? || pc.Issued? || pc.Persisted?
  }

  function Step(s: State, e: Event): State {
    if e.pid !in s.procs then s
    else if e.choice.Crash? then Go(s, e.pid, Crashed)
    else
      match s.procs[e.pid]
      case Idle => Go(s, e.pid, Read(s.stored))
      case Read(prior) =>
        if NearExpiry(prior.expiry, e.choice.now, e.choice.days) then Issue(s, e.pid, prior, e.choice.reply)
        else Go(s, e.pid, Handed(prior.token))
      case Issued(prior, renewed) =>
        // writeStoredSession: one atomic replace, or a throw that leaves the store alone
        if e.choice.reply.Answer?
        then Go(s.(stored := renewed, published := s.published + {renewed.token}), e.pid, Persisted(prior, renewed))
        else Go(s, e.pid, Handed(prior.token))
      case Persisted(prior, renewed) =>
        // a failed revocation only leaves a warning; the server may have revoked all the same
        Go(if prior.hasId && !e.choice.reply.Refused? then s.(revoked := s.revoked + {prior.token}) else s, e.pid, Handed(renewed.token))
      case _ => s
  }

  function Issue(s: State, pid: Pid, prior: Session, reply: Reply): State {
    match reply
    case Answer(hasId, expiry) => Go(s.(next := s.next + 1), pid, Issued(prior, Session(s.next, hasId, expiry)))
    case LostReply => Go(s.(next := s.next + 1), pid, Handed(prior.token))
    case Refused => Go(s, pid, Handed(prior.token))
  }

  function Go(s: State, pid: Pid, pc: Pc): State {
    s.(procs := s.procs[pid := pc])
  }

  function Run(s: State, events: seq<Event>): State
    decreases |events|
  {
    if events == [] then s else Run(Step(s, events[0]), events[1..])
  }

  /** A live stored token, some tokens revoked earlier, and rotators that have not begun. */
  ghost predicate Start(s: State) {
    && s.stored.token !in s.revoked
    && s.published == s.revoked + {s.stored.token}
    && (forall t | t in s.published :: t < s.next)
    && (forall p | p in s.procs :: s.procs[p] == Idle)
  }

  /** What one rotator holds: a prior token that was stored once, a new one nobody else has. */
  ghost predicate PcInv(s: State, pc: Pc) {
    match pc
    case Read(prior) => prior.token in s.published
    case Issued(prior, renewed) => prior.token in s.published && renewed.token !in s.published && renewed.token < s.next
    case Persisted(prior, renewed) => prior.token in s.published && prior.token != s.stored.token
    case _ => true
  }

  ghost predicate Inv(s: State) {
    && s.stored.token in s.published
    && s.revoked <= s.published - {s.stored.token}
    && (forall t | t in s.published :: t < s.next)
    && (forall p | p in s.procs :: PcInv(s, s.procs[p]))
    && (forall p, q | p in s.procs && q in s.procs && s.procs[p].Issued? && s.procs[q].Issued? && p != q ::
          s.procs[p].renewed.token != s.procs[q].renewed.token)
  }

  lemma StepInv(s: State, e: Event)
    requires Inv(s)
    ensures Inv(Step(s, e))
  {
    var s' := Step(s, e);
    if e.pid in s.procs {
      assert PcInv(s, s.procs[e.pid]);
      forall p | p in s'.procs ensures PcInv(s', s'.procs[p]) {
        assert PcInv(s, s.procs[p]);
      }
    }
  }

  lemma {:induction false} RunInv(s: State, events: seq<Event>)
    requires Inv(s)
    ensures Inv(Run(s, events))
    decreases |events|
  {
    if events != [] {
      StepInv(s, events[0]);
      RunInv(Step(s, events[0]), events[1..]);
    }
  }

  /** However rotators interleave, fail and crash, the stored token is never a revoked one. */
  lemma StoredTokenIsLive(start: State, events: seq<Event>)
    requires Start(start)
    ensures var s := Run(start, events); s.stored.token !in s.revoked
  {
    RunInv(start, events);
  }

  /** A new token is asked for exactly when the old one has a known expiry within the threshold, seven days by default. */
  lemma RotatesIff(s: State, p: Pid, now: int, days: Option<real>, reply: Reply)
    requires p in s.procs && s.procs[p].Read?
    ensures var prior, s' := s.procs[p].session, Step(s, Event(p, Proceed(now, days, reply)));
      var threshold := if days.None? || days == Some(0.0) then 7.0 else days.value;
      var asks := prior.expiry.Some? && (prior.expiry.value - now) as real <= threshold * 24.0 * 60.0 * 60.0 * 1000.0;
      && (s'.next > s.next <==> asks && !reply.Refused?)
      && (s'.procs[p].Issued? <==> asks && reply.Answer?)
      && (!s'.procs[p].Issued? ==> s'.procs[p] == Handed(prior.token))
      && s'.stored == s.stored && s'.revoked == s.revoked
  {
  }

  /** What persisting and revoking come to. */
  lemma PersistsThenRevokes(s: State, p: Pid, now: int, days: Option<real>, reply: Reply)
    requires p in s.procs
    ensures var s' := Step(s, Event(p, Proceed(now, days, reply)));
      && (s.procs[p].Issued? ==> s'.stored == (if reply.Answer? then s.procs[p].renewed else s.stored) && s'.revoked == s.revoked)
      && (s.procs[p].Persisted? ==> s'.stored == s.stored && s'.procs[p] == Handed(s.procs[p].renewed.token))
      && (s.procs[p].Persisted? ==> s'.revoked == s.revoked + (if s.procs[p].session.hasId && !reply.Refused? then {s.procs[p].session.token} else {}))
  {
  }

  // ---------------------------------------------------------------- one rotator at a time

  /** Nobody else is between reading the store and handing out a credential. */
  ghost predicate Alone(s: State, pid: Pid) {
    forall p | p in s.procs && p != pid :: !Active(s.procs[p])
  }

  ghost predicate OneAtATime(s: State, events: seq<Event>)
    decreases |events|
  {
    events == [] || (Alone(s, events[0].pid) && OneAtATime(Step(s, events[0]), events[1..]))
  }

  ghost predicate SoloPc(s: State, pc: Pc) {
    match pc
    case Read(prior) => prior == s.stored
    case Issued(prior, renewed) => prior == s.stored
    case Persisted(prior, renewed) => renewed == s.stored
    case _ => true
  }

  ghost predicate SoloInv(s: State) {
    && Inv(s)
    && forall p | p in s.procs :: SoloPc(s, s.procs[p])
  }

  lemma StepSoloInv(s: State, e: Event)
    requires SoloInv(s) && Alone(s, e.pid)
    ensures SoloInv(Step(s, e))
  {
    StepInv(s, e);
    var s' := Step(s, e);
    if e.pid in s.procs {
      assert SoloPc(s, s.procs[e.pid]);
      forall p | p in s'.procs ensures SoloPc(s', s'.procs[p]) {
        assert SoloPc(s, s.procs[p]);
      }
    }
  }

  lemma {:induction false} RunSoloInv(s: State, events: seq<Event>)
    requires SoloInv(s) && OneAtATime(s, events)
    ensures SoloInv(Run(s, events))
    decreases |events|
  {
    if events != [] {
      StepSoloInv(s, events[0]);
      RunSoloInv(Step(s, events[0]), events[1..]);
    }
  }

  /**
   When rotations do not overlap, every credential handed to a command is the stored token at that
   moment, hence live, whether the rotation succeeded, was not needed, or failed part way.
   */
  lemma HandedTokenIsLive(start: State, events: seq<Event>, e: Event)
    requires Start(start) && OneAtATime(start, events) && Alone(Run(start, events), e.pid)
    requires var s := Run(start, events); e.pid in s.procs && Active(s.procs[e.pid])
    ensures var s' := Step(Run(start, events), e); s'.procs[e.pid].Handed? ==>
      && s'.procs[e.pid].token == s'.stored.token
      && s'.procs[e.pid].token !in s'.revoked
  {
    RunSoloInv(start, events);
    var s := Run(start, events);
    assert SoloPc(s, s.procs[e.pid]);
    StepSoloInv(s, e);
  }

  // ---------------------------------------------------------------- exactly when every handed token is live

  /** If the event hands a token to a command, that token is live at that moment. */
  ghost predicate HandsOutLive(start: State, events: seq<Event>, e: Event) {
    var s := Run(start, events);
    var s' := Step(s, e);
    e.pid in s.procs && Active(s.procs[e.pid]) && s'.procs[e.pid].Handed? ==> s'.procs[e.pid].token !in s'.revoked
  }

  /** Every token ever handed out is live exactly when there is no second rotator, or no expiry time to rotate by. */
  lemma HandedLiveIff(start: State)
    requires Start(start)
    ensures (forall events, e :: HandsOutLive(start, events, e)) <==> |start.procs| <= 1 || start.stored.expiry.None?
  {
    if |start.procs| <= 1 {
      forall events, e ensures HandsOutLive(start, events, e) {
        RunSingle(start, events);
        var s := Run(start, events);
        if e.pid in s.procs {
          StepSingle(s, e);
        }
      }
    } else if start.stored.expiry.None? {
      forall events, e ensures HandsOutLive(start, events, e) {
        RunNeverRotates(start, start, events);
        StepNeverRotates(start, Run(start, events), e);
      }
    } else {
      var p :| p in start.procs;
      assert |start.procs.Keys - {p}| == |start.procs| - 1;
      var q :| q in start.procs.Keys - {p};
      var events, e := OverlapHandsOutRevoked(start, p, q);
    }
  }

  /** Nothing but reading the one session and handing it out has happened. */
  ghost predicate Unrotated(start: State, s: State) {
    && s.stored == start.stored && s.revoked == start.revoked
    && forall p | p in s.procs :: UnrotatedPc(start, s.procs[p])
  }

  predicate UnrotatedPc(start: State, pc: Pc) {
    match pc
    case Read(prior) => prior == start.stored
    case Handed(token) => token == start.stored.token
    case Idle => true
    case Crashed => true
    case _ => false
  }

  lemma StepNeverRotates(start: State, s: State, e: Event)
    requires Unrotated(start, s) && start.stored.expiry.None? && start.stored.token !in start.revoked
    ensures Unrotated(start, Step(s, e))
    ensures e.pid in s.procs && Step(s, e).procs[e.pid].Handed? ==> Step(s, e).procs[e.pid].token !in Step(s, e).revoked
  {
    if e.pid in s.procs {
      assert UnrotatedPc(start, s.procs[e.pid]);
      forall p | p in s.procs ensures UnrotatedPc(start, Step(s, e).procs[p]) {
        assert UnrotatedPc(start, s.procs[p]);
      }
    }
  }

  lemma {:induction false} RunNeverRotates(start: State, s: State, events: seq<Event>)
    requires Unrotated(start, s) && start.stored.expiry.None? && start.stored.token !in start.revoked
    ensures Unrotated(start, Run(s, events))
    decreases |events|
  {
    hide Step, Unrotated;
    if events != [] {
      StepNeverRotates(start, s, events[0]);
      RunNeverRotates(start, Step(s, events[0]), events[1..]);
    }
  }

  lemma StepSingle(s: State, e: Event)
    requires SoloInv(s) && |s.procs| <= 1
    ensures SoloInv(Step(s, e)) && |Step(s, e).procs| <= 1
    ensures e.pid in s.procs && Active(s.procs[e.pid]) && Step(s, e).procs[e.pid].Handed? ==>
      Step(s, e).procs[e.pid].token == Step(s, e).stored.token
  {
    if e.pid in s.procs {
      forall p | p in s.procs ensures p == e.pid {
        if p != e.pid {
          TwoKeys(s.procs, p, e.pid);
        }
      }
      StepSoloInv(s, e);
      assert SoloPc(s, s.procs[e.pid]);
      assert Step(s, e).procs.Keys == s.procs.Keys;
      assert |Step(s, e).procs| == |Step(s, e).procs.Keys| && |s.procs| == |s.procs.Keys|;
    }
  }

  lemma TwoKeys(procs: map<Pid, Pc>, p: Pid, q: Pid)
    requires p in procs && q in procs && p != q
    ensures |procs| >= 2
  {
    assert |procs| == |procs.Keys| && procs.Keys == (procs.Keys - {p, q}) + {p, q};
  }

  lemma {:induction false} RunSingle(s: State, events: seq<Event>)
    requires SoloInv(s) && |s.procs| <= 1
    ensures SoloInv(Run(s, events)) && |Run(s, events).procs| <= 1
    decreases |events|
  {
    if events != [] {
      StepSingle(s, events[0]);
      RunSingle(Step(s, events[0]), events[1..]);
    }
  }

  /**
   With two rotators there is always such a run: the first one has stored its new token and is about
   to hand it out, when the second one reads, replaces and revokes it.
   */
  lemma OverlapHandsOutRevoked(start: State, p: Pid, q: Pid) returns (events: seq<Event>, e: Event)
    requires Start(start) && start.stored.expiry.Some? && p in start.procs && q in start.procs && p != q
    ensures !HandsOutLive(start, events, e)
  {
    var now := start.stored.expiry.value;
    var first := Event(p, Proceed(now, None, Answer(true, Some(now))));
    var second := first.(pid := q);
    e := Event(p, Proceed(now, None, Refused));
    var s3 := RunThree(start, first);
    assert s3.stored.hasId && s3.procs[p].Persisted? && s3.procs[p].renewed == s3.stored && s3.procs[q] == Idle;
    var s6 := RunThree(s3, second);
    assert s6.procs[q].Persisted? && s6.procs[q].session == s3.stored && s6.procs[p] == s3.procs[p];
    var s7 := Step(s6, second);
    assert s3.stored.token in s7.revoked && s7.procs[p] == s3.procs[p];
    events := [first, first, first] + ([second, second, second] + [second]);
    RunAppend(start, [first, first, first], [second, second, second] + [second]);
    RunAppend(s3, [second, second, second], [second]);
    assert Run(s6, [second]) == s7;
  }

  // ---------------------------------------------------------------- when new tokens outlast the run

  /** A token issued in this run, hence numbered `first` or higher, is not near its expiry when it is read. */
  predicate FreshLasts(first: nat, s: State, e: Event) {
    e.pid in s.procs && s.procs[e.pid].Read? && s.procs[e.pid].session.token >= first ==>
      e.choice.Crash? || !NearExpiry(s.procs[e.pid].session.expiry, e.choice.now, e.choice.days)
  }

  ghost predicate AllFreshLast(first: nat, s: State, events: seq<Event>)
    decreases |events|
  {
    events == [] || (FreshLasts(first, s, events[0]) && AllFreshLast(first, Step(s, events[0]), events[1..]))
  }

  /**
   With the lifetimes the service asks for, a token is near expiry only long after it was issued.
   Then every handed token is live exactly when there is no second rotator or the stored session has
   no id to revoke it by, or no expiry time to rotate by.
   */
  lemma HandedLiveIffFreshLast(start: State)
    requires Start(start)
    ensures (forall events, e :: AllFreshLast(start.next, start, events) ==> HandsOutLive(start, events, e))
      <==> |start.procs| <= 1 || start.stored.expiry.None? || !start.stored.hasId
  {
    if |start.procs| <= 1 || start.stored.expiry.None? {
      HandedLiveIff(start);
    } else if !start.stored.hasId {
      forall events, e | AllFreshLast(start.next, start, events) ensures HandsOutLive(start, events, e) {
        RunNothingRevoked(start, start, events);
        StepHandsOld(start, Run(start, events), e);
      }
    } else {
      var p :| p in start.procs;
      assert |start.procs.Keys - {p}| == |start.procs| - 1;
      var q :| q in start.procs.Keys - {p};
      var events, e := LaggardHandsOutRevoked(start, p, q);
    }
  }

  /** Tokens are the one stored at the start or new ones, and nobody is about to revoke anything but the former. */
  ghost predicate OldOrNew(start: State, s: State) {
    && s.revoked == start.revoked && s.next >= start.next
    && (s.stored == start.stored || s.stored.token >= start.next)
    && forall p | p in s.procs :: OldOrNewPc(start, s.procs[p])
  }

  predicate OldOrNewPc(start: State, pc: Pc) {
    match pc
    case Read(prior) => prior == start.stored || prior.token >= start.next
    case Issued(prior, renewed) => prior == start.stored && renewed.token >= start.next
    case Persisted(prior, renewed) => prior == start.stored && renewed.token >= start.next
    case _ => true
  }

  lemma StepNothingRevoked(start: State, s: State, e: Event)
    requires OldOrNew(start, s) && !start.stored.hasId && FreshLasts(start.next, s, e)
    ensures OldOrNew(start, Step(s, e))
  {
    var s' := Step(s, e);
    if e.pid in s.procs {
      assert OldOrNewPc(start, s.procs[e.pid]);
      forall p | p in s'.procs ensures OldOrNewPc(start, s'.procs[p]) {
        assert OldOrNewPc(start, s.procs[p]);
      }
    }
  }

  lemma {:induction false} RunNothingRevoked(start: State, s: State, events: seq<Event>)
    requires OldOrNew(start, s) && !start.stored.hasId && AllFreshLast(start.next, s, events)
    ensures OldOrNew(start, Run(s, events))
    decreases |events|
  {
    hide Step, OldOrNew;
    if events != [] {
      StepNothingRevoked(start, s, events[0]);
      RunNothingRevoked(start, Step(s, events[0]), events[1..]);
    }
  }

  lemma StepHandsOld(start: State, s: State, e: Event)
    requires Start(start) && OldOrNew(start, s) && !start.stored.hasId
    ensures e.pid in s.procs && Active(s.procs[e.pid]) && Step(s, e).procs[e.pid].Handed? ==>
      Step(s, e).procs[e.pid].token !in Step(s, e).revoked
  {
    if e.pid in s.procs {
      assert OldOrNewPc(start, s.procs[e.pid]);
    }
  }

  /**
   The run: one rotator reads the stored token, another one reads, replaces and revokes it, and the
   first, which then fails to reach the server, keeps what it read.
   */
  lemma LaggardHandsOutRevoked(start: State, p: Pid, q: Pid) returns (events: seq<Event>, e: Event)
    requires Start(start) && start.stored.hasId && start.stored.expiry.Some? && p in start.procs && q in start.procs && p != q
    ensures AllFreshLast(start.next, start, events) && !HandsOutLive(start, events, e)
  {
    var now := start.stored.expiry.value;
    var go := Event(p, Proceed(now, None, Answer(true, None)));
    var look := go.(pid := q);
    e := Event(q, Proceed(now, None, Refused));
    var s1 := Step(start, look);
    var s2 := Step(s1, go);
    var s3 := Step(s2, go);
    var s4 := Step(s3, go);
    var s5 := Step(s4, go);
    assert s2.procs[p] == Read(start.stored) && s2.procs[q] == Read(start.stored);
    assert s3.procs[p].Issued? && s3.procs[p].session == start.stored && s3.procs[q] == s2.procs[q];
    assert s4.procs[p].Persisted? && s4.procs[p].session == start.stored && s4.procs[q] == s2.procs[q];
    assert start.stored.token in s5.revoked && s5.procs[q] == s2.procs[q];
    events := [look, go, go, go, go];
    FourMore(s1, go, start.next);
    assert events[1..] == [go, go, go, go];
    assert Run(start, events) == Run(s1, [go, go, go, go]);
  }

  /** The same event four times, none of which reads a fresh token's expiry. */
  lemma FourMore(s: State, e: Event, first: nat)
    requires e.pid in s.procs && s.procs[e.pid] == Idle && s.stored.token < first && e.choice.Proceed?
    ensures Run(s, [e, e, e, e]) == Step(Step(Step(Step(s, e), e), e), e)
    ensures AllFreshLast(first, s, [e, e, e, e])
  {
    assert [e, e, e, e][1..] == [e, e, e] && [e, e, e][1..] == [e, e] && [e, e][1..] == [e] && [e][1..] == [];
    var s1 := Step(s, e);
    var s2 := Step(s1, e);
    var s3 := Step(s2, e);
    assert !s2.procs[e.pid].Read? && !s3.procs[e.pid].Read?;
    assert Run(Step(s3, e), []) == Step(s3, e) && AllFreshLast(first, Step(s3, e), []);
    assert Run(s3, [e]) == Step(s3, e) && AllFreshLast(first, s3, [e]);
    assert Run(s2, [e, e]) == Step(s3, e) && AllFreshLast(first, s2, [e, e]);
    assert Run(s1, [e, e, e]) == Step(s3, e) && AllFreshLast(first, s1, [e, e, e]);
  }

  /** The same event three times. */
  lemma RunThree(s: State, e: Event) returns (s3: State)
    ensures s3 == Step(Step(Step(s, e), e), e) && Run(s, [e, e, e]) == s3
  {
    s3 := Step(Step(Step(s, e), e), e);
    assert [e, e, e][1..] == [e, e] && [e, e][1..] == [e] && [e][1..] == [];
    assert Run(s3, []) == s3;
    assert Run(Step(Step(s, e), e), [e]) == s3;
    assert Run(Step(s, e), [e, e]) == s3;
  }

  lemma {:induction false} RunAppend(s: State, a: seq<Event>, b: seq<Event>)
    ensures Run(s, a + b) == Run(Run(s, a), b)
    decreases |a|
  {
    if a == [] {
      assert a + b == b;
    } else {
      assert (a + b)[1..] == a[1..] + b;
      RunAppend(Step(s, a[0]), a[1..], b);
    }
  }

  // ---------------------------------------------------------------- nothing is left behind

  /** A step in which nothing goes wrong and the server names every token. */
  predicate Clean(e: Event) {
    e.choice.Proceed? && e.choice.reply.Answer? && e.choice.reply.hasId
  }

  /** Every token but the stored one, and the one being rotated in or out, is revoked. */
  ghost predicate Tidy(s: State) {
    && SoloInv(s)
    && s.stored.hasId
    && (forall p | p in s.procs && (s.procs[p].Read? || s.procs[p].Issued? || s.procs[p].Persisted?) :: s.procs[p].session.hasId)
    && (forall p | p in s.procs && s.procs[p].Issued? :: s.procs[p].renewed.hasId)
    && (forall t | 0 <= t < s.next && t !in s.revoked && t != s.stored.token ::
          exists p :: p in s.procs && Carries(s.procs[p], t))
  }

  predicate Carries(pc: Pc, t: nat) {
    (pc.Issued? && pc.renewed.token == t) || (pc.Persisted? && pc.session.token == t)
  }

  lemma StepTidy(s: State, e: Event)
    requires Tidy(s) && Alone(s, e.pid) && Clean(e)
    ensures Tidy(Step(s, e))
  {
    StepSoloInv(s, e);
    var s' := Step(s, e);
    if e.pid in s.procs {
      var pc := s.procs[e.pid];
      assert SoloPc(s, pc) && PcInv(s, pc);
      forall t | 0 <= t < s'.next && t !in s'.revoked && t != s'.stored.token
        ensures exists p :: p in s'.procs && Carries(s'.procs[p], t)
      {
        if t == s.next || t == s.stored.token {
          assert Carries(s'.procs[e.pid], t);
        }
      }
    }
  }

  lemma {:induction false} RunTidy(s: State, events: seq<Event>)
    requires Tidy(s) && OneAtATime(s, events) && forall i | 0 <= i < |events| :: Clean(events[i])
    ensures Tidy(Run(s, events))
    decreases |events|
  {
    if events != [] {
      StepTidy(s, events[0]);
      RunTidy(Step(s, events[0]), events[1..]);
    }
  }

  /** After any number of clean rotations the stored token is the only live one the server ever issued. */
  lemma OnlyStoredTokenIsLive(start: State, events: seq<Event>, t: nat)
    requires Start(start) && start.stored.hasId
    requires forall x | 0 <= x < start.next && x != start.stored.token :: x in start.revoked
    requires OneAtATime(start, events) && forall i | 0 <= i < |events| :: Clean(events[i])
    requires var s := Run(start, events); t < s.next && forall p | p in s.procs :: !Active(s.procs[p])
    ensures var s := Run(start, events); t !in s.revoked <==> t == s.stored.token
  {
    RunTidy(start, events);
  }
}
