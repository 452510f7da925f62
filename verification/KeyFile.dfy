/**
 Many processes agree on one credential-encryption key (src/auth/session-store.js).

 A run is any sequence of events; an event lets one process take its next atomic step: one file
 read, one link, one exclusive create, one byte of the fallback write. An event may also make
 that step fail or end the process, so a list of events is an arbitrary interleaving with
 arbitrary errors and crashes.
 */
module KeyFile {
  import opened Text
  import opened Base64

  type Key = b: seq<Byte> | |b| == 32 witness seq(32, _ => 0)
  type Pid = nat

  const MAX_REREADS := 5

  /** readFileKeyAt's test of one raw read: 32 bytes, and the text is exactly their encoding. */
  function Accept(raw: string): Option<Key> {
    var encoded := Trim(raw);
    var key := Decode(encoded);
    if |key| == 32 && Encode(key) == encoded then Some(key) else None
  }

  lemma AcceptIff(raw: string, key: Key)
    ensures Accept(raw) == Some(key) <==> Trim(raw) == Encode(key)
  {
    DecodeEncode(key);
  }

  /** No character of an encoding is white space, nor of any part of one. */
  lemma PartTrimmed(key: Key, part: string)
    requires part <= Encode(key)
    ensures Trim(part) == part
  {
    EncodedIsPlain(key);
    forall c | c in part ensures !IsSpace(c) {
      assert c in Encode(key);
    }
    TrimKeepsTrimmed(part);
  }

  lemma EncodingAccepted(key: Key)
    ensures Accept(Encode(key)) == Some(key)
  {
    PartTrimmed(key, Encode(key));
    AcceptIff(Encode(key), key);
  }

  /** A key file that is still being written is never taken for a key. */
  lemma PartialKeyRejected(key: Key, part: string)
    requires part < Encode(key)
    ensures Accept(part) == None
  {
    EncodedLength(key);
    PartTrimmed(key, part);
    if Accept(part).Some? {
      EncodedLength(Accept(part).value);
    }
  }

  /** Where one call of loadOrCreateFileKey (Creator...) or readFileKey (Reader...) stands. */
  datatype Pc =
    | CreatorPrimary(rereads: nat)
    | CreatorLegacy(rereads: nat)
    | CreatorStage(key: Key)
    | CreatorLink(key: Key)
    | CreatorExclusive(key: Key)
    | CreatorFill(key: Key, written: nat)
    | CreatorReadBack(rereads: nat)
    | ReaderPrimary(rereads: nat)
    | ReaderLegacy(rereads: nat)
    | Returned(key: Key, creator: bool)
    | ReturnedNull
    | Threw
    | Crashed

  /** The two key files and every call in progress. The temporary file is private to its process. */
  datatype State = State(primary: Option<string>, legacy: Option<string>, procs: map<Pid, Pc>)

  /** How the scheduler resolves one step; `draw` is what crypto.randomBytes would return. */
  datatype Choice = Proceed(draw: Key) | Unsupported | IoError | Crash

  datatype Event = Event(pid: Pid, choice: Choice)

  /** One read of a key file by readFileKeyAt, with `rereads` reads behind it. */
  datatype ReadResult = Missing | Found(key: Key) | Again | Invalid

  function ReadOnce(file: Option<string>, rereads: nat): ReadResult {
    match file
    case None => Missing
    case Some(raw) =>
      match Accept(raw)
      case Some(key) => Found(key)
      case None => if rereads >= MAX_REREADS then Invalid else Again
  }

  predicate Finished(pc: Pc) {
    pc.Returned? || pc.ReturnedNull? || pc.Threw? || pc.Crashed?
  }

  function Step(s: State, e: Event): State {
    if e.pid !in s.procs || Finished(s.procs[e.pid]) then s
    else
      match e.choice
      case Crash => Go(s, e.pid, Crashed)
      case IoError => Go(s, e.pid, Threw)
      case Unsupported => Go(s, e.pid, if s.procs[e.pid].CreatorLink? then CreatorExclusive(s.procs[e.pid].key) else Threw)
      case Proceed(draw) => Advance(s, e.pid, draw)
  }

  function Go(s: State, pid: Pid, pc: Pc): State {
    s.(procs := s.procs[pid := pc])
  }

  /** The step when nothing goes wrong. */
  function Advance(s: State, pid: Pid, draw: Key): State
    requires pid in s.procs && !Finished(s.procs[pid])
  {
    match s.procs[pid]
    case CreatorPrimary(n) =>
      Go(s, pid, match ReadOnce(s.primary, n)
        case Missing => CreatorLegacy(0)
        case Found(key) => Returned(key, true)
        case Again => CreatorPrimary(n + 1)
        case Invalid => Threw)
    case CreatorLegacy(n) =>
      Go(s, pid, match ReadOnce(s.legacy, n)
        case Missing => CreatorStage(draw)
        case Found(key) => CreatorStage(key)
        case Again => CreatorLegacy(n + 1)
        case Invalid => Threw)
    case CreatorStage(key) =>
      Go(s, pid, CreatorLink(key))
    case CreatorLink(key) =>
      var s' := if s.primary.None? then s.(primary := Some(Encode(key))) else s;
      Go(s', pid, CreatorReadBack(0))
    case CreatorExclusive(key) =>
      if s.primary.None?
      then Go(s.(primary := Some("")), pid, CreatorFill(key, 0))
      else Go(s, pid, CreatorReadBack(0))
    case CreatorFill(key, n) =>
      if n < |Encode(key)|
      then Go(s.(primary := Some(Encode(key)[..n + 1])), pid, CreatorFill(key, n + 1))
      else Go(s, pid, CreatorReadBack(0))
    case CreatorReadBack(n) =>
      Go(s, pid, match ReadOnce(s.primary, n)
        case Missing => Threw
        case Found(key) => Returned(key, true)
        case Again => CreatorReadBack(n + 1)
        case Invalid => Threw)
    case ReaderPrimary(n) =>
      Go(s, pid, match ReadOnce(s.primary, n)
        case Missing => ReaderLegacy(0)
        case Found(key) => Returned(key, false)
        case Again => ReaderPrimary(n + 1)
        case Invalid => Threw)
    case ReaderLegacy(n) =>
      Go(s, pid, match ReadOnce(s.legacy, n)
        case Missing => ReturnedNull
        case Found(key) => Returned(key, false)
        case Again => ReaderLegacy(n + 1)
        case Invalid => Threw)
  }

  function Run(s: State, events: seq<Event>): State
    decreases |events|
  {
    if events == [] then s else Run(Step(s, events[0]), events[1..])
  }

  lemma {:induction false} RunAppend(s: State, a: seq<Event>, b: seq<Event>)
    ensures Run(s, a + b) == Run(Run(s, a), b)
    decreases |a|
  {
    if a == [] {
      assert a + b == b;
    } else {
      assert (a + b)[1..] == a[1..] + b;
      RunAppend(Step(s, a[0]), a[1..], b);
    }
  }

  /** Any key files at all, and any number of calls, none of which has taken a step. */
  predicate Start(s: State) {
    forall p | p in s.procs :: s.procs[p] == CreatorPrimary(0) || s.procs[p] == ReaderPrimary(0)
  }

  // ---------------------------------------------------------------- the invariant

  /** A creator holding a key it may still publish. */
  predicate Holds(pc: Pc) {
    pc.CreatorStage? || pc.CreatorLink? || pc.CreatorExclusive? || pc.CreatorFill?
  }

  ghost predicate LegacyKey(s: State, key: Key) {
    s.legacy.Some? && Accept(s.legacy.value) == Some(key)
  }

  /** The legacy key, when there is one, is the only key anyone may publish. */
  ghost predicate Eligible(s: State, key: Key) {
    && (s.legacy.Some? ==> LegacyKey(s, key))
  }

  ghost predicate PrimaryAccepts(s: State, key: Key) {
    s.primary.Some? && Accept(s.primary.value) == Some(key)
  }

  /** A call's own share of the invariant when the primary file existed from the start. */
  ghost predicate PresentPc(s: State, pc: Pc) {
    && !Holds(pc) && !pc.CreatorLegacy? && !pc.ReaderLegacy? && !pc.CreatorReadBack? && !pc.ReturnedNull?
    && (pc.Returned? ==> PrimaryAccepts(s, pc.key))
  }

  /** A call's own share of the invariant when the primary file was absent at the start. */
  ghost predicate AbsentPc(s: State, pc: Pc) {
    && (Holds(pc) ==> Eligible(s, pc.key))
    && (pc.CreatorReadBack? ==> s.primary.Some?)
    && (pc.CreatorFill? ==> pc.written <= |Encode(pc.key)| && s.primary == Some(Encode(pc.key)[..pc.written]))
    && (pc.Returned? ==> PrimaryAccepts(s, pc.key) || (!pc.creator && LegacyKey(s, pc.key)))
  }

  ghost predicate PrimaryIsPrefix(s: State) {
    s.primary.Some? ==> exists k: Key :: Eligible(s, k) && s.primary.value <= Encode(k)
  }

  ghost predicate OneWriter(s: State) {
    forall p, q | p in s.procs && q in s.procs && s.procs[p].CreatorFill? && s.procs[q].CreatorFill? :: p == q
  }

  /**
   What holds in every reachable state; `first` is the primary key file at the start.
   Where the primary existed from the start it is untouched and nobody gets past reading it.
   Otherwise it is a prefix of the encoding of one eligible key, and only its one writer extends it.
   */
  ghost predicate Inv(first: Option<string>, s: State) {
    if first.Some? then
      && s.primary == first
      && forall p | p in s.procs :: PresentPc(s, s.procs[p])
    else
      && PrimaryIsPrefix(s)
      && OneWriter(s)
      && forall p | p in s.procs :: AbsentPc(s, s.procs[p])
  }

  lemma StartInv(s: State)
    requires Start(s)
    ensures Inv(s.primary, s)
  {
  }

  /** A complete key text cannot grow, so what was accepted stays as it is. */
  lemma FillingNotAccepted(key: Key, n: nat)
    requires n < |Encode(key)|
    ensures Accept(Encode(key)[..n]) == None
  {
    PartialKeyRejected(key, Encode(key)[..n]);
  }

  /** An accepted primary file survives the step unchanged. */
  lemma StepKeepsAccepted(first: Option<string>, s: State, e: Event, key: Key)
    requires Inv(first, s) && PrimaryAccepts(s, key)
    ensures Step(s, e).primary == s.primary
  {
    hide Accept, Encode;
    if e.pid in s.procs && s.procs[e.pid].CreatorFill? {
      var pc := s.procs[e.pid];
      if pc.written < |Encode(pc.key)| {
        FillingNotAccepted(pc.key, pc.written);
      }
    }
  }

  lemma StepInv(first: Option<string>, s: State, e: Event)
    requires Inv(first, s)
    ensures Inv(first, Step(s, e))
  {
    if e.pid in s.procs && !Finished(s.procs[e.pid]) {
      if first.Some? {
        StepInvPresent(first, s, e);
      } else {
        StepInvAbsent(s, e);
      }
    }
  }

  lemma StepInvPresent(first: Option<string>, s: State, e: Event)
    requires Inv(first, s) && first.Some?
    requires e.pid in s.procs && !Finished(s.procs[e.pid])
    ensures Inv(first, Step(s, e))
  {
  }

  lemma StepInvAbsent(s: State, e: Event)
    requires Inv(None, s)
    requires e.pid in s.procs && !Finished(s.procs[e.pid])
    ensures Inv(None, Step(s, e))
  {
    hide Accept, Encode, Step, AbsentPc, OneWriter, Eligible;
    var s' := Step(s, e);
    if s'.primary.Some? {
      PrimaryStaysPrefix(None, s, e);
    }
    assert PrimaryIsPrefix(s');
    assert s'.procs.Keys == s.procs.Keys by { StepKeepsCalls(s, e); }
    assert OneWriter(s') by { StaysOneWriter(s, e); }
    forall p | p in s'.procs ensures AbsentPc(s', s'.procs[p]) {
      if p == e.pid {
        OwnPc(s, e);
      } else {
        OtherPc(s, e, p);
      }
    }
  }

  lemma StepKeepsCalls(s: State, e: Event)
    ensures Step(s, e).procs.Keys == s.procs.Keys
  {
    hide Accept, Encode;
  }

  /** Nobody else can be filling the file when one process creates or extends it. */
  lemma StaysOneWriter(s: State, e: Event)
    requires Inv(None, s)
    requires e.pid in s.procs && !Finished(s.procs[e.pid])
    ensures OneWriter(Step(s, e))
  {
    hide Encode, Accept;
    forall p | p in s.procs && s.procs[p].CreatorFill? ensures s.primary.Some? {
      assert AbsentPc(s, s.procs[p]);
    }
  }

  lemma OwnPc(s: State, e: Event)
    requires Inv(None, s)
    requires e.pid in s.procs && !Finished(s.procs[e.pid])
    ensures AbsentPc(Step(s, e), Step(s, e).procs[e.pid])
  {
    hide Encode, Accept;
    assert AbsentPc(s, s.procs[e.pid]);
  }

  lemma OtherPc(s: State, e: Event, p: Pid)
    requires Inv(None, s)
    requires e.pid in s.procs && !Finished(s.procs[e.pid]) && p in s.procs && p != e.pid
    ensures Step(s, e).procs[p] == s.procs[p] && AbsentPc(Step(s, e), s.procs[p])
  {
    hide Encode, Accept;
    var pc := s.procs[p];
    assert AbsentPc(s, pc) && AbsentPc(s, s.procs[e.pid]);
    if pc.Returned? && PrimaryAccepts(s, pc.key) {
      StepKeepsAccepted(None, s, e, pc.key);
    }
    if pc.CreatorFill? {
      assert !s.procs[e.pid].CreatorFill?;
    }
  }

  lemma PrimaryStaysPrefix(first: Option<string>, s: State, e: Event)
    requires Inv(first, s) && first.None? && Step(s, e).primary.Some?
    ensures exists k: Key :: Eligible(Step(s, e), k) && Step(s, e).primary.value <= Encode(k)
  {
    hide Accept, Encode;
    var s' := Step(s, e);
    if s'.primary == s.primary {
      var k: Key :| Eligible(s, k) && s.primary.value <= Encode(k);
      assert Eligible(s', k);
    } else {
      var k := s.procs[e.pid].key;
      assert Eligible(s', k) && s'.primary.value <= Encode(k);
    }
  }

  lemma {:induction false} RunInv(first: Option<string>, s: State, events: seq<Event>)
    requires Inv(first, s)
    ensures Inv(first, Run(s, events))
    ensures Run(s, events).legacy == s.legacy
    decreases |events|
  {
    hide Inv, Accept, Encode;
    if events != [] {
      StepInv(first, s, events[0]);
      RunInv(first, Step(s, events[0]), events[1..]);
    }
  }

  // ---------------------------------------------------------------- what the protocol is for

  /** Every call that returns a key, creator or reader, in any process, returns the same key. */
  lemma KeyAgreement(start: State, events: seq<Event>, p: Pid, q: Pid)
    requires Start(start)
    requires var s := Run(start, events); p in s.procs && q in s.procs && s.procs[p].Returned? && s.procs[q].Returned?
    ensures var s := Run(start, events); s.procs[p].key == s.procs[q].key
  {
    StartInv(start);
    RunInv(start.primary, start, events);
    var s := Run(start, events);
    if start.primary.None? {
      forall x | (x == p || x == q) && PrimaryAccepts(s, s.procs[x].key) && s.legacy.Some?
        ensures LegacyKey(s, s.procs[x].key)
      {
        var k: Key :| Eligible(s, k) && s.primary.value <= Encode(k);
        AcceptedPrefixIsWhole(k, s.primary.value);
      }
    }
  }

  lemma AcceptedPrefixIsWhole(k: Key, part: string)
    requires part <= Encode(k)
    ensures Accept(part).Some? ==> part == Encode(k) && Accept(part) == Some(k)
  {
    if part != Encode(k) {
      PartialKeyRejected(k, part);
    }
    EncodingAccepted(k);
  }

  /** Once the primary file holds a valid key it never changes again. */
  lemma {:induction false} ValidKeyIsFinal(start: State, before: seq<Event>, after: seq<Event>)
    requires Start(start)
    requires var s := Run(start, before); s.primary.Some? && Accept(s.primary.value).Some?
    ensures Run(start, before + after).primary == Run(start, before).primary
    decreases |after|
  {
    hide Inv, Accept, Encode, Step;
    if after == [] {
      assert before + after == before;
    } else {
      StartInv(start);
      RunInv(start.primary, start, before);
      var s := Run(start, before);
      StepKeepsAccepted(start.primary, s, after[0], Accept(s.primary.value).value);
      RunAppend(start, before, [after[0]]);
      assert Run(s, [after[0]]) == Step(s, after[0]);
      assert before + after == before + [after[0]] + after[1..];
      ValidKeyIsFinal(start, before + [after[0]], after[1..]);
    }
  }

  /** With a valid legacy key and no primary key at the start, the agreed key is the legacy key. */
  lemma LegacyKeyWins(start: State, events: seq<Event>, legacy: Key, p: Pid)
    requires Start(start) && start.primary.None? && LegacyKey(start, legacy)
    requires var s := Run(start, events); p in s.procs && s.procs[p].Returned?
    ensures Run(start, events).procs[p].key == legacy
  {
    StartInv(start);
    RunInv(start.primary, start, events);
    var s := Run(start, events);
    if PrimaryAccepts(s, s.procs[p].key) {
      var k: Key :| Eligible(s, k) && s.primary.value <= Encode(k);
      AcceptedPrefixIsWhole(k, s.primary.value);
    }
  }

  /** Once a creator has returned a key, the next read by any reader returns that key. */
  lemma CreatedKeyIsReadable(start: State, events: seq<Event>, creator: Pid, reader: Pid, draw: Key)
    requires Start(start)
    requires var s := Run(start, events);
      && creator in s.procs && s.procs[creator].Returned? && s.procs[creator].creator
      && reader in s.procs && s.procs[reader].ReaderPrimary?
    ensures var s := Run(start, events);
      Step(s, Event(reader, Proceed(draw))).procs[reader] == Returned(s.procs[creator].key, false)
  {
    hide Accept, Encode;
    StartInv(start);
    RunInv(start.primary, start, events);
  }

  // ---------------------------------------------------------------- what a call answers when it runs alone

  /** What a reader answers from the two files as they stand. */
  function ReaderAnswer(primary: Option<string>, legacy: Option<string>): Pc {
    match primary
    case Some(raw) => if Accept(raw).Some? then Returned(Accept(raw).value, false) else Threw
    case None =>
      match legacy
      case Some(raw) => if Accept(raw).Some? then Returned(Accept(raw).value, false) else Threw
      case None => ReturnedNull
  }

  function Repeat(e: Event, n: nat): (es: seq<Event>)
    ensures |es| == n && forall i | 0 <= i < n :: es[i] == e
  {
    seq(n, _ => e)
  }

  lemma RepeatMore(s: State, e: Event, n: nat)
    requires n > 0
    ensures Run(s, Repeat(e, n)) == Run(Step(s, e), Repeat(e, n - 1))
  {
    hide Step;
    assert Repeat(e, n)[1..] == Repeat(e, n - 1);
  }

  /** A call that has ended stays as it is. */
  lemma {:induction false} FinishedStays(s: State, p: Pid, draw: Key, n: nat)
    requires p in s.procs && Finished(s.procs[p])
    ensures Run(s, Repeat(Event(p, Proceed(draw)), n)) == s
    decreases n
  {
    if n > 0 {
      RepeatMore(s, Event(p, Proceed(draw)), n);
      FinishedStays(s, p, draw, n - 1);
    }
  }

  /** Six reads of a legacy file settle what it holds. */
  lemma {:induction false} LegacyAlone(s: State, p: Pid, draw: Key, tries: nat, n: nat)
    requires p in s.procs && s.procs[p] == ReaderLegacy(tries) && tries <= 5 && n >= 6 - tries
    ensures Run(s, Repeat(Event(p, Proceed(draw)), n)) == Go(s, p, ReaderAnswer(None, s.legacy))
    decreases n
  {
    hide Accept;
    var e := Event(p, Proceed(draw));
    RepeatMore(s, e, n);
    var s' := Step(s, e);
    if Finished(s'.procs[p]) {
      FinishedStays(s', p, draw, n - 1);
    } else {
      LegacyAlone(s', p, draw, tries + 1, n - 1);
      assert Go(s', p, ReaderAnswer(None, s.legacy)) == Go(s, p, ReaderAnswer(None, s.legacy));
    }
  }

  /**
   A reader that runs alone answers the primary key, or the legacy key when there is no primary file,
   or null when there is neither, after at most six reads of each; a file that holds no key is an error.
   */
  lemma {:induction false} ReaderAlone(s: State, p: Pid, draw: Key, tries: nat, n: nat)
    requires p in s.procs && s.procs[p] == ReaderPrimary(tries) && tries <= 5 && n >= 13 - tries
    ensures Run(s, Repeat(Event(p, Proceed(draw)), n)) == Go(s, p, ReaderAnswer(s.primary, s.legacy))
    decreases n
  {
    hide Accept;
    var e := Event(p, Proceed(draw));
    RepeatMore(s, e, n);
    var s' := Step(s, e);
    if Finished(s'.procs[p]) {
      FinishedStays(s', p, draw, n - 1);
    } else if s'.procs[p].ReaderPrimary? {
      ReaderAlone(s', p, draw, tries + 1, n - 1);
      assert Go(s', p, ReaderAnswer(s.primary, s.legacy)) == Go(s, p, ReaderAnswer(s.primary, s.legacy));
    } else {
      LegacyAlone(s', p, draw, 0, n - 1);
      assert Go(s', p, ReaderAnswer(None, s.legacy)) == Go(s, p, ReaderAnswer(None, s.legacy));
    }
  }

  /** Fewer than six reads do not condemn a file that may still be being written. */
  lemma {:induction false} FiveReadsWait(s: State, p: Pid, draw: Key, n: nat)
    requires p in s.procs && s.procs[p] == ReaderPrimary(0) && s.primary.Some? && Accept(s.primary.value).None? && n <= 5
    ensures Run(s, Repeat(Event(p, Proceed(draw)), n)) == Go(s, p, ReaderPrimary(n))
  {
    hide Accept;
    StillReading(s, p, draw, 0, n);
    assert Go(s, p, ReaderPrimary(0)) == s;
  }

  /** In every read loop: a file that holds no key is read again five times and then condemned. */
  lemma BadFileIsReread(s: State, p: Pid, draw: Key, n: nat)
    requires p in s.procs
    ensures var s' := Step(s, Event(p, Proceed(draw)));
      && (s.primary.Some? && Accept(s.primary.value).None? ==>
            && (s.procs[p] == CreatorPrimary(n) ==> s' == Go(s, p, if n < 5 then CreatorPrimary(n + 1) else Threw))
            && (s.procs[p] == CreatorReadBack(n) ==> s' == Go(s, p, if n < 5 then CreatorReadBack(n + 1) else Threw))
            && (s.procs[p] == ReaderPrimary(n) ==> s' == Go(s, p, if n < 5 then ReaderPrimary(n + 1) else Threw)))
      && (s.legacy.Some? && Accept(s.legacy.value).None? ==>
            && (s.procs[p] == CreatorLegacy(n) ==> s' == Go(s, p, if n < 5 then CreatorLegacy(n + 1) else Threw))
            && (s.procs[p] == ReaderLegacy(n) ==> s' == Go(s, p, if n < 5 then ReaderLegacy(n + 1) else Threw)))
  {
    hide Accept, Encode;
  }

  /** Every read loop starts with no read behind it, also the one by which a creator reads back what was published. */
  lemma LoopsStartAfresh(s: State, e: Event, n: nat)
    requires e.pid in s.procs
    ensures var pc, next := s.procs[e.pid], Step(s, e).procs[e.pid];
      && (next == CreatorLegacy(n) && !pc.CreatorLegacy? ==> n == 0)
      && (next == CreatorReadBack(n) && !pc.CreatorReadBack? ==> n == 0)
      && (next == ReaderLegacy(n) && !pc.ReaderLegacy? ==> n == 0)
  {
    hide Accept, Encode;
  }

  lemma {:induction false} StillReading(s: State, p: Pid, draw: Key, tries: nat, n: nat)
    requires p in s.procs && s.procs[p] == ReaderPrimary(tries) && s.primary.Some? && Accept(s.primary.value).None? && tries + n <= 5
    ensures Run(s, Repeat(Event(p, Proceed(draw)), n)) == Go(s, p, ReaderPrimary(tries + n))
    decreases n
  {
    hide Accept;
    var e := Event(p, Proceed(draw));
    if n > 0 {
      RepeatMore(s, e, n);
      StillReading(Step(s, e), p, draw, tries + 1, n - 1);
    }
  }

  // ---------------------------------------------------------------- what a reader answers among others

  /** At some moment of the run the reader looked at the primary file and it was as `content`. */
  ghost predicate Looked(s: State, events: seq<Event>, p: Pid, content: Option<string>) {
    exists k: nat :: LookedAt(s, events, p, content, k)
  }

  ghost predicate LookedAt(s: State, events: seq<Event>, p: Pid, content: Option<string>, k: nat) {
    && k < |events| && events[k].pid == p && events[k].choice.Proceed?
    && var s' := Run(s, events[..k]);
    p in s'.procs && s'.procs[p].ReaderPrimary? && s'.primary == content
  }

  /**
   Whatever the other processes do meanwhile: a reader that answers null saw no primary file, and
   there was no legacy file; a key it answers is the one it saw in the primary file or, having seen
   none there, the legacy key; and once it has seen no primary file, only the legacy file decides.
   */
  lemma {:induction false} ReaderAnswers(s: State, events: seq<Event>, p: Pid)
    requires p in s.procs && s.procs[p] == ReaderPrimary(0)
    ensures var s' := Run(s, events);
      && p in s'.procs && s'.legacy == s.legacy
      && ReaderKnows(s, events, p, s'.procs[p])
    decreases |events|
  {
    hide Step;
    if events == [] {
      assert Run(s, events) == s;
    } else {
      var front, last := events[..|events| - 1], events[|events| - 1];
      ReaderAnswers(s, front, p);
      assert events == front + [last];
      RunAppend(s, front, [last]);
      RunOne(Run(s, front), last);
      LookedMore(s, front, last, p);
      ReaderStep(s, front, last, p);
    }
  }

  ghost predicate ReaderKnows(s: State, events: seq<Event>, p: Pid, pc: Pc) {
    match pc
    case ReaderPrimary(_) => !Looked(s, events, p, None)
    case ReaderLegacy(_) => Looked(s, events, p, None)
    case ReturnedNull => Looked(s, events, p, None) && s.legacy.None?
    case Returned(key, creator) =>
      && !creator
      && if Looked(s, events, p, None) then LegacyKey(s, key)
         else exists raw :: Accept(raw) == Some(key) && Looked(s, events, p, Some(raw))
    case Threw => true
    case Crashed => true
    case _ => false
  }

  /** Looks add up event by event. */
  lemma LookedMore(s: State, front: seq<Event>, last: Event, p: Pid)
    ensures forall content :: Looked(s, front + [last], p, content) <==>
      || Looked(s, front, p, content)
      || (last.pid == p && last.choice.Proceed? && p in Run(s, front).procs && Run(s, front).procs[p].ReaderPrimary? && Run(s, front).primary == content)
  {
    hide Run;
    var all := front + [last];
    assert all[..|front|] == front;
    forall content ensures Looked(s, all, p, content) <==>
      || Looked(s, front, p, content)
      || (last.pid == p && last.choice.Proceed? && p in Run(s, front).procs && Run(s, front).procs[p].ReaderPrimary? && Run(s, front).primary == content)
    {
      if Looked(s, front, p, content) {
        var k: nat :| LookedAt(s, front, p, content, k);
        assert all[..k] == front[..k];
        assert LookedAt(s, all, p, content, k);
      }
      if Looked(s, all, p, content) {
        var k: nat :| LookedAt(s, all, p, content, k);
        if k < |front| {
          assert all[..k] == front[..k];
          assert LookedAt(s, front, p, content, k);
        }
      }
      if last.pid == p && last.choice.Proceed? && p in Run(s, front).procs && Run(s, front).procs[p].ReaderPrimary? && Run(s, front).primary == content {
        assert LookedAt(s, all, p, content, |front|);
      }
    }
  }

  lemma ReaderStep(s: State, front: seq<Event>, last: Event, p: Pid)
    requires var mid := Run(s, front); p in mid.procs && mid.legacy == s.legacy && ReaderKnows(s, front, p, mid.procs[p])
    requires forall content :: Looked(s, front + [last], p, content) <==>
      || Looked(s, front, p, content)
      || (last.pid == p && last.choice.Proceed? && Run(s, front).procs[p].ReaderPrimary? && Run(s, front).primary == content)
    ensures var s' := Step(Run(s, front), last);
      p in s'.procs && s'.legacy == s.legacy && ReaderKnows(s, front + [last], p, s'.procs[p])
  {
    hide Run, Accept, Encode, Looked;
  }

  // ---------------------------------------------------------------- exactly when a new call can succeed

  /** Some call is in the middle of the fallback write. */
  ghost predicate SomeoneFills(s: State) {
    exists q :: q in s.procs && s.procs[q].CreatorFill?
  }

  /** What the two files and the calls in progress must be like for a new creator to be able to return. */
  ghost predicate CanReturn(s: State) {
    match s.primary
    case Some(raw) => Accept(raw).Some? || SomeoneFills(s)
    case None => s.legacy.None? || Accept(s.legacy.value).Some?
  }

  ghost predicate ReturnsAfter(s: State, p: Pid, events: seq<Event>) {
    var s' := Run(s, events);
    p in s'.procs && s'.procs[p].Returned?
  }

  /**
   From any reachable state, a creator that has not begun can still return a key, with some help of
   the scheduler, exactly when the files and the calls in progress are as CanReturn says. In every
   other state no scheduler can make it return.
   */
  lemma CreatorCanReturnIff(start: State, before: seq<Event>, p: Pid)
    requires Start(start)
    requires var s := Run(start, before); p in s.procs && s.procs[p] == CreatorPrimary(0)
    ensures var s := Run(start, before); (exists events :: ReturnsAfter(s, p, events)) <==> CanReturn(s)
  {
    StartInv(start);
    RunInv(start.primary, start, before);
    var s := Run(start, before);
    if CanReturn(s) {
      var events := CreatorReturns(start.primary, s, p);
      assert ReturnsAfter(s, p, events);
    } else {
      StuckStays(start.primary, s, p);
      forall events ensures !ReturnsAfter(s, p, events) {
        StuckForGood(s, events, p);
      }
    }
  }

  /** A writer that dies inside the fallback write leaves a file nobody replaces: from then on no new call returns a key. */
  lemma TornKeyFileIsPermanent(s: State, events: seq<Event>, p: Pid)
    requires s.primary.Some? && Accept(s.primary.value).None? && !SomeoneFills(s)
    requires p in s.procs && !s.procs[p].Returned? && !s.procs[p].ReaderLegacy?
    ensures !ReturnsAfter(s, p, events) && Run(s, events).primary == s.primary
  {
    StuckForGood(s, events, p);
  }

  /** Such a file is reached from nothing: one creator falls back to the exclusive create and dies before its first byte. */
  lemma TornKeyFileIsReachable(draw: Key, p: Pid) returns (start: State, before: seq<Event>)
    requires p != 0
    ensures Start(start) && start.primary.None? && start.legacy.None?
    ensures var s := Run(start, before);
      && s.primary == Some("") && !SomeoneFills(s) && p in s.procs && s.procs[p] == CreatorPrimary(0)
      && forall events :: !ReturnsAfter(s, p, events)
  {
    hide Accept, Encode;
    start := State(None, None, map[0 := CreatorPrimary(0), p := CreatorPrimary(0)]);
    var go := Event(0, Proceed(draw));
    before := [go, go, go] + [Event(0, Unsupported), go, Event(0, Crash)];
    var s3 := RunThree(start, go, go, go);
    assert s3 == State(None, None, start.procs[0 := CreatorLink(draw)]);
    var s := TornRun(s3, go);
    RunAppend(start, [go, go, go], [Event(0, Unsupported), go, Event(0, Crash)]);
    hide Step;
    EmptyRejected(draw);
    forall events ensures !ReturnsAfter(s, p, events) {
      TornKeyFileIsPermanent(s, events, p);
    }
  }

  lemma TornRun(s3: State, go: Event) returns (s: State)
    requires s3.primary.None? && go.pid in s3.procs && s3.procs[go.pid].CreatorLink? && go.choice.Proceed?
    ensures Run(s3, [Event(go.pid, Unsupported), go, Event(go.pid, Crash)]) == s
    ensures s == State(Some(""), s3.legacy, s3.procs[go.pid := Crashed])
  {
    hide Accept, Encode;
    s := RunThree(s3, Event(go.pid, Unsupported), go, Event(go.pid, Crash));
    assert Step(s3, Event(go.pid, Unsupported)) == Go(s3, go.pid, CreatorExclusive(s3.procs[go.pid].key));
  }

  lemma EmptyRejected(key: Key)
    ensures Accept("") == None
  {
    EncodedLength(key);
    PartialKeyRejected(key, "");
  }

  lemma RunThree(s: State, e1: Event, e2: Event, e3: Event) returns (s3: State)
    ensures s3 == Step(Step(Step(s, e1), e2), e3) && Run(s, [e1, e2, e3]) == s3
  {
    hide Step;
    s3 := Step(Step(Step(s, e1), e2), e3);
    assert [e1, e2, e3][1..] == [e2, e3] && [e2, e3][1..] == [e3] && [e3][1..] == [];
    assert Run(s3, []) == s3;
    assert Run(Step(Step(s, e1), e2), [e3]) == s3;
    assert Run(Step(s, e1), [e2, e3]) == s3;
  }

  /** The schedule under which the creator returns: first whoever fills finishes, then the creator runs alone. */
  lemma CreatorReturns(first: Option<string>, s: State, p: Pid) returns (events: seq<Event>)
    requires Inv(first, s) && CanReturn(s) && p in s.procs && s.procs[p] == CreatorPrimary(0)
    ensures ReturnsAfter(s, p, events)
  {
    var draw: Key := seq(32, _ => 0);
    var go := Event(p, Proceed(draw));
    if s.primary.None? {
      events := PublishAlone(s, p, draw);
    } else if Accept(s.primary.value).Some? {
      events := [go];
      ReadsAccepted(s, p, go);
    } else {
      var q :| q in s.procs && s.procs[q].CreatorFill?;
      assert first.None? && AbsentPc(s, s.procs[q]);
      hide Inv, Step, CanReturn;
      var filling := FinishFilling(s, q, draw);
      EncodingAccepted(s.procs[q].key);
      ReadsAccepted(Run(s, filling), p, go);
      RunAppend(s, filling, [go]);
      events := filling + [go];
    }
  }

  lemma ReadsAccepted(s: State, p: Pid, go: Event)
    requires s.primary.Some? && Accept(s.primary.value).Some?
    requires p in s.procs && s.procs[p] == CreatorPrimary(0) && go.pid == p && go.choice.Proceed?
    ensures ReturnsAfter(s, p, [go])
  {
    hide Accept, Encode;
    RunOne(s, go);
  }

  lemma RunOne(s: State, e: Event)
    ensures Run(s, [e]) == Step(s, e)
  {
    assert [e][1..] == [];
    assert Run(Step(s, e), []) == Step(s, e);
  }

  /** The rest of a fallback write, one byte at a time. */
  lemma {:induction false} FinishFilling(s: State, q: Pid, draw: Key) returns (events: seq<Event>)
    requires q in s.procs && s.procs[q].CreatorFill?
    requires var pc := s.procs[q]; pc.written <= |Encode(pc.key)| && s.primary == Some(Encode(pc.key)[..pc.written])
    ensures var pc := s.procs[q]; var s' := Run(s, events);
      s'.primary == Some(Encode(pc.key)) && s'.procs == s.procs[q := CreatorFill(pc.key, |Encode(pc.key)|)]
    decreases |Encode(s.procs[q].key)| - s.procs[q].written
  {
    var pc := s.procs[q];
    hide Encode;
    if pc.written == |Encode(pc.key)| {
      events := [];
      assert Encode(pc.key)[..pc.written] == Encode(pc.key);
    } else {
      var e := Event(q, Proceed(draw));
      var s' := Step(s, e);
      assert s' == State(Some(Encode(pc.key)[..pc.written + 1]), s.legacy, s.procs[q := CreatorFill(pc.key, pc.written + 1)]);
      var rest := FinishFilling(s', q, draw);
      events := [e] + rest;
      RunAppend(s, [e], rest);
      RunOne(s, e);
    }
  }

  /** With no primary key in the way, a creator that runs alone publishes the legacy key, or the one it drew, and reads it back. */
  lemma PublishAlone(s: State, p: Pid, draw: Key) returns (events: seq<Event>)
    requires s.primary.None? && (s.legacy.None? || Accept(s.legacy.value).Some?)
    requires p in s.procs && s.procs[p] == CreatorPrimary(0)
    ensures ReturnsAfter(s, p, events)
    ensures var key := if s.legacy.Some? then Accept(s.legacy.value).value else draw;
      Run(s, events).procs[p] == Returned(key, true) && Run(s, events).primary == Some(Encode(key))
  {
    hide Accept, Encode;
    var go := Event(p, Proceed(draw));
    var s3 := RunThree(s, go, go, go);
    var key := if s.legacy.Some? then Accept(s.legacy.value).value else draw;
    assert s3 == State(None, s.legacy, s.procs[p := CreatorLink(key)]);
    var s4 := Step(s3, go);
    assert s4.primary == Some(Encode(key)) && s4.procs[p] == CreatorReadBack(0);
    EncodingAccepted(key);
    var s5 := Step(s4, go);
    assert s5.procs[p] == Returned(key, true);
    RunOne(s4, go);
    RunOne(s3, go);
    RunAppend(s3, [go], [go]);
    RunAppend(s, [go, go, go], [go] + [go]);
    events := [go, go, go] + ([go] + [go]);
  }

  /** A state in which the call p will never return: the primary is torn for good, or the legacy key is and nobody holds another. */
  ghost predicate Stuck(s: State, p: Pid) {
    && p in s.procs && !s.procs[p].Returned?
    && if s.primary.Some? then Accept(s.primary.value).None? && !SomeoneFills(s) && !s.procs[p].ReaderLegacy?
       else
         && s.legacy.Some? && Accept(s.legacy.value).None?
         && forall q | q in s.procs :: !Holds(s.procs[q]) && !s.procs[q].CreatorReadBack?
  }

  lemma StuckStays(first: Option<string>, s: State, p: Pid)
    requires Inv(first, s) && !CanReturn(s) && p in s.procs && s.procs[p] == CreatorPrimary(0)
    ensures Stuck(s, p)
  {
    hide Accept, Encode;
    if s.primary.None? {
      forall q | q in s.procs ensures !Holds(s.procs[q]) && !s.procs[q].CreatorReadBack? {
        assert AbsentPc(s, s.procs[q]);
      }
    }
  }

  lemma StepStuck(s: State, e: Event, p: Pid)
    requires Stuck(s, p)
    ensures Stuck(Step(s, e), p) && Step(s, e).primary == s.primary
  {
    hide Accept, Encode;
    var s' := Step(s, e);
    if s.primary.Some? {
      assert s'.primary == s.primary;
      forall q | q in s'.procs ensures !s'.procs[q].CreatorFill? {
        assert q in s.procs && !s.procs[q].CreatorFill?;
      }
    }
  }

  lemma {:induction false} StuckForGood(s: State, events: seq<Event>, p: Pid)
    requires Stuck(s, p)
    ensures !ReturnsAfter(s, p, events) && Run(s, events).primary == s.primary
    decreases |events|
  {
    hide Step, Accept;
    if events != [] {
      StepStuck(s, events[0], p);
      StuckForGood(Step(s, events[0]), events[1..], p);
      assert Run(s, events) == Run(Step(s, events[0]), events[1..]);
    }
  }
}
