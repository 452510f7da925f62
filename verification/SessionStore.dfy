/**
 One stored session, two copies of its token (src/auth/session-store.js): the system keyring and
 an encrypted field of the credentials document. Whether the keyring answers is chosen afresh at
 every call. Encryption is a sealed box that opens under the sealing key only.
 */
module SessionStore {
  import opened Text

  type Key = nat
  datatype Sealed = Sealed(key: Key, token: string)
  datatype Storage = File | Keyring

  /** The fields of the document that decide which token a reader gets; `token` is the old plaintext field. */
  datatype Metadata = Metadata(storage: Storage, account: string, token: string, sealed: Option<Sealed>)

  datatype Store = Store(metadata: Option<Metadata>, keyring: map<string, string>, keyFile: Option<Key>)

  /** What loadKeytarClient and one keyring call come to. */
  datatype Access = Unavailable | Throws | Works

  /** buildKeyringAccountName, for any digest. */
  function AccountOf(digest: string -> string, apiUrl: string): (account: string)
    ensures account != ""
  {
    "default-" + digest(Trim(apiUrl))
  }

  /** loadOrCreateFileKey: the stored key, else a new one. */
  function KeyOf(s: Store, draw: Key): Key {
    if s.keyFile.Some? then s.keyFile.value else draw
  }

  function Open(s: Store, sealed: Option<Sealed>): Option<string> {
    if sealed.Some? && s.keyFile == Some(sealed.value.key) && sealed.value.token != "" then Some(sealed.value.token) else None
  }

  /** The single cell both copies stand for. */
  function Cell(s: Store): Option<string> {
    match s.metadata
    case None => None
    case Some(m) => if m.token != "" then Some(m.token) else Open(s, m.sealed)
  }

  /** The key file is the one the token was sealed under, and a keyring entry in use holds that token. */
  ghost predicate Valid(s: Store) {
    s.metadata.Some? ==>
      var m := s.metadata.value;
      && Trimmed(m.token)
      && (m.token == "" ==>
            && Open(s, m.sealed).Some?
            && (m.storage.Keyring? && m.account != "" && m.account in s.keyring && s.keyring[m.account] != "" ==>
                  s.keyring[m.account] == m.sealed.value.token))
  }

  /** Another account's entry, which a write drops before it sets its own. */
  function Superseded(s: Store, account: string): Option<string> {
    if s.metadata.Some? && s.metadata.value.storage.Keyring? && s.metadata.value.account != "" && s.metadata.value.account != account
    then Some(s.metadata.value.account) else None
  }

  function KeyringAfterDelete(s: Store, account: string): map<string, string> {
    match Superseded(s, account)
    case None => s.keyring
    case Some(previous) => s.keyring - {previous}
  }

  function KeyringAfterWrite(s: Store, account: string, token: string): map<string, string> {
    KeyringAfterDelete(s, account)[account := token]
  }

  /** A completed writeStoredSession. */
  function Write(s: Store, account: string, token: string, keyringOn: bool, draw: Key): Store {
    var key := KeyOf(s, draw);
    var sealed := Some(Sealed(key, token));
    if keyringOn
    then Store(Some(Metadata(Keyring, account, "", sealed)), KeyringAfterWrite(s, account, token), Some(key))
    else Store(Some(Metadata(File, "", "", sealed)), s.keyring, Some(key))
  }

  /**
   The operation at which a call throws or its process ends. The key file may have been published
   by then; a document that was not replaced is in place or, when the restore failed too, only in
   the backup, where no reader looks.
   */
  datatype Fault = NoFault | AtDelete | AtSet | AtKey(published: bool) | AtDocument(kept: bool)

  /** The fault a write meets: without a keyring, or another account's entry, it does not get to them all. */
  function Met(s: Store, account: string, keyringOn: bool, fault: Fault): Fault {
    if (fault.AtDelete? && !(keyringOn && Superseded(s, account).Some?)) || (fault.AtSet? && !keyringOn) then NoFault else fault
  }

  /** What a write leaves behind that ends at `fault`. */
  function WriteUpTo(s: Store, account: string, token: string, keyringOn: bool, draw: Key, fault: Fault): Store {
    var keyring := if keyringOn then KeyringAfterWrite(s, account, token) else s.keyring;
    match Met(s, account, keyringOn, fault)
    case NoFault => Write(s, account, token, keyringOn, draw)
    case AtDelete => s
    case AtSet => s.(keyring := KeyringAfterDelete(s, account))
    case AtKey(published) => s.(keyring := keyring, keyFile := if published then Some(KeyOf(s, draw)) else s.keyFile)
    case AtDocument(kept) => Store(if kept then s.metadata else None, keyring, Some(KeyOf(s, draw)))
  }

  /** A completed clearStoredSession; `removed` is false when removing the document failed, which is swallowed. */
  function Clear(s: Store, access: Access, removed: bool): Store {
    match s.metadata
    case None => s
    case Some(m) =>
      Store(if removed then None else s.metadata,
            if m.storage.Keyring? && m.account != "" && access.Works? then s.keyring - {m.account} else s.keyring,
            s.keyFile)
  }

  /** The store after a completed readStoredSession: a plaintext token is migrated, nothing else changes. */
  function AfterRead(s: Store, fallbackAccount: string, keyringOn: bool, draw: Key): Store {
    if s.metadata.None? || s.metadata.value.token == "" then s
    else
      var m := s.metadata.value;
      var key := KeyOf(s, draw);
      var account := if m.account != "" then m.account else fallbackAccount;
      if keyringOn
      then Store(Some(Metadata(Keyring, account, "", Some(Sealed(key, m.token)))), s.keyring[account := m.token], Some(key))
      else Store(Some(Metadata(File, "", "", Some(Sealed(key, m.token)))), s.keyring, Some(key))
  }

  /** What a readStoredSession leaves behind whose migration ends at `fault`. */
  function ReadUpTo(s: Store, fallbackAccount: string, keyringOn: bool, draw: Key, fault: Fault): Store {
    if s.metadata.None? || s.metadata.value.token == "" then s
    else
      var m := s.metadata.value;
      var account := if m.account != "" then m.account else fallbackAccount;
      var keyring := if keyringOn then s.keyring[account := m.token] else s.keyring;
      match MetByRead(s, keyringOn, fault)
      case AtSet => s
      case AtKey(published) => s.(keyring := keyring, keyFile := if published then Some(KeyOf(s, draw)) else s.keyFile)
      case AtDocument(kept) => Store(if kept then s.metadata else None, keyring, Some(KeyOf(s, draw)))
      case _ => AfterRead(s, fallbackAccount, keyringOn, draw)
  }

  /** Only a migration can meet a fault, and it deletes nothing. */
  function MetByRead(s: Store, keyringOn: bool, fault: Fault): Fault {
    if s.metadata.None? || s.metadata.value.token == "" || fault.AtDelete? || (fault.AtSet? && !keyringOn) then NoFault else fault
  }

  /** The token a completed readStoredSession returns. */
  function ReadToken(s: Store, access: Access): Option<string> {
    match s.metadata
    case None => None
    case Some(m) =>
      if m.token != "" then Some(m.token)
      else if m.storage.Keyring? && access.Works? && m.account != "" && m.account in s.keyring && s.keyring[m.account] != ""
      then Some(s.keyring[m.account])
      else Open(s, m.sealed)
  }

  // ---------------------------------------------------------------- the methods

  datatype Outcome = Refused | Threw | Stored

  class Credentials {
    var metadata: Option<Metadata>
    var keyring: map<string, string>
    var keyFile: Option<Key>
    const digest: string -> string

    function State(): Store
      reads this
    {
      Store(metadata, keyring, keyFile)
    }

    method LoadOrCreateFileKey(draw: Key, fault: Fault) returns (ok: bool, key: Key)
      modifies this`keyFile
      ensures key == KeyOf(old(State()), draw)
      ensures ok <==> !fault.AtKey?
      ensures keyFile == if fault.AtKey? && !fault.published then old(keyFile) else Some(key)
    {
      key := if keyFile.Some? then keyFile.value else draw;
      ok := !fault.AtKey?;
      if ok || fault.published {
        keyFile := Some(key);
      }
    }

    /** The document is replaced, or the call throws. */
    method WriteDocument(next: Metadata, fault: Fault) returns (ok: bool)
      modifies this`metadata
      ensures ok <==> !fault.AtDocument?
      ensures metadata == if ok then Some(next) else if fault.kept then old(metadata) else None
    {
      ok := !fault.AtDocument?;
      if ok {
        metadata := Some(next);
      } else if !fault.kept {
        metadata := None;
      }
    }

    /** Refuses a blank URL or token before it touches anything; otherwise goes as far as nothing throws. */
    method WriteStoredSession(apiUrl: string, token: string, keyringOn: bool, draw: Key, fault: Fault) returns (outcome: Outcome)
      modifies this
      ensures outcome == Refused <==> Trim(apiUrl) == "" || Trim(token) == ""
      ensures outcome == Refused ==> State() == old(State())
      ensures outcome != Refused ==>
        var account := AccountOf(digest, apiUrl);
        && State() == WriteUpTo(old(State()), account, Trim(token), keyringOn, draw, fault)
        && (outcome == Stored <==> Met(old(State()), account, keyringOn, fault) == NoFault)
    {
      hide Trim, AccountOf;
      var normalizedToken := Trim(token);
      if Trim(apiUrl) == "" || normalizedToken == "" {
        return Refused;
      }
      var account := AccountOf(digest, apiUrl);
      var next := Metadata(File, "", "", None);
      if keyringOn {
        if metadata.Some? && metadata.value.storage.Keyring? && metadata.value.account != "" && metadata.value.account != account {
          if fault.AtDelete? {
            return Threw;
          }
          keyring := keyring - {metadata.value.account};
        }
        if fault.AtSet? {
          return Threw;
        }
        keyring := keyring[account := normalizedToken];
        next := next.(storage := Keyring, account := account);
      }
      var ok, key := LoadOrCreateFileKey(draw, fault);
      if !ok {
        return Threw;
      }
      next := next.(sealed := Some(Sealed(key, normalizedToken)));
      ok := WriteDocument(next, fault);
      outcome := if ok then Stored else Threw;
    }

    /** A keyring that throws ends the call before the document is touched. */
    method ClearStoredSession(access: Access, removed: bool) returns (completed: bool, hadSession: bool)
      modifies this
      ensures completed <==>
        !(access.Throws? && old(metadata).Some? && old(metadata).value.storage.Keyring? && old(metadata).value.account != "")
      ensures State() == if completed then Clear(old(State()), access, removed) else old(State())
      ensures hadSession == old(metadata).Some?
    {
      hadSession := metadata.Some?;
      if metadata.Some? && metadata.value.storage.Keyring? && metadata.value.account != "" {
        match access {
          case Throws => return false, hadSession;
          case Works => keyring := keyring - {metadata.value.account};
          case Unavailable =>
        }
      }
      if removed {
        metadata := None;
      }
      completed := true;
    }

    /** Returns the token, or throws when a migration it has begun does. */
    method ReadStoredSession(access: Access, fallbackAccount: string, keyringOn: bool, draw: Key, fault: Fault) returns (ok: bool, token: Option<string>)
      modifies this
      ensures State() == ReadUpTo(old(State()), fallbackAccount, keyringOn, draw, fault)
      ensures ok <==> MetByRead(old(State()), keyringOn, fault) == NoFault
      ensures token == if ok then ReadToken(old(State()), access) else None
    {
      if metadata.None? {
        return true, None;
      }
      var m := metadata.value;
      if m.token != "" {
        var next := Metadata(File, "", "", None);
        if keyringOn {
          if fault.AtSet? {
            return false, None;
          }
          var account := if m.account != "" then m.account else fallbackAccount;
          keyring := keyring[account := m.token];
          next := next.(storage := Keyring, account := account);
        }
        var key;
        ok, key := LoadOrCreateFileKey(draw, fault);
        if !ok {
          return false, None;
        }
        ok := WriteDocument(next.(sealed := Some(Sealed(key, m.token))), fault);
        return ok, if ok then Some(m.token) else None;
      }
      if m.storage.Keyring? && access.Works? && m.account != "" && m.account in keyring && keyring[m.account] != "" {
        return true, Some(keyring[m.account]);
      }
      return true, Open(State(), m.sealed);
    }
  }

  // ---------------------------------------------------------------- refinement of a single cell

  /** A completed call, with every outside choice it met. */
  datatype Call =
    | WriteCall(account: string, token: string, keyringOn: bool, draw: Key)
    | ClearCall(access: Access, removed: bool)
    | ReadCall(fallbackAccount: string, keyringOn: bool, draw: Key)

  predicate Normalized(c: Call) {
    c.WriteCall? ==> c.token != "" && Trimmed(c.token) && c.account != ""
  }

  function Do(s: Store, c: Call): Store {
    match c
    case WriteCall(account, token, keyringOn, draw) => Write(s, account, token, keyringOn, draw)
    case ClearCall(access, removed) => Clear(s, access, removed)
    case ReadCall(fallbackAccount, keyringOn, draw) => AfterRead(s, fallbackAccount, keyringOn, draw)
  }

  function DoAll(s: Store, calls: seq<Call>): Store {
    if calls == [] then s else Do(DoAll(s, calls[..|calls| - 1]), calls[|calls| - 1])
  }

  /** The specification: one variable. */
  function CellAfter(cell: Option<string>, calls: seq<Call>): Option<string> {
    if calls == [] then cell
    else
      match calls[|calls| - 1]
      case WriteCall(_, token, _, _) => Some(token)
      case ClearCall(_, removed) => if removed then None else CellAfter(cell, calls[..|calls| - 1])
      case ReadCall(_, _, _) => CellAfter(cell, calls[..|calls| - 1])
  }

  lemma DoKeepsValid(s: Store, c: Call)
    requires Valid(s) && Normalized(c)
    ensures Valid(Do(s, c))
    ensures Cell(Do(s, c)) == match c
      case WriteCall(_, token, _, _) => Some(token)
      case ClearCall(_, removed) => if removed then None else Cell(s)
      case ReadCall(_, _, _) => Cell(s)
  {
  }

  /**
   After any sequence of completed calls, with the keyring coming and going, a reader gets the
   token last written and not cleared, from whichever copy it happens to use.
   */
  lemma {:induction false} StoreRefinesCell(s: Store, calls: seq<Call>, access: Access)
    requires Valid(s) && forall i | 0 <= i < |calls| :: Normalized(calls[i])
    ensures Valid(DoAll(s, calls))
    ensures ReadToken(DoAll(s, calls), access) == CellAfter(Cell(s), calls)
    decreases |calls|
  {
    if calls != [] {
      var front := calls[..|calls| - 1];
      StoreRefinesCell(s, front, access);
      StoreRefinesCell(s, front, Unavailable);
      assert Cell(DoAll(s, front)) == ReadToken(DoAll(s, front), Unavailable);
      DoKeepsValid(DoAll(s, front), calls[|calls| - 1]);
    }
  }

  /** Clearing hides the session exactly when the document went away, or there was no session to hide. */
  lemma ClearHidesIff(s: Store, atClear: Access, removed: bool, atRead: Access)
    requires Valid(s)
    ensures ReadToken(Clear(s, atClear, removed), atRead).None? <==> removed || Cell(s).None?
  {
  }

  // ---------------------------------------------------------------- what becomes of the keyring, entry by entry

  /** The account whose keyring entry carries the stored session; "" for none. */
  function KeyringAccount(s: Store): string {
    if s.metadata.Some? && s.metadata.value.storage.Keyring? then s.metadata.value.account else ""
  }

  /** A completed clear with a working keyring leaves no entry of the stored account, and touches no other; without one it touches none. */
  lemma ClearDropsEntry(s: Store, access: Access, removed: bool, account: string)
    ensures var s' := Clear(s, access, removed);
      && (access.Works? && account != "" && account == KeyringAccount(s) ==> account !in s'.keyring)
      && (!access.Works? || account != KeyringAccount(s) || account == "" ==>
            (account in s'.keyring <==> account in s.keyring) && (account in s.keyring ==> s'.keyring[account] == s.keyring[account]))
      && s'.keyFile == s.keyFile
      && (if s.metadata.Some? && removed then s'.metadata.None? else s'.metadata == s.metadata)
  {
  }

  /**
   A completed write with a keyring leaves the token under its account, no entry of the account it
   replaces, and every other entry as it was; without one it leaves the keyring alone. Either way
   the document has no plaintext token, and its sealed copy opens to the new one.
   */
  lemma WriteSetsEntry(s: Store, account: string, token: string, keyringOn: bool, draw: Key, other: string)
    requires account != "" && token != ""
    ensures var s' := Write(s, account, token, keyringOn, draw);
      && (keyringOn ==> account in s'.keyring && s'.keyring[account] == token && KeyringAccount(s') == account)
      && (keyringOn && other != account && other != "" && other == KeyringAccount(s) ==> other !in s'.keyring)
      && (!keyringOn || (other != account && (other != KeyringAccount(s) || other == "")) ==>
            (other in s'.keyring <==> other in s.keyring) && (other in s.keyring ==> s'.keyring[other] == s.keyring[other]))
      && (!keyringOn ==> KeyringAccount(s') == "")
      && s'.metadata.Some? && s'.metadata.value.token == "" && Open(s', s'.metadata.value.sealed) == Some(token)
      && (s.keyFile.Some? ==> s'.keyFile == s.keyFile)
  {
  }

  /** A completed migration does the same with the plaintext token, under the account the document names. */
  lemma MigrationSetsEntry(s: Store, fallbackAccount: string, keyringOn: bool, draw: Key, other: string)
    requires s.metadata.Some? && s.metadata.value.token != "" && fallbackAccount != ""
    ensures var s', token := AfterRead(s, fallbackAccount, keyringOn, draw), s.metadata.value.token;
      var account := if s.metadata.value.account != "" then s.metadata.value.account else fallbackAccount;
      && (keyringOn ==> account in s'.keyring && s'.keyring[account] == token && KeyringAccount(s') == account)
      && (!keyringOn || other != account ==>
            (other in s'.keyring <==> other in s.keyring) && (other in s.keyring ==> s'.keyring[other] == s.keyring[other]))
      && s'.metadata.Some? && s'.metadata.value.token == "" && Open(s', s'.metadata.value.sealed) == Some(token)
  {
  }

  // ---------------------------------------------------------------- calls that do not complete

  /** What even interrupted calls keep: a document without a plaintext token has a token that opens. */
  ghost predicate Sound(s: Store) {
    s.metadata.Some? ==> Trimmed(s.metadata.value.token) && (s.metadata.value.token == "" ==> Open(s, s.metadata.value.sealed).Some?)
  }

  /** A call that completed, or one that ended at a fault it met. */
  datatype Attempt =
    | Completed(call: Call)
    | BrokenWrite(account: string, token: string, keyringOn: bool, draw: Key, fault: Fault)
    | BrokenRead(fallbackAccount: string, keyringOn: bool, draw: Key, fault: Fault)

  function Try(s: Store, a: Attempt): Store {
    match a
    case Completed(call) => Do(s, call)
    case BrokenWrite(account, token, keyringOn, draw, fault) => WriteUpTo(s, account, token, keyringOn, draw, fault)
    case BrokenRead(fallbackAccount, keyringOn, draw, fault) => ReadUpTo(s, fallbackAccount, keyringOn, draw, fault)
  }

  function TryAll(s: Store, attempts: seq<Attempt>): Store {
    if attempts == [] then s else Try(TryAll(s, attempts[..|attempts| - 1]), attempts[|attempts| - 1])
  }

  predicate Proper(a: Attempt) {
    match a
    case Completed(call) => Normalized(call)
    case BrokenWrite(account, token, _, _, _) => token != "" && Trimmed(token) && account != ""
    case BrokenRead(_, _, _, _) => true
  }

  /** The tokens that are anywhere in the store, readable or not. */
  function Held(s: Store): set<string> {
    (set account | account in s.keyring :: s.keyring[account])
    + (if s.metadata.None? then {} else {s.metadata.value.token})
    + (if s.metadata.None? || s.metadata.value.sealed.None? then {} else {s.metadata.value.sealed.value.token})
  }

  function Given(a: Attempt): set<string> {
    match a
    case Completed(WriteCall(_, token, _, _)) => {token, ""}
    case BrokenWrite(_, token, _, _, _) => {token, ""}
    case _ => {""}
  }

  function AllGiven(attempts: seq<Attempt>): set<string> {
    if attempts == [] then {} else AllGiven(attempts[..|attempts| - 1]) + Given(attempts[|attempts| - 1])
  }

  lemma TrySound(s: Store, a: Attempt)
    requires Sound(s) && Proper(a)
    ensures Sound(Try(s, a))
  {
  }

  lemma TryHolds(s: Store, a: Attempt)
    ensures Held(Try(s, a)) <= Held(s) + Given(a)
  {
    match a
    case Completed(call) => CallHolds(s, call);
    case BrokenWrite(account, token, keyringOn, draw, fault) => BrokenWriteHolds(s, account, token, keyringOn, draw, fault);
    case BrokenRead(fallbackAccount, keyringOn, draw, fault) => BrokenReadHolds(s, fallbackAccount, keyringOn, draw, fault);
  }

  lemma CallHolds(s: Store, c: Call)
    ensures Held(Do(s, c)) <= Held(s) + Given(Completed(c))
  {
  }

  lemma BrokenWriteHolds(s: Store, account: string, token: string, keyringOn: bool, draw: Key, fault: Fault)
    ensures Held(WriteUpTo(s, account, token, keyringOn, draw, fault)) <= Held(s) + {token, ""}
  {
  }

  lemma BrokenReadHolds(s: Store, fallbackAccount: string, keyringOn: bool, draw: Key, fault: Fault)
    ensures Held(ReadUpTo(s, fallbackAccount, keyringOn, draw, fault)) <= Held(s) + {""}
  {
  }

  /**
   After any run of completed and interrupted calls a reader gets nothing, or a token that was in the
   store at the start or was given to one of the writes.
   */
  lemma {:induction false} AnyRunReadsGiven(s: Store, attempts: seq<Attempt>, access: Access)
    requires Sound(s) && forall i | 0 <= i < |attempts| :: Proper(attempts[i])
    ensures Sound(TryAll(s, attempts)) && Held(TryAll(s, attempts)) <= Held(s) + AllGiven(attempts)
    ensures var seen := ReadToken(TryAll(s, attempts), access); seen.Some? ==> seen.value in Held(s) + AllGiven(attempts)
    decreases |attempts|
  {
    if attempts != [] {
      var front := attempts[..|attempts| - 1];
      AnyRunReadsGiven(s, front, access);
      TrySound(TryAll(s, front), attempts[|attempts| - 1]);
      TryHolds(TryAll(s, front), attempts[|attempts| - 1]);
    }
    ReadIsHeld(TryAll(s, attempts), access);
  }

  lemma ReadIsHeld(s: Store, access: Access)
    ensures ReadToken(s, access).Some? ==> ReadToken(s, access).value in Held(s)
  {
  }

  /** The new token is already in the keyring when the write ends. */
  predicate ReachedKeyring(s: Store, account: string, keyringOn: bool, fault: Fault) {
    var met := Met(s, account, keyringOn, fault);
    keyringOn && (met.AtKey? || met.AtDocument?)
  }

  /** The stored session lives in the keyring under this account, and the reader can use the keyring. */
  predicate ReadsKeyring(s: Store, account: string, access: Access) {
    s.metadata.Some? && s.metadata.value.token == "" && s.metadata.value.storage.Keyring? && s.metadata.value.account == account && access.Works?
  }

  /** The write dropped the keyring entry under which the stored session lives. */
  predicate DroppedEntry(s: Store, account: string, keyringOn: bool, fault: Fault) {
    keyringOn && Superseded(s, account).Some? && !Met(s, account, keyringOn, fault).AtDelete?
  }

  /**
   What a reader gets after a write that did not complete, on any sound store, told by the tokens it
   could have got before: nothing exactly when there was no document or it is gone to the backup; the
   new token when the keyring already held it and is where the reader looks; the document's own copy
   when the entry it would have read was dropped; and otherwise what it would have got before.
   */
  lemma InterruptedWriteShows(
    s: Store, account: string, token: string, keyringOn: bool, draw: Key, fault: Fault, access: Access)
    requires Sound(s) && account != "" && token != ""
    requires Met(s, account, keyringOn, fault) != NoFault
    ensures var s' := WriteUpTo(s, account, token, keyringOn, draw, fault);
      && Sound(s')
      && ReadToken(s', access) == (
           if s.metadata.None? || fault == AtDocument(false) then None
           else if ReachedKeyring(s, account, keyringOn, fault) && ReadsKeyring(s, account, access) then Some(token)
           else if DroppedEntry(s, account, keyringOn, fault) then Cell(s)
           else ReadToken(s, access))
      && (ReadToken(s', access).None? <==> s.metadata.None? || fault == AtDocument(false))
  {
  }

  /**
   Two interrupted writes in a row: the first leaves its token in the keyring only, and the second,
   which ends before it gets there, leaves the first one's token to be read, while the stored
   document and its sealed copy still carry the token from before both.
   */
  lemma SecondInterruptionShowsFirst(key: Key) returns (s: Store, first: Store, second: Store)
    ensures Valid(s) && Cell(s) == Some("t0")
    ensures first == WriteUpTo(s, "a", "t1", true, key, AtKey(false)) && !Valid(first) && Sound(first)
    ensures second == WriteUpTo(first, "a", "t2", true, key, AtSet)
    ensures second == TryAll(s, [BrokenWrite("a", "t1", true, key, AtKey(false)), BrokenWrite("a", "t2", true, key, AtSet)])
    ensures ReadToken(second, Works) == Some("t1") && ReadToken(second, Unavailable) == Some("t0")
  {
    var document := Metadata(Keyring, "a", "", Some(Sealed(key, "t0")));
    s := Store(Some(document), map["a" := "t0"], Some(key));
    first := WriteUpTo(s, "a", "t1", true, key, AtKey(false));
    second := WriteUpTo(first, "a", "t2", true, key, AtSet);
    assert "t1"[1] != "t0"[1];
    var attempts := [BrokenWrite("a", "t1", true, key, AtKey(false)), BrokenWrite("a", "t2", true, key, AtSet)];
    assert attempts[..1] == [attempts[0]] && attempts[..1][..0] == [];
    assert TryAll(s, attempts[..1]) == Try(s, attempts[0]);
  }

  /** Writing again until it completes repairs whatever an earlier call left behind. */
  lemma CompletedWriteRepairs(s: Store, account: string, token: string, keyringOn: bool, draw: Key, access: Access)
    requires account != "" && token != "" && Trimmed(token)
    ensures var s' := Write(s, account, token, keyringOn, draw);
      Valid(s') && ReadToken(s', access) == Some(token)
  {
  }

  /** A migration that does not complete loses the token exactly when it loses the document; else the plaintext is still there. */
  lemma InterruptedMigrationKeeps(
    s: Store, fallbackAccount: string, keyringOn: bool, draw: Key, fault: Fault, access: Access)
    requires Sound(s) && MetByRead(s, keyringOn, fault) != NoFault
    ensures var s' := ReadUpTo(s, fallbackAccount, keyringOn, draw, fault);
      && Sound(s') && (Valid(s) ==> Valid(s'))
      && ReadToken(s', access) == if fault == AtDocument(false) then None else ReadToken(s, access)
  {
  }
}
