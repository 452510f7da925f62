/**
 Replacing the credentials document (src/auth/session-store.js).

 A Folder is the directory that holds the document. `trace` lists the folder after every file
 operation, so a crash leaves the folder as one of the entries of `trace`. Which operations fail,
 how often and with which error is left open.
 */
module CredentialFile {
  import opened Text

  datatype Path = Target | Temp | Backup | Other(name: string)

  /** `Busy` stands for EPERM, EACCES, EEXIST and EBUSY, the codes that are retried. */
  datatype FsError = NotFound | Busy | Fatal

  type Files = map<Path, string>

  /** What a crash may leave behind while `payload` replaces the document of `before`. */
  ghost predicate Safe(before: Files, payload: string, now: Files) {
    && (Target in now ==> now[Target] == payload || (Target in before && now[Target] == before[Target]))
    && (Target in before && Target !in now ==> Backup in now && now[Backup] == before[Target])
    && Untouched(before, now)
  }

  ghost predicate Untouched(before: Files, now: Files) {
    forall name :: Other(name) in before.Keys + now.Keys ==>
      Other(name) in before && Other(name) in now && before[Other(name)] == now[Other(name)]
  }

  /** The document as it was: in place or, when even the restore failed, in the backup. */
  ghost predicate Kept(before: Files, now: Files) {
    if Target in before then
      || (Target in now && now[Target] == before[Target])
      || (Target !in now && Backup in now && now[Backup] == before[Target])
    else
      Target !in now
  }

  /** Tries that all but the last met a busy error, no more of them than allowed. */
  ghost predicate Tried(outcomes: seq<Option<FsError>>, attempts: nat) {
    0 < |outcomes| <= attempts && forall i | 0 <= i < |outcomes| - 1 :: outcomes[i] == Some(Busy)
  }

  /** Every entry of the trace from `start` on is safe. */
  ghost predicate AllSafe(before: Files, payload: string, trace: seq<Files>, start: nat) {
    start <= |trace| && forall i | start <= i < |trace| :: Safe(before, payload, trace[i])
  }

  /** Steps between two safe states stay safe. */
  lemma AllSafeMore(before: Files, payload: string, trace: seq<Files>, more: seq<Files>, start: nat, f: Files, g: Files)
    requires AllSafe(before, payload, trace, start) && trace <= more
    requires Safe(before, payload, f) && Safe(before, payload, g)
    requires forall i | |trace| <= i < |more| :: more[i] == f || more[i] == g
    ensures AllSafe(before, payload, more, start)
  {
    hide Safe;
    forall i | start <= i < |more| ensures Safe(before, payload, more[i]) {
      if i < |trace| {
        assert more[i] == trace[i];
      }
    }
  }

  /** The document is in place while the temporary file is written. */
  lemma SafeWhileWriting(before: Files, payload: string, text: string)
    ensures Safe(before, payload, before) && Safe(before, payload, before[Temp := text])
    ensures Temp !in before ==> before[Temp := text] - {Temp} == before
  {
  }

  lemma SafeWhenMoved(before: Files, payload: string, now: Files, path: Path)
    requires Safe(before, payload, now)
    ensures path == Temp ==> Safe(before, payload, now - {path})
    ensures path == Temp && Temp in now && now[Temp] == payload ==> Safe(before, payload, now[Target := payload] - {path})
    ensures path == Backup && (Target in now || Target !in before) ==> Safe(before, payload, now - {path})
  {
  }

  /** The old document is in the backup while its place is empty, and may go back from there. */
  lemma SafeAside(before: Files, payload: string)
    requires Target in before
    ensures var aside := before[Temp := payload][Backup := before[Target]] - {Target};
      && Safe(before, payload, aside)
      && Safe(before, payload, aside[Target := before[Target]] - {Backup})
  {
  }

  /** One file operation and what it came to. */
  datatype FileOp =
    | Wrote(ok: bool)
    | Renamed(source: Path, destination: Path, error: Option<FsError>)
    | Removed(path: Path)

  type Tries = seq<Option<FsError>>

  /** The operations of a whole write, kind by kind, in the order in which they were carried out. */
  datatype Course = Course(writes: seq<bool>, first: Tries, aside: Option<Option<FsError>>, second: Tries, dropped: bool, restore: Option<Option<FsError>>)

  function Writes(oks: seq<bool>): seq<FileOp> {
    seq(|oks|, i requires 0 <= i < |oks| => Wrote(oks[i]))
  }

  function Renames(source: Path, destination: Path, tries: Tries): seq<FileOp> {
    seq(|tries|, i requires 0 <= i < |tries| => Renamed(source, destination, tries[i]))
  }

  function Maybe<T>(given: bool, x: T): seq<T> {
    if given then [x] else []
  }

  /** Moving aside, in and back, as far as it went. */
  function ReplaceOps(c: Course): seq<FileOp> {
    (match c.aside case None => [] case Some(error) => [Renamed(Target, Backup, error)])
    + Renames(Temp, Target, c.second) + Maybe(c.dropped, Removed(Backup))
    + (match c.restore case None => [] case Some(error) => [Renamed(Backup, Target, error)])
  }

  function OpsOf(c: Course): seq<FileOp> {
    Writes(c.writes) + Renames(Temp, Target, c.first) + ReplaceOps(c)
  }

  predicate Worked(tries: Tries) {
    tries != [] && tries[|tries| - 1] == None
  }

  predicate AllTrue(oks: seq<bool>) {
    forall i | 0 <= i < |oks| :: oks[i]
  }

  /**
   How moving aside, in and back goes. The move in is tried exactly when the old document was moved
   aside or was not there; when it works the backup is dropped, and when it does not the old document
   is moved back.
   */
  ghost predicate Replacing(c: Course, error: Option<FsError>) {
    match c.aside
    case None => c.second == [] && !c.dropped && c.restore.None?
    case Some(aside) =>
      if aside == None || aside == Some(NotFound) then
        && Tried(c.second, 3) && error == c.second[|c.second| - 1]
        && (c.dropped <==> aside == None && Worked(c.second))
        && (c.restore.Some? <==> aside == None && !Worked(c.second))
      else error == aside && c.second == [] && !c.dropped && c.restore.None?
  }

  /**
   How a write goes. Writing stops at its first failure, and then nothing is moved. A written file is
   moved in, with up to three tries; after three busy ones, and only then, the old document is moved
   aside first.
   */
  ghost predicate Writing(c: Course, error: Option<FsError>) {
    if !AllTrue(c.writes) then error == Some(Fatal) && c.first == [] && c.aside.None? && Replacing(c, error)
    else
      && Tried(c.first, 3)
      && (c.aside.Some? <==> c.first == [Some(Busy), Some(Busy), Some(Busy)])
      && (c.aside.None? ==> error == c.first[|c.first| - 1])
      && Replacing(c, error)
  }

  /** An operation that did not do what it was meant to. */
  predicate Failing(op: FileOp) {
    match op
    case Wrote(ok) => !ok
    case Renamed(_, _, error) => error.Some?
    case Removed(_) => false
  }

  /** A write returns normally exactly when one of its moves of the new document worked, and so whenever nothing fails. */
  lemma ReturnsIffMoved(c: Course, error: Option<FsError>)
    requires Writing(c, error)
    ensures error.None? <==> exists i :: 0 <= i < |OpsOf(c)| && OpsOf(c)[i] == Renamed(Temp, Target, None)
    ensures (forall i | 0 <= i < |OpsOf(c)| :: !Failing(OpsOf(c)[i])) ==> error.None?
  {
    var ops, n, m := OpsOf(c), |c.writes|, |c.writes| + |c.first|;
    OpsAt(c);
    hide OpsOf, ReplaceOps, Writes, Renames;
    if Worked(c.first) {
      assert ops[m - 1] == Renamed(Temp, Target, None);
    } else if Worked(c.second) {
      assert ops[m + |c.second|] == Renamed(Temp, Target, None);
    } else if !AllTrue(c.writes) {
      var i :| 0 <= i < n && !c.writes[i];
      assert Failing(ops[i]);
    } else {
      assert Failing(ops[m - 1]);
    }
  }

  /** Where the operations of each kind stand. */
  lemma OpsAt(c: Course)
    ensures var ops, n, m := OpsOf(c), |c.writes|, |c.writes| + |c.first|;
      && |ops| >= m
      && (forall i | 0 <= i < n :: ops[i] == Wrote(c.writes[i]))
      && (forall i | n <= i < m :: ops[i] == Renamed(Temp, Target, c.first[i - n]))
      && (c.aside.Some? ==> |ops| > m + |c.second| && ops[m] == Renamed(Target, Backup, c.aside.value))
      && (c.aside.Some? ==> forall i | m < i <= m + |c.second| :: ops[i] == Renamed(Temp, Target, c.second[i - m - 1]))
      && (c.aside.Some? ==> forall i | m + |c.second| < i < |ops| :: ops[i] == Removed(Backup) || (ops[i].Renamed? && ops[i].source == Backup))
      && (c.aside.None? && c.second == [] && !c.dropped && c.restore.None? ==> |ops| == m)
  {
  }

  class Folder {
    var files: Files
    ghost var trace: seq<Files>
    ghost var log: seq<FileOp>

    /** Every state passed through since `before` was safe. */
    ghost predicate SafeSince(before: Files, payload: string, start: nat)
      reads this
    {
      Safe(before, payload, files) && AllSafe(before, payload, trace, start)
    }

    /** Atomic: moves the file, or fails and changes nothing. */
    method Rename(source: Path, destination: Path) returns (error: Option<FsError>)
      requires source != destination
      modifies this
      ensures source !in old(files) ==> error == Some(NotFound)
      ensures source in old(files) ==> error != Some(NotFound)
      ensures error.None? ==> files == old(files)[destination := old(files)[source]] - {source}
      ensures error.Some? ==> files == old(files)
      ensures trace == old(trace) + [files] && log == old(log) + [Renamed(source, destination, error)]
    {
      if source !in files {
        error := Some(NotFound);
      } else {
        var busy: bool := *;
        var fatal: bool := *;
        if busy {
          error := Some(Busy);
        } else if fatal {
          error := Some(Fatal);
        } else {
          error := None;
          files := files[destination := files[source]] - {source};
        }
      }
      trace := trace + [files];
      log := log + [Renamed(source, destination, error)];
    }

    /** rm with `force`, its failure swallowed: the file may stay. */
    method Remove(path: Path)
      modifies this
      ensures files == old(files) || files == old(files) - {path}
      ensures trace == old(trace) + [files] && log == old(log) + [Removed(path)]
    {
      var works: bool := *;
      if works {
        files := files - {path};
      }
      trace := trace + [files];
      log := log + [Removed(path)];
    }

    /** Opens the temporary file and writes the payload piece by piece; may stop at any point. */
    method WriteTemp(payload: string, ghost before: Files, ghost start: nat) returns (ok: bool, ghost oks: seq<bool>)
      requires SafeSince(before, payload, start)
      requires files == before && Temp !in before && Backup !in before
      modifies this
      ensures SafeSince(before, payload, start) && old(trace) <= trace
      ensures files - {Temp} == before
      ensures log == old(log) + Writes(oks) && (ok <==> AllTrue(oks))
      ensures ok ==> Temp in files && files[Temp] == payload
    {
      hide Safe, AllSafe;
      SafeWhileWriting(before, payload, "");
      oks := [];
      ok := WritePiece();
      oks := oks + [ok];
      WritesOneMore([], ok);
      if !ok {
        assert !oks[0];
        return;
      }
      files := files[Temp := ""];
      AllSafeMore(before, payload, trace, trace + [files], start, files, files);
      trace := trace + [files];
      var written := 0;
      while written < |payload|
        invariant written <= |payload| && AllTrue(oks) && log == old(log) + Writes(oks)
        invariant SafeSince(before, payload, start) && old(trace) <= trace
        invariant files == before[Temp := payload[..written]]
      {
        SafeWhileWriting(before, payload, payload[..written]);
        ok := WritePiece();
        WritesOneMore(oks, ok);
        oks := oks + [ok];
        if !ok {
          assert !oks[|oks| - 1];
          return;
        }
        written := written + 1;
        files := files[Temp := payload[..written]];
        assert files == before[Temp := payload[..written]];
        SafeWhileWriting(before, payload, payload[..written]);
        AllSafeMore(before, payload, trace, trace + [files], start, files, files);
        trace := trace + [files];
      }
      SafeWhileWriting(before, payload, payload);
      assert payload[..|payload|] == payload;
      ok := true;
    }

    /** Opening or writing, which may work or fail. */
    method WritePiece() returns (ok: bool)
      modifies this`log
      ensures log == old(log) + [Wrote(ok)]
    {
      ok := *;
      log := log + [Wrote(ok)];
    }

    /** renameWithRetry: one more try after every busy error, and only after one; `outcomes` lists what each try came to. */
    method RenameWithRetry(source: Path, destination: Path, attempts: nat) returns (error: Option<FsError>, ghost outcomes: seq<Option<FsError>>)
      requires source != destination && attempts > 0
      modifies this
      ensures source !in old(files) ==> error == Some(NotFound)
      ensures source in old(files) ==> error != Some(NotFound)
      ensures error.None? ==> files == old(files)[destination := old(files)[source]] - {source}
      ensures error.Some? ==> files == old(files)
      ensures Tried(outcomes, attempts) && error == outcomes[|outcomes| - 1]
      ensures error == Some(Busy) ==> |outcomes| == attempts
      ensures old(trace) <= trace && |trace| == |old(trace)| + |outcomes|
      ensures log == old(log) + Renames(source, destination, outcomes)
      ensures forall i | |old(trace)| <= i < |trace| :: trace[i] == old(files) || trace[i] == files
    {
      var attempt := 1;
      error := Rename(source, destination);
      outcomes := [error];
      RenamesOneMore(source, destination, [], error);
      while error == Some(Busy) && attempt < attempts
        invariant 1 <= attempt <= attempts && |outcomes| == attempt
        invariant Tried(outcomes, attempts) && error == outcomes[attempt - 1]
        invariant source !in old(files) ==> error == Some(NotFound)
        invariant source in old(files) ==> error != Some(NotFound)
        invariant error.None? ==> files == old(files)[destination := old(files)[source]] - {source}
        invariant error.Some? ==> files == old(files)
        invariant old(trace) <= trace && |trace| == |old(trace)| + attempt
        invariant log == old(log) + Renames(source, destination, outcomes)
        invariant forall i | |old(trace)| <= i < |trace| :: trace[i] == old(files) || trace[i] == files
        decreases attempts - attempt
      {
        error := Rename(source, destination);
        RenamesOneMore(source, destination, outcomes, error);
        outcomes := outcomes + [error];
        attempt := attempt + 1;
      }
    }

    /** Moves the old document aside, the new one in, and the old one back if that fails. */
    method ReplaceWithBackup(payload: string, ghost before: Files, ghost start: nat, ghost so: Course)
      returns (error: Option<FsError>, ghost course: Course)
      requires SafeSince(before, payload, start)
      requires Temp !in before && Backup !in before
      requires files == before[Temp := payload]
      modifies this
      ensures SafeSince(before, payload, start) && old(trace) <= trace
      ensures error.None? ==> Target in files && files[Target] == payload && Temp !in files
      ensures error.Some? ==> Kept(before, files)
      ensures course.writes == so.writes && course.first == so.first && course.aside.Some? && Replacing(course, error)
      ensures log == old(log) + ReplaceOps(course)
    {
      hide Safe, AllSafe, ReplaceOps, Renames, Replacing, Tried, Kept, Untouched, Worked;
      SafeWhileWriting(before, payload, payload);
      var aside := Rename(Target, Backup);
      var backupCreated := aside.None?;
      course := Course(so.writes, so.first, Some(aside), [], false, None);
      ReplaceOpsAre(course);
      if backupCreated {
        SafeAside(before, payload);
      }
      AllSafeMore(before, payload, old(trace), trace, start, files, files);
      if aside.Some? && aside != Some(NotFound) {
        ReplacingWhen(course, aside);
        KeptWhen(before, files);
        return aside, course;
      }
      ghost var moved, passed := files, trace;
      SafeWhenMoved(before, payload, moved, Temp);
      ghost var tries;
      error, tries := RenameWithRetry(Temp, Target, 3);
      course := course.(second := tries);
      ReplaceOpsAre(course);
      AllSafeMore(before, payload, passed, trace, start, moved, files);
      passed := trace;
      if error.None? {
        if backupCreated {
          SafeWhenMoved(before, payload, files, Backup);
          Remove(Backup);
          course := course.(dropped := true);
          ReplaceOpsAre(course);
          AllSafeMore(before, payload, passed, trace, start, files, files);
        }
      } else if backupCreated {
        var ignored := Rename(Backup, Target);
        course := course.(restore := Some(ignored));
        ReplaceOpsAre(course);
        AllSafeMore(before, payload, passed, trace, start, files, files);
      }
      ReplacingWhen(course, error);
      KeptWhen(before, files);
    }

    /**
     writeMetadata: returns None on a normal return, the error it throws otherwise. `course` tells
     every operation it carried out before it removes its temporary file, and so why it ended as it did.
     */
    method WriteMetadata(payload: string) returns (error: Option<FsError>, ghost course: Course)
      requires Temp !in files && Backup !in files
      modifies this
      ensures old(trace) <= trace
      ensures AllSafe(old(files), payload, trace, |old(trace)|)
      ensures Safe(old(files), payload, files)
      ensures error.None? ==> Target in files && files[Target] == payload && Temp !in files
      ensures error.Some? ==> Kept(old(files), files)
      ensures Writing(course, error) && log == old(log) + OpsOf(course) + [Removed(Temp)]
    {
      hide Safe, AllSafe, ReplaceOps, Renames, Writes, OpsOf, Replacing, Tried, Kept, Untouched, AllTrue, Writing;
      ghost var before := files;
      ghost var start := |trace|;
      SafeWhileWriting(before, payload, payload);
      NothingPassed(before, payload, trace);
      var written;
      ghost var oks;
      written, oks := WriteTemp(payload, before, start);
      course := Course(oks, [], None, [], false, None);
      OpsAre(course);
      ghost var passed, now := trace, files;
      if !written {
        error := Some(Fatal);
      } else {
        SafeWhenMoved(before, payload, files, Temp);
        ghost var tries;
        error, tries := RenameWithRetry(Temp, Target, 3);
        course := course.(first := tries);
        OpsAre(course);
        AllSafeMore(before, payload, passed, trace, start, now, files);
        BusyMeansThree(tries);
        if error == Some(Busy) {
          error, course := ReplaceWithBackup(payload, before, start, course);
          OpsAre(course);
        }
      }
      WritingWhen(course, error);
      KeptWhen(before, files);
      passed := trace;
      SafeWhenMoved(before, payload, files, Temp);
      Remove(Temp);
      KeptWhen(before, files);
      AllSafeMore(before, payload, passed, trace, start, files, files);
    }
  }

  lemma KeptWhen(before: Files, now: Files)
    ensures Kept(before, now) <==>
      if Target in before then
        || (Target in now && now[Target] == before[Target])
        || (Target !in now && Backup in now && now[Backup] == before[Target])
      else
        Target !in now
  {
  }

  lemma ReplacingWhen(c: Course, error: Option<FsError>)
    ensures Replacing(c, error) <==>
      match c.aside
      case None => c.second == [] && !c.dropped && c.restore.None?
      case Some(aside) =>
        if aside == None || aside == Some(NotFound) then
          && Tried(c.second, 3) && error == c.second[|c.second| - 1]
          && (c.dropped <==> aside == None && error == None)
          && (c.restore.Some? <==> aside == None && error != None)
        else error == aside && c.second == [] && !c.dropped && c.restore.None?
  {
  }

  lemma WritingWhen(c: Course, error: Option<FsError>)
    requires if !AllTrue(c.writes) then error == Some(Fatal) && c.first == [] && c.aside.None?
      else Tried(c.first, 3) && (c.aside.Some? <==> c.first == [Some(Busy), Some(Busy), Some(Busy)]) && (c.aside.None? ==> error == c.first[|c.first| - 1])
    requires if c.aside.Some? then Replacing(c, error) else c.second == [] && !c.dropped && c.restore.None?
    ensures Writing(c, error)
  {
    hide AllTrue, Tried;
  }

  lemma OpsAre(c: Course)
    ensures OpsOf(c) == Writes(c.writes) + Renames(Temp, Target, c.first) + ReplaceOps(c)
    ensures c.aside.None? && c.second == [] && !c.dropped && c.restore.None? ==> OpsOf(c) == Writes(c.writes) + Renames(Temp, Target, c.first)
    ensures c.aside.None? && c.first == [] && c.second == [] && !c.dropped && c.restore.None? ==> OpsOf(c) == Writes(c.writes)
  {
    hide Writes;
  }

  lemma WritesOneMore(oks: seq<bool>, ok: bool)
    ensures Writes(oks + [ok]) == Writes(oks) + [Wrote(ok)]
  {
  }

  lemma RenamesOneMore(source: Path, destination: Path, tries: Tries, error: Option<FsError>)
    ensures Renames(source, destination, tries + [error]) == Renames(source, destination, tries) + [Renamed(source, destination, error)]
  {
  }

  /** The operations, one list after another. */
  lemma ReplaceOpsAre(c: Course)
    ensures c.aside.None? && c.second == [] && !c.dropped && c.restore.None? ==> ReplaceOps(c) == []
    ensures c.aside.Some? && c.second == [] && !c.dropped && c.restore.None? ==> ReplaceOps(c) == [Renamed(Target, Backup, c.aside.value)]
    ensures c.aside.Some? && !c.dropped && c.restore.None? ==>
      ReplaceOps(c) == [Renamed(Target, Backup, c.aside.value)] + Renames(Temp, Target, c.second)
    ensures c.aside.Some? && c.dropped && c.restore.None? ==>
      ReplaceOps(c) == [Renamed(Target, Backup, c.aside.value)] + Renames(Temp, Target, c.second) + [Removed(Backup)]
    ensures c.aside.Some? && !c.dropped && c.restore.Some? ==>
      ReplaceOps(c) == [Renamed(Target, Backup, c.aside.value)] + Renames(Temp, Target, c.second) + [Renamed(Backup, Target, c.restore.value)]
  {
  }

  lemma BusyMeansThree(tries: Tries)
    requires Tried(tries, 3)
    ensures tries == [Some(Busy), Some(Busy), Some(Busy)] <==> tries[|tries| - 1] == Some(Busy) && |tries| == 3
  {
  }

  lemma NothingPassed(before: Files, payload: string, trace: seq<Files>)
    ensures AllSafe(before, payload, trace, |trace|)
  {
  }
}
