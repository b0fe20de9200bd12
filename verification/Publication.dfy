/** Publishing one file as temp, link, unlink, and reconciling whatever a crash left of it. */
module Publication {
  import opened Wrappers
  import opened Bytes
  import Device
  import opened NameSpace

  /** The row to publish.  `ino` is the inode number the file system will pick for the temp file;
      `declared` tells whether the journalled intent carries the expected owner. */
  datatype Row = Row(target: string, temp: string, ino: nat, payload: seq<byte>, uid: nat, mode: nat, declared: bool)

  datatype PublishError = TargetPreexists | TempExists | ZeroWrite

  datatype Published = Done | Failed(error: PublishError) | Crashed

  datatype ReconcileError = TempInvalid | PostimageMismatch

  datatype Reconciliation = NotApplied | Cleaned | OwnedApplied

  ghost predicate Usable(dir: Directory, row: Row) {
    WellFormed(dir) && row.target != row.temp && row.ino !in dir.inodes
  }

  /** The owners a temp file may have when it is found again. */
  function TempOwners(row: Row): set<nat> {
    {0, if row.declared then row.uid else 0}
  }

  function Exact(row: Row): File {
    File(row.payload, row.uid, row.mode, 1)
  }

  // ---------------------------------------------------------------- the stages of a publication

  /** The temp file is there, perhaps only in part and perhaps still owned by the installer. */
  ghost function Draft(start: Directory, row: Row, file: File): Directory {
    Directory(start.names[row.temp := row.ino], start.inodes[row.ino := file])
  }

  ghost function Both(start: Directory, row: Row): Directory {
    Directory(start.names[row.temp := row.ino][row.target := row.ino],
              start.inodes[row.ino := Exact(row).(links := 2)])
  }

  ghost function Complete(start: Directory, row: Row): Directory {
    Directory(start.names[row.target := row.ino], start.inodes[row.ino := Exact(row)])
  }

  ghost predicate IsDraft(start: Directory, end: Directory, row: Row) {
    && row.temp !in start.names
    && row.ino in end.inodes
    && var file := end.inodes[row.ino];
    && file.content <= row.payload && file.uid in {0, row.uid} && file.links == 1
    && file.mode in {0x180, row.mode}
    && (file.content != [] ==> file.uid == row.uid && file.mode == row.mode)
    && end == Draft(start, row, file)
  }

  /** Nothing happened, or a temp file that was in the way has been removed. */
  ghost predicate Untouched(start: Directory, end: Directory, row: Row)
    requires WellFormed(start)
  {
    end == start || (row.temp in start.names && end == Unlink(start, row.temp))
  }

  /** Every state a stopped publication can leave. */
  ghost predicate Left(start: Directory, end: Directory, row: Row)
    requires WellFormed(start)
  {
    || Untouched(start, end, row)
    || IsDraft(start, end, row)
    || (row.temp !in start.names && row.target !in start.names && (end == Both(start, row) || end == Complete(start, row)))
  }

  lemma LeftIsWellFormed(start: Directory, end: Directory, row: Row)
    requires Usable(start, row) && Left(start, end, row)
    ensures WellFormed(end)
  {
    if row.temp in start.names {
      UnlinkWellFormed(start, row.temp);
    } else if IsDraft(start, end, row) {
      CreateWellFormed(start, row.temp, row.ino, end.inodes[row.ino]);
    } else if row.target !in start.names {
      RevealSteps(start, row);
    }
  }

  lemma LinkDraft(start: Directory, row: Row)
    requires row.ino !in start.inodes && row.target != row.temp && row.target !in start.names
    requires WellFormed(Draft(start, row, Exact(row)))
    ensures Link(Draft(start, row, Exact(row)), row.temp, row.target) == Both(start, row)
    ensures WellFormed(Both(start, row))
  {
    LinkWellFormed(Draft(start, row, Exact(row)), row.temp, row.target);
  }

  lemma UnlinkBoth(start: Directory, row: Row)
    requires row.target != row.temp && row.temp !in start.names && WellFormed(Both(start, row))
    ensures Unlink(Both(start, row), row.temp) == Complete(start, row)
    ensures WellFormed(Complete(start, row))
  {
    UnlinkWellFormed(Both(start, row), row.temp);
    assert Both(start, row).names - {row.temp} == start.names[row.target := row.ino];
  }

  /** The two calls that reveal a finished draft. */
  lemma RevealSteps(start: Directory, row: Row)
    requires Usable(start, row) && row.temp !in start.names && row.target !in start.names
    ensures WellFormed(Draft(start, row, Exact(row)))
    ensures Link(Draft(start, row, Exact(row)), row.temp, row.target) == Both(start, row)
    ensures WellFormed(Both(start, row)) && Unlink(Both(start, row), row.temp) == Complete(start, row)
    ensures WellFormed(Complete(start, row))
  {
    CreateWellFormed(start, row.temp, row.ino, Exact(row));
    LinkDraft(start, row);
    UnlinkBoth(start, row);
  }

  // ---------------------------------------------------------------- reconciliation

  /** Remove the temp name when it is unambiguous: the only link of a draft, or one of exactly two
      links that the target shares. */
  function ClearTemp(dir: Directory, row: Row): Result<Directory, ReconcileError>
    requires WellFormed(dir)
  {
    if row.temp !in dir.names then Ok(dir)
    else
      var temp := FileAt(dir, row.temp);
      if row.target !in dir.names then
        if temp.links != 1 || temp.uid !in TempOwners(row) then Err(TempInvalid) else Ok(Unlink(dir, row.temp))
      else if temp.links != 2 || FileAt(dir, row.target).links != 2 || dir.names[row.temp] != dir.names[row.target]
      then Err(TempInvalid)
      else Ok(Unlink(dir, row.temp))
  }

  /** Is the target there, and is it the exact row? */
  function Classify(dir: Directory, row: Row, cleaned: bool): Result<Reconciliation, ReconcileError> {
    if row.target !in dir.names then Ok(if cleaned then Cleaned else NotApplied)
    else if dir.names[row.target] in dir.inodes && dir.inodes[dir.names[row.target]] == Exact(row) then Ok(OwnedApplied)
    else Err(PostimageMismatch)
  }

  /** A reconciliation that is not interrupted: its verdict and the directory it leaves. */
  function Reconcile(dir: Directory, row: Row): (Result<Reconciliation, ReconcileError>, Directory)
    requires WellFormed(dir)
  {
    match ClearTemp(dir, row)
    case Err(error) => (Err(error), dir)
    case Ok(cleared) => (Classify(cleared, row, row.temp in dir.names), cleared)
  }

  /** Why a publication can fail without being stopped. */
  predicate FailureCause(start: Directory, row: Row, counts: seq<nat>, error: PublishError) {
    match error
    case TargetPreexists => row.target in start.names
    case TempExists => row.temp in start.names
    case ZeroWrite => Device.Delivered(counts, |row.payload|).1.ZeroWrite?
  }

  class Volume {
    var dir: Directory
    /** How many more calls take effect before the process stops. */
    var budget: nat

    constructor (dir: Directory, budget: nat)
      ensures this.dir == dir && this.budget == budget
    {
      this.dir := dir;
      this.budget := budget;
    }

    /** The cleanup of a publication that failed before its link. */
    method Discard(temp: string, error: PublishError) returns (outcome: Published)
      requires WellFormed(dir)
      modifies this
      ensures outcome == Crashed || outcome == Failed(error)
      ensures outcome == Crashed ==> dir == old(dir) && temp in dir.names && budget == 0
      ensures outcome != Crashed ==> dir == if temp in old(dir).names then Unlink(old(dir), temp) else old(dir)
    {
      if temp !in dir.names {
        return Failed(error);
      }
      if budget == 0 {
        return Crashed;
      }
      budget := budget - 1;
      dir := Unlink(dir, temp);
      return Failed(error);
    }

    /** Publish a row; `counts` are the byte counts of the successive writes.  Only the manifest-row
        variant looks for the target before it creates its temp file. */
    method Publish(row: Row, looksFirst: bool, counts: seq<nat>) returns (outcome: Published)
      requires Usable(dir, row)
      modifies this
      ensures Left(old(dir), dir, row)
      ensures outcome == Done ==>
                row.temp !in old(dir).names && row.target !in old(dir).names && dir == Complete(old(dir), row)
      ensures outcome.Failed? ==>
                dir == if row.temp in old(dir).names then Unlink(old(dir), row.temp) else old(dir)
      ensures looksFirst && row.target in old(dir).names ==> Untouched(old(dir), dir, row)
      ensures outcome == Crashed ==> budget == 0 || Device.Delivered(counts, |row.payload|).1.Halted?
      ensures outcome.Failed? ==> FailureCause(old(dir), row, counts, outcome.error)
    {
      ghost var start := dir;
      if looksFirst && row.target in dir.names {
        outcome := Discard(row.temp, TargetPreexists);
        return;
      }
      if row.temp in dir.names {
        outcome := Discard(row.temp, TempExists);
        return;
      }
      if budget == 0 {
        return Crashed;
      }
      budget := budget - 1;
      dir := Create(dir, row.temp, row.ino, 0, if looksFirst then 0x180 else row.mode);
      var ready := Prepare(row, counts, start);
      if ready == Crashed {
        return Crashed;
      }
      if ready.Failed? {
        DraftDiscarded(start, dir, row);
        outcome := Discard(row.temp, ready.error);
        return;
      }
      if row.target in dir.names {
        DraftDiscarded(start, dir, row);
        outcome := Discard(row.temp, TargetPreexists);
        return;
      }
      outcome := Reveal(row, start);
    }

    /** Link the finished temp file under its target name, then drop the temp name. */
    method Reveal(row: Row, ghost start: Directory) returns (outcome: Published)
      requires Usable(start, row) && row.temp !in start.names && row.target !in start.names
      requires dir == Draft(start, row, Exact(row))
      modifies this
      ensures Left(start, dir, row)
      ensures (outcome == Crashed && budget == 0) || (outcome == Done && dir == Complete(start, row))
    {
      if budget == 0 {
        return Crashed;
      }
      budget := budget - 1;
      RevealSteps(start, row);
      dir := Link(dir, row.temp, row.target);
      if budget == 0 {
        return Crashed;
      }
      budget := budget - 1;
      dir := Unlink(dir, row.temp);
      return Done;
    }

    /** Give the temp file its owner, its mode and its content. */
    method Prepare(row: Row, counts: seq<nat>, ghost start: Directory) returns (outcome: Published)
      requires Usable(start, row) && IsDraft(start, dir, row) && dir.inodes[row.ino].content == []
      modifies this
      ensures IsDraft(start, dir, row)
      ensures outcome == Done ==> dir == Draft(start, row, Exact(row))
      ensures outcome.Failed? ==> outcome.error == ZeroWrite && Device.Delivered(counts, |row.payload|).1.ZeroWrite?
      ensures outcome == Crashed ==> budget == 0 || Device.Delivered(counts, |row.payload|).1.Halted?
    {
      if budget == 0 {
        return Crashed;
      }
      budget := budget - 1;
      SetFile(row, start, dir.inodes[row.ino].(uid := row.uid));
      if budget == 0 {
        return Crashed;
      }
      budget := budget - 1;
      SetFile(row, start, dir.inodes[row.ino].(mode := row.mode));
      var offset, call := 0, 0;
      while offset < |row.payload|
        invariant offset <= |row.payload| && call <= |counts|
        invariant dir == Draft(start, row, File(row.payload[..offset], row.uid, row.mode, 1))
        invariant Device.Delivered(counts, |row.payload|).1
               == Device.Delivered(counts[call..], |row.payload| - offset).1
        decreases |counts| - call
      {
        if call == |counts| || budget == 0 {
          return Crashed;
        }
        budget := budget - 1;
        var count := if counts[call] <= |row.payload| - offset then counts[call] else |row.payload| - offset;
        assert counts[call..][1..] == counts[call + 1..];
        call := call + 1;
        if count == 0 {
          return Failed(ZeroWrite);
        }
        offset := offset + count;
        SetFile(row, start, dir.inodes[row.ino].(content := row.payload[..offset]));
      }
      assert row.payload[..offset] == row.payload;
      return Done;
    }

    method SetFile(row: Row, ghost start: Directory, file: File)
      requires row.ino in dir.inodes && dir == Draft(start, row, dir.inodes[row.ino])
      modifies this`dir
      ensures dir == Draft(start, row, file)
    {
      dir := Directory(dir.names, dir.inodes[row.ino := file]);
    }

    /** Recovery's reconciliation of one row whose intent says the target was absent. */
    method ReconcileRow(row: Row) returns (result: Option<Result<Reconciliation, ReconcileError>>)
      requires WellFormed(dir)
      modifies this
      ensures result.Some? ==> (result.value, dir) == Reconcile(old(dir), row)
      ensures result.None? ==> old(budget) < 2 && (dir == old(dir) || dir == Reconcile(old(dir), row).1)
    {
      var cleaned := row.temp in dir.names;
      if cleaned {
        var cleared := ClearTemp(dir, row);
        if cleared.Err? {
          return Some(Err(cleared.error));
        }
        if budget == 0 {
          return None;
        }
        budget := budget - 1;
        dir := cleared.value;
      }
      if budget == 0 {
        return None;
      }
      return Some(Classify(dir, row, cleaned));
    }

    /** A whole life of one row: a publication stopped anywhere, then reconciliations stopped
        anywhere, until one of them completes or the budgets run out.  It ends all or nothing, except
        that a draft whose owner the intent does not declare is refused and stays. */
    method PublishAndRecover(row: Row, looksFirst: bool, counts: seq<nat>, budgets: seq<nat>)
      returns (result: Option<Result<Reconciliation, ReconcileError>>)
      requires Usable(dir, row) && row.target !in dir.names && row.temp !in dir.names
      modifies this
      ensures result.None? ==> Left(old(dir), dir, row)
      ensures result.Some? ==> Resolved(old(dir), dir, row, result.value)
      ensures result.Some? && Recoverable(row) ==> AllOrNothing(old(dir), dir, row, result.value)
      ensures result.None? ==> forall i :: 0 <= i < |budgets| ==> budgets[i] < 2
    {
      ghost var start := dir;
      var outcome := Publish(row, looksFirst, counts);
      var run := 0;
      result := None;
      while run < |budgets| && result.None?
        invariant Left(start, dir, row)
        invariant result.Some? ==> Resolved(start, dir, row, result.value)
        invariant run <= |budgets| && (result.None? ==> forall i :: 0 <= i < run ==> budgets[i] < 2)
        decreases |budgets| - run
      {
        LeftIsWellFormed(start, dir, row);
        StoppedPublicationReconciles(start, dir, row);
        budget := budgets[run];
        result := ReconcileRow(row);
        run := run + 1;
      }
    }
  }

  lemma DraftDiscarded(start: Directory, draft: Directory, row: Row)
    requires Usable(start, row) && IsDraft(start, draft, row)
    ensures WellFormed(draft) && row.temp in draft.names && Unlink(draft, row.temp) == start
  {
    CreateWellFormed(start, row.temp, row.ino, draft.inodes[row.ino]);
    assert start.names[row.temp := row.ino] - {row.temp} == start.names;
    assert start.inodes[row.ino := draft.inodes[row.ino]] - {row.ino} == start.inodes;
  }

  // ---------------------------------------------------------------- what a reconciliation answers

  /** There is no temp name; or it is the only link of a file that root or the declared owner owns, and the
      target is missing; or it and the target are the two links of one file. */
  ghost predicate TempUnambiguous(dir: Directory, row: Row)
    requires WellFormed(dir)
  {
    || row.temp !in dir.names
    || (&& row.target !in dir.names && dir.inodes[dir.names[row.temp]].links == 1
        && (dir.inodes[dir.names[row.temp]].uid == 0
            || (row.declared && dir.inodes[dir.names[row.temp]].uid == row.uid)))
    || (&& row.target in dir.names && dir.names[row.target] == dir.names[row.temp]
        && dir.inodes[dir.names[row.temp]].links == 2)
  }

  /** The target's file is the row's payload with its owner and mode, and has no link beside its own name
      and the temp name. */
  ghost predicate TargetIsRow(dir: Directory, row: Row)
    requires WellFormed(dir) && row.target in dir.names
  {
    var file := dir.inodes[dir.names[row.target]];
    && file.content == row.payload && file.uid == row.uid && file.mode == row.mode
    && file.links == if row.temp in dir.names then 2 else 1
  }

  /** The five answers, for any directory: each with the names, links, owner and content that call for it. */
  lemma ReconcileIff(dir: Directory, row: Row)
    requires WellFormed(dir) && row.target != row.temp
    ensures var verdict := Reconcile(dir, row).0;
      && (verdict == Err(TempInvalid) <==> !TempUnambiguous(dir, row))
      && (verdict == Err(PostimageMismatch) <==>
            TempUnambiguous(dir, row) && row.target in dir.names && !TargetIsRow(dir, row))
      && (verdict == Ok(OwnedApplied) <==>
            TempUnambiguous(dir, row) && row.target in dir.names && TargetIsRow(dir, row))
      && (verdict == Ok(Cleaned) <==>
            TempUnambiguous(dir, row) && row.target !in dir.names && row.temp in dir.names)
      && (verdict == Ok(NotApplied) <==> row.target !in dir.names && row.temp !in dir.names)
  {
  }

  /** And the directory it leaves: the same without the temp name when that is unambiguous, with every other
      name still naming its file, whose content, owner and mode are as before. */
  lemma ReconcileLeaves(dir: Directory, row: Row)
    requires WellFormed(dir) && row.target != row.temp
    ensures var after := Reconcile(dir, row).1;
      && WellFormed(after)
      && (!TempUnambiguous(dir, row) ==> after == dir)
      && (TempUnambiguous(dir, row) ==> after.names == dir.names - {row.temp})
      && forall name :: name in after.names ==>
           && after.inodes[after.names[name]].content == dir.inodes[dir.names[name]].content
           && after.inodes[after.names[name]].uid == dir.inodes[dir.names[name]].uid
           && after.inodes[after.names[name]].mode == dir.inodes[dir.names[name]].mode
  {
    if TempUnambiguous(dir, row) && row.temp in dir.names {
      UnlinkWellFormed(dir, row.temp);
    }
  }

  // ---------------------------------------------------------------- what the two together guarantee

  /** Neither name and no ownership, or the complete file under its name alone and ownership. */
  ghost predicate AllOrNothing(start: Directory, end: Directory, row: Row,
                               verdict: Result<Reconciliation, ReconcileError>)
  {
    && verdict.Ok?
    && (if verdict.value == OwnedApplied then end == Complete(start, row) else end == start)
  }

  /** The intent declares the owner, or there is nothing to declare. */
  predicate Recoverable(row: Row) {
    row.uid == 0 || row.declared
  }

  /** A draft that already has the row's owner, which the intent does not declare. */
  ghost predicate Stuck(start: Directory, end: Directory, row: Row) {
    IsDraft(start, end, row) && end.inodes[row.ino].uid !in TempOwners(row)
  }

  ghost predicate Resolved(start: Directory, end: Directory, row: Row,
                           verdict: Result<Reconciliation, ReconcileError>)
  {
    if Stuck(start, end, row) then verdict == Err(TempInvalid) else AllOrNothing(start, end, row, verdict)
  }

  lemma StoppedPublicationReconciles(start: Directory, end: Directory, row: Row)
    requires Usable(start, row) && row.target !in start.names && row.temp !in start.names
    requires Left(start, end, row) && WellFormed(end)
    ensures Resolved(start, Reconcile(end, row).1, row, Reconcile(end, row).0)
    ensures Stuck(start, end, row) <==> Stuck(start, Reconcile(end, row).1, row)
    ensures Reconcile(end, row).0 == Ok(OwnedApplied) <==> row.target in end.names
    ensures Left(start, Reconcile(end, row).1, row)
  {
    if IsDraft(start, end, row) {
      DraftReconciles(start, end, row);
    } else {
      RevealSteps(start, row);
    }
  }

  lemma DraftReconciles(start: Directory, end: Directory, row: Row)
    requires Usable(start, row) && row.target !in start.names && IsDraft(start, end, row) && WellFormed(end)
    ensures Reconcile(end, row) == if Stuck(start, end, row) then (Err(TempInvalid), end) else (Ok(Cleaned), start)
  {
    DraftDiscarded(start, end, row);
  }

  /** Every stop reconciles to all or nothing exactly when the temp file never has an owner that the
      intent does not declare.  The one publication that fails this is the anchor's genesis log, which
      is written for the anchor's own user under an intent without an expected row. */
  lemma PublicationRecoversIff(start: Directory, row: Row)
    requires Usable(start, row) && row.target !in start.names && row.temp !in start.names
    ensures (forall end :: Left(start, end, row) && WellFormed(end) ==>
               AllOrNothing(start, Reconcile(end, row).1, row, Reconcile(end, row).0))
       <==> Recoverable(row)
  {
    if Recoverable(row) {
      forall end | Left(start, end, row) && WellFormed(end)
        ensures AllOrNothing(start, Reconcile(end, row).1, row, Reconcile(end, row).0)
      {
        StoppedPublicationReconciles(start, end, row);
      }
    } else {
      var end := Draft(start, row, File([], row.uid, row.mode, 1));
      assert IsDraft(start, end, row);
      LeftIsWellFormed(start, end, row);
      assert Reconcile(end, row) == (Err(TempInvalid), end);
    }
  }

  /** A stop right behind the change of owner: the genesis log of the anchor can then be neither
      published nor reconciled. */
  lemma StuckGenesisExample()
    ensures var row := Row("log", ".log", 2, [7], 497, 0x180, false);
            var start := Directory(map[], map[]);
            var end := Directory(map[".log" := 2], map[2 := File([], 497, 0x180, 1)]);
            && Usable(start, row) && Left(start, end, row) && WellFormed(end)
            && Reconcile(end, row) == (Err(TempInvalid), end)
  {
    var row := Row("log", ".log", 2, [7], 497, 0x180, false);
    var start := Directory(map[], map[]);
    var end := Directory(map[".log" := 2], map[2 := File([], 497, 0x180, 1)]);
    assert end == Draft(start, row, File([], 497, 0x180, 1));
    LeftIsWellFormed(start, end, row);
  }

  /** Whatever the directory holds, only a complete file with the row's owner and mode and a single
      link is ever adopted, and the temp name is gone by then. */
  lemma PartialIsNeverAdopted(dir: Directory, row: Row)
    requires WellFormed(dir) && row.target != row.temp
    ensures var (verdict, after) := Reconcile(dir, row);
            verdict == Ok(OwnedApplied) ==>
              && row.target in after.names && after.names[row.target] in after.inodes
              && after.inodes[after.names[row.target]] == Exact(row)
              && row.temp !in after.names
  {
  }

  // ---------------------------------------------------------------- when ownership is claimed falsely

  /** The row is already in place, exactly, before the publication starts. */
  predicate AlreadyInPlace(start: Directory, row: Row)
    requires WellFormed(start)
  {
    row.target in start.names && FileAt(start, row.target) == Exact(row)
  }

  /** The exact file with a second link, and that link is the temp name. */
  predicate SharedWithTemp(start: Directory, row: Row)
    requires WellFormed(start)
  {
    && row.temp in start.names && row.target in start.names
    && start.names[row.temp] == start.names[row.target]
    && FileAt(start, row.target) == Exact(row).(links := 2)
  }

  /** What is claimed as owned is the inode that this publication created. */
  ghost predicate OwnershipTruthful(start: Directory, row: Row)
    requires WellFormed(start)
  {
    forall end :: Left(start, end, row) && WellFormed(end) && Reconcile(end, row).0 == Ok(OwnedApplied) ==>
      row.target in end.names && end.names[row.target] == row.ino
  }

  /** The intent of a file always records its target as absent.  Whatever the directory holds, the
      reconciler tells the truth about ownership exactly when the exact file was not there already,
      alone or sharing its inode with the temp name. */
  lemma OwnershipTruthfulIff(start: Directory, row: Row)
    requires Usable(start, row)
    ensures OwnershipTruthful(start, row) <==> !AlreadyInPlace(start, row) && !SharedWithTemp(start, row)
  {
    if AlreadyInPlace(start, row) || SharedWithTemp(start, row) {
      ClaimedFalsely(start, row);
    } else {
      forall end | Left(start, end, row) && WellFormed(end) && Reconcile(end, row).0 == Ok(OwnedApplied)
        ensures row.target in end.names && end.names[row.target] == row.ino
      {
        if row.temp in start.names {
          TempInTheWayNotAdopted(start, end, row);
        } else if row.target in start.names {
          ExistingTargetNotAdopted(start, end, row);
        }
      }
    }
  }

  /** The stop that makes the reconciler claim what was there before: none at all, or one behind the
      removal of a temp file that was in the way. */
  lemma ClaimedFalsely(start: Directory, row: Row)
    requires Usable(start, row) && (AlreadyInPlace(start, row) || SharedWithTemp(start, row))
    ensures !OwnershipTruthful(start, row)
  {
    if row.temp in start.names && AlreadyInPlace(start, row) {
      if start.names[row.temp] == start.names[row.target] {
        SharedInode(start, row.temp, row.target);
      }
      var end := Unlink(start, row.temp);
      UnlinkWellFormed(start, row.temp);
      assert Left(start, end, row) && Reconcile(end, row).0 == Ok(OwnedApplied);
    } else {
      assert Left(start, start, row) && Reconcile(start, row).0 == Ok(OwnedApplied);
    }
  }

  lemma TempInTheWayNotAdopted(start: Directory, end: Directory, row: Row)
    requires Usable(start, row) && row.temp in start.names
    requires !AlreadyInPlace(start, row) && !SharedWithTemp(start, row)
    requires Left(start, end, row) && WellFormed(end)
    ensures Reconcile(end, row).0 != Ok(OwnedApplied)
  {
  }

  lemma ExistingTargetNotAdopted(start: Directory, end: Directory, row: Row)
    requires Usable(start, row) && row.temp !in start.names && row.target in start.names
    requires Left(start, end, row) && WellFormed(end)
    ensures Reconcile(end, row).0 == Ok(OwnedApplied) <==> end == start && AlreadyInPlace(start, row)
    ensures IsDraft(start, end, row) ==> Reconcile(end, row) == (Err(TempInvalid), end)
  {
    if IsDraft(start, end, row) {
      assert FileAt(end, row.temp).links == 1;
    }
  }

  /** Two rows that were there before and were never written are claimed as owned. */
  lemma FalseOwnershipExample()
    ensures var row := Row("a", ".a", 2, [7], 0, 0x124, true);
            var start := Directory(map["a" := 1], map[1 := Exact(row)]);
            Usable(start, row) && Reconcile(start, row) == (Ok(OwnedApplied), start)
    ensures var row := Row("a", ".a", 2, [7], 0, 0x124, true);
            var start := Directory(map["a" := 1, ".a" := 1], map[1 := Exact(row).(links := 2)]);
            && Usable(start, row) && !AlreadyInPlace(start, row)
            && Reconcile(start, row).0 == Ok(OwnedApplied)
  {
    var row := Row("a", ".a", 2, [7], 0, 0x124, true);
    var single := Directory(map["a" := 1], map[1 := Exact(row)]);
    assert NamesOf(single, 1) == {"a"};
    var shared := Directory(map["a" := 1, ".a" := 1], map[1 := Exact(row).(links := 2)]);
    assert NamesOf(shared, 1) == {"a", ".a"};
  }
}
