/** Activating the prepared authority by link and unlink, and classifying whatever a crash left of it. */
module AuthorityCas {
  import opened Wrappers
  import opened Bytes
  import opened NameSpace

  /** Validation and hash of an authority document, taken as one parameter; `None` does not validate. */
  type AuthorityHash = seq<byte> -> Option<string>

  const READ_ONLY: nat := 0x124

  /** What the journalled intent froze: the candidate's inode and the hash of its content. */
  datatype Intent = Intent(candidate: string, active: string, ino: nat, authority: string)

  datatype ActivationError = CandidateInvalid | AlreadyActive

  datatype Activation = Activated | Failed(error: ActivationError) | Crashed

  datatype Reconciliation = NotApplied | Cleaned | OwnedApplied

  /** The guarded read of an authority file: a single link, root's, read-only, and valid. */
  predicate Readable(hash: AuthorityHash, file: File, links: nat) {
    file.uid == 0 && file.mode == READ_ONLY && file.links == links && hash(file.content).Some?
  }

  predicate Prepared(hash: AuthorityHash, dir: Directory, intent: Intent)
    requires WellFormed(dir)
  {
    && intent.candidate != intent.active
    && intent.candidate in dir.names && intent.active !in dir.names
    && dir.names[intent.candidate] == intent.ino
    && Readable(hash, FileAt(dir, intent.candidate), 1)
    && hash(FileAt(dir, intent.candidate).content) == Some(intent.authority)
  }

  ghost function Linked(start: Directory, intent: Intent): Directory
    requires WellFormed(start) && intent.candidate in start.names
  {
    Link(start, intent.candidate, intent.active)
  }

  ghost function Active(start: Directory, intent: Intent): Directory
    requires WellFormed(start) && intent.candidate in start.names
  {
    Directory((start.names - {intent.candidate})[intent.active := start.names[intent.candidate]], start.inodes)
  }

  /** Every state a stopped activation can leave. */
  ghost predicate Left(start: Directory, end: Directory, intent: Intent)
    requires WellFormed(start) && intent.candidate in start.names
  {
    end == start || end == Linked(start, intent) || end == Active(start, intent)
  }

  /** The classification of one directory state: its verdict and the directory it leaves. */
  function Classify(hash: AuthorityHash, dir: Directory, intent: Intent): (Result<Reconciliation, ()>, Directory)
    requires WellFormed(dir)
  {
    if intent.active !in dir.names then
      if intent.candidate in dir.names && dir.names[intent.candidate] == intent.ino
         && FileAt(dir, intent.candidate).links == 1
      then (Ok(NotApplied), dir)
      else (Err(()), dir)
    else if intent.candidate in dir.names then
      if dir.names[intent.candidate] == dir.names[intent.active] == intent.ino
         && Readable(hash, FileAt(dir, intent.active), 2)
         && hash(FileAt(dir, intent.active).content) == Some(intent.authority)
      then (Ok(Cleaned), Unlink(dir, intent.active))
      else (Err(()), dir)
    else if dir.names[intent.active] == intent.ino && Readable(hash, FileAt(dir, intent.active), 1)
            && hash(FileAt(dir, intent.active).content) == Some(intent.authority)
    then (Ok(OwnedApplied), dir)
    else (Err(()), dir)
  }

  class Registry {
    const hash: AuthorityHash
    var dir: Directory
    /** How many more calls take effect before the process stops. */
    var budget: nat

    constructor (hash: AuthorityHash, dir: Directory, budget: nat)
      ensures this.hash == hash && this.dir == dir && this.budget == budget
    {
      this.hash := hash;
      this.dir := dir;
      this.budget := budget;
    }

    /** The compare-and-swap: active must be absent, then link, then unlink. */
    method Activate(intent: Intent) returns (outcome: Activation)
      requires WellFormed(dir) && intent.candidate != intent.active
      modifies this
      ensures intent.candidate in old(dir).names ==> Left(old(dir), dir, intent)
      ensures outcome.Failed? <==>
                || intent.candidate !in old(dir).names
                || !Readable(hash, FileAt(old(dir), intent.candidate), 1)
                || intent.active in old(dir).names
      ensures outcome.Failed? ==>
                (outcome.error == AlreadyActive <==>
                   intent.candidate in old(dir).names && Readable(hash, FileAt(old(dir), intent.candidate), 1))
      ensures outcome == Crashed ==> budget == 0
      ensures outcome == Activated ==> dir == Active(old(dir), intent)
      ensures outcome.Failed? ==> dir == old(dir)
      ensures Prepared(hash, old(dir), intent) ==> !outcome.Failed?
    {
      if intent.candidate !in dir.names || !Readable(hash, FileAt(dir, intent.candidate), 1) {
        return Failed(CandidateInvalid);
      }
      if intent.active in dir.names {
        return Failed(AlreadyActive);
      }
      if budget == 0 {
        return Crashed;
      }
      ghost var start := dir;
      budget := budget - 1;
      ActivationSteps(dir, intent);
      dir := Link(dir, intent.candidate, intent.active);
      if budget == 0 {
        return Crashed;
      }
      budget := budget - 1;
      dir := Unlink(dir, intent.candidate);
      return Activated;
    }

    /** Recovery's classification, which may itself be stopped before or after its one call. */
    method ClassifyActivation(intent: Intent) returns (result: Option<Result<Reconciliation, ()>>)
      requires WellFormed(dir)
      modifies this
      ensures result.Some? ==> (result.value, dir) == Classify(hash, old(dir), intent)
      ensures result.None? ==> old(budget) < 2 && (dir == old(dir) || dir == Classify(hash, old(dir), intent).1)
    {
      var (verdict, after) := Classify(hash, dir, intent);
      if verdict == Ok(Cleaned) {
        if budget == 0 {
          return None;
        }
        budget := budget - 1;
        dir := after;
      }
      if budget == 0 {
        return None;
      }
      return Some(verdict);
    }

    /** A whole life of one activation: stopped anywhere, then classified by runs stopped anywhere. */
    method ActivateAndRecover(intent: Intent, budgets: seq<nat>) returns (result: Option<Result<Reconciliation, ()>>)
      requires WellFormed(dir) && Prepared(hash, dir, intent)
      modifies this
      ensures Left(old(dir), dir, intent)
      ensures result.Some? ==> Settled(old(dir), dir, intent, result.value)
      ensures result.None? ==> forall i :: 0 <= i < |budgets| ==> budgets[i] < 2
    {
      ghost var start := dir;
      var outcome := Activate(intent);
      var run := 0;
      result := None;
      while run < |budgets| && result.None?
        invariant Left(start, dir, intent)
        invariant result.Some? ==> Settled(start, dir, intent, result.value)
        invariant run <= |budgets| && (result.None? ==> forall i :: 0 <= i < run ==> budgets[i] < 2)
        decreases |budgets| - run
      {
        StoppedActivationClassifies(hash, start, dir, intent);
        budget := budgets[run];
        result := ClassifyActivation(intent);
        run := run + 1;
      }
    }
  }

  /** The swap happened and is owned, or it did not happen and nothing is owned. */
  ghost predicate Settled(start: Directory, end: Directory, intent: Intent, verdict: Result<Reconciliation, ()>)
    requires WellFormed(start) && intent.candidate in start.names
  {
    && verdict.Ok?
    && (if verdict.value == OwnedApplied then end == Active(start, intent) else end == start)
  }

  /** The two calls of an activation. */
  lemma ActivationSteps(start: Directory, intent: Intent)
    requires WellFormed(start) && intent.candidate in start.names && intent.active !in start.names
    requires FileAt(start, intent.candidate).links == 1
    ensures WellFormed(Linked(start, intent))
    ensures Unlink(Linked(start, intent), intent.candidate) == Active(start, intent)
    ensures WellFormed(Active(start, intent))
  {
    LinkWellFormed(start, intent.candidate, intent.active);
    UnlinkWellFormed(Linked(start, intent), intent.candidate);
    assert Unlink(Linked(start, intent), intent.candidate).names == Active(start, intent).names;
    assert Unlink(Linked(start, intent), intent.candidate).inodes == start.inodes;
  }

  /** Every state a stopped activation leaves is classified, and only the finished one as owned; the
      half-linked one is taken back to the candidate. */
  lemma StoppedActivationClassifies(hash: AuthorityHash, start: Directory, end: Directory, intent: Intent)
    requires WellFormed(start) && Prepared(hash, start, intent) && Left(start, end, intent)
    ensures WellFormed(end)
    ensures Settled(start, Classify(hash, end, intent).1, intent, Classify(hash, end, intent).0)
    ensures Classify(hash, end, intent).0 == Ok(OwnedApplied) <==> end == Active(start, intent)
    ensures Classify(hash, end, intent).0 == Ok(Cleaned) <==> end == Linked(start, intent)
    ensures Left(start, Classify(hash, end, intent).1, intent)
  {
    ActivationSteps(start, intent);
    if end == Linked(start, intent) {
      var after := Unlink(end, intent.active);
      assert after.names == start.names;
      assert after.inodes == start.inodes;
    }
  }

  /** The file behind a name is the prepared authority: root's, read-only, a valid document with the frozen
      hash, in the frozen inode, with so many links. */
  ghost predicate FrozenAt(hash: AuthorityHash, dir: Directory, intent: Intent, name: string, links: nat)
    requires WellFormed(dir) && name in dir.names
  {
    && dir.names[name] == intent.ino
    && dir.inodes[intent.ino].links == links
    && dir.inodes[intent.ino].uid == 0 && dir.inodes[intent.ino].mode == 0x124
    && hash(dir.inodes[intent.ino].content) == Some(intent.authority)
  }

  /** The four answers, for any directory: each with the names, links, owner and content that call for it.
      A candidate that was not linked yet is known by its inode alone. */
  lemma ClassifyIff(hash: AuthorityHash, dir: Directory, intent: Intent)
    requires WellFormed(dir) && intent.candidate != intent.active
    ensures var verdict := Classify(hash, dir, intent).0;
      && (verdict == Ok(NotApplied) <==>
            && intent.active !in dir.names && intent.candidate in dir.names
            && dir.names[intent.candidate] == intent.ino && dir.inodes[intent.ino].links == 1)
      && (verdict == Ok(Cleaned) <==>
            && intent.active in dir.names && intent.candidate in dir.names
            && dir.names[intent.candidate] == intent.ino && FrozenAt(hash, dir, intent, intent.active, 2))
      && (verdict == Ok(OwnedApplied) <==>
            && intent.active in dir.names && intent.candidate !in dir.names
            && FrozenAt(hash, dir, intent, intent.active, 1))
      && (Classify(hash, dir, intent).1 == dir || verdict == Ok(Cleaned))
  {
  }

  /** On any directory at all: a verdict leaves exactly one of the two names, the one with the frozen
      inode, and it is the active name exactly when the verdict is ownership. */
  lemma VerdictLeavesOneName(hash: AuthorityHash, dir: Directory, intent: Intent)
    requires WellFormed(dir) && intent.candidate != intent.active
    ensures var (verdict, after) := Classify(hash, dir, intent);
      verdict.Ok? ==>
        && (intent.active in after.names <==> verdict == Ok(OwnedApplied))
        && (intent.candidate in after.names <==> verdict != Ok(OwnedApplied))
        && WellFormed(after)
        && var name := if verdict == Ok(OwnedApplied) then intent.active else intent.candidate;
           after.names[name] == intent.ino && FileAt(after, name).links == 1
  {
    if intent.active in dir.names {
      UnlinkWellFormed(dir, intent.active);
    }
  }
}
