/** The directory roster of an installation, and the order in which it is created. */
module Directories {

  /** An absolute path as its components. */
  type Path = seq<string>

  const ROOT: Path := ["Library", "Application Support", "MetisModel1"]
  const LOGS: Path := ["Library", "Logs", "MetisModel1"]
  const RUN: Path := ["var", "run", "metis-model1"]

  const LAUNCH_DAEMONS: Path := ["Library", "LaunchDaemons"]
  const HELPER: Path := ["Library", "PrivilegedHelperTools", "com.metis.model1.w3-launcher"]

  /** Directories that macOS provides. */
  const SYSTEM: set<Path> :=
    {["Library", "Application Support"], ["Library", "Logs"], ["var", "run"], ["Library", "LaunchDaemons"],
     ["Library", "PrivilegedHelperTools"]}

  /** The names directly below the root that the fixed table lists. */
  const TOP: seq<string> := ["ledger", "install", "manifest", "receipts", "keys", "registry", "publication", "runs"]

  /** The fixed table's directories two levels below the root. */
  const NESTED: seq<(string, string)> :=
    [("broker", "config"), ("anchor", "config"), ("install", "rollback-archive"), ("state", "anchor")]

  const LOG_NAMES: seq<string> := ["broker", "w3-anchor"]

  predicate Fixed(p: Path) {
    || p == ROOT
    || (exists i :: 0 <= i < |TOP| && p == ROOT + [TOP[i]])
    || (exists i :: 0 <= i < |NESTED| && p == ROOT + [NESTED[i].0, NESTED[i].1])
    || p == LOGS
    || (exists i :: 0 <= i < |LOG_NAMES| && p == LOGS + [LOG_NAMES[i]])
    || p == RUN
  }

  function Parent(p: Path): Path
    requires p != []
  {
    p[..|p| - 1]
  }

  /** `p` is a directory between the root and an entry. */
  predicate Above(p: Path, entry: Path) {
    ROOT <= p < entry
  }

  predicate InRoster(entries: seq<Path>, p: Path) {
    Fixed(p) || exists i :: 0 <= i < |entries| && Above(p, entries[i])
  }

  /** Collect the parents of every entry below the root, from the entry upwards. */
  method EntryDirectories(entries: seq<Path>) returns (paths: set<Path>)
    ensures forall p :: p in paths <==> exists i :: 0 <= i < |entries| && Above(p, entries[i])
  {
    paths := {};
    for i := 0 to |entries|
      invariant forall p :: p in paths <==> exists j :: 0 <= j < i && Above(p, entries[j])
    {
      var entry := entries[i];
      if ROOT < entry {
        ghost var before := paths;
        var parent := Parent(entry);
        paths := paths + {parent};
        LongestPrefix(entry);
        while parent != ROOT
          invariant ROOT <= parent < entry
          invariant forall p :: p in paths <==> p in before || (parent <= p && Above(p, entry))
          decreases |parent|
        {
          ShorterPrefix(parent, entry);
          parent := Parent(parent);
          paths := paths + {parent};
        }
      }
    }
  }

  lemma LongestPrefix(entry: Path)
    requires ROOT < entry
    ensures forall p :: Parent(entry) <= p && Above(p, entry) <==> p == Parent(entry)
  {
    forall p | Parent(entry) <= p && Above(p, entry)
      ensures p == Parent(entry)
    {
      assert p == entry[..|p|];
    }
  }

  lemma ShorterPrefix(parent: Path, entry: Path)
    requires ROOT < parent < entry
    ensures ROOT <= Parent(parent) < entry
    ensures forall p :: Parent(parent) <= p && Above(p, entry) <==> p == Parent(parent) || (parent <= p && Above(p, entry))
  {
    forall p | Parent(parent) <= p && Above(p, entry) && p != Parent(parent)
      ensures parent <= p
    {
      assert p[..|parent|] == entry[..|parent|] == parent;
    }
  }

  // ---------------------------------------------------------------- installing one file

  datatype Refusal = NotManifested(directory: Path) | ParentMissing(directory: Path) | OutsideFixedRoot

  datatype Ensured = Ready | Refused(reason: Refusal)

  /** Targets next to files of the system, whose directory must be there already. */
  predicate SystemTarget(path: Path) {
    LAUNCH_DAEMONS < path || path == HELPER
  }

  ghost function DirectoriesTo(path: Path, k: nat): set<Path>
    requires k <= |path|
  {
    set j | |ROOT| <= j < k :: path[..j]
  }

  /** Before a file is installed every directory from the root down to it is looked up in the roster and
      created if it is missing.  The first one that is not listed stops it, with those above it made. */
  method EnsureParent(path: Path, roster: set<Path>, existing: set<Path>) returns (result: Ensured, after: set<Path>)
    ensures ROOT < path ==>
              match result
              case Ready =>
                && (forall k :: |ROOT| <= k < |path| ==> path[..k] in roster)
                && Parent(ROOT) in existing && after == existing + DirectoriesTo(path, |path|)
              case Refused(NotManifested(p)) =>
                && ROOT <= p < path && p !in roster && (forall k :: |ROOT| <= k < |p| ==> path[..k] in roster)
                && (p == ROOT || Parent(ROOT) in existing) && after == existing + DirectoriesTo(path, |p|)
              case Refused(ParentMissing(p)) => p == Parent(ROOT) && p !in existing && ROOT in roster && after == existing
              case Refused(OutsideFixedRoot) => false
    ensures !(ROOT < path) && SystemTarget(path) ==>
              after == existing && result == if Parent(path) in existing then Ready else Refused(ParentMissing(Parent(path)))
    ensures !(ROOT < path) && !SystemTarget(path) ==> after == existing && result == Refused(OutsideFixedRoot)
  {
    after := existing;
    if ROOT < path {
      for k := |ROOT| to |path|
        invariant forall j :: |ROOT| <= j < k ==> path[..j] in roster
        invariant after == existing + DirectoriesTo(path, k)
        invariant k > |ROOT| ==> Parent(ROOT) in existing && path[..k - 1] in after
      {
        if path[..k] !in roster {
          return Refused(NotManifested(path[..k])), after;
        }
        assert k == |ROOT| ==> path[..k] == ROOT;
        assert k > |ROOT| ==> path[..k - 1] == Parent(path[..k]);
        if Parent(path[..k]) !in after {
          assert k == |ROOT| && after == existing;
          return Refused(ParentMissing(Parent(path[..k]))), after;
        }
        after := after + {path[..k]};
      }
      return Ready, after;
    }
    if SystemTarget(path) {
      return if Parent(path) in existing then Ready else Refused(ParentMissing(Parent(path))), after;
    }
    return Refused(OutsideFixedRoot), after;
  }

  /** No install entry ever meets an unrostered ancestor. */
  lemma EntryParentsRostered(entries: seq<Path>, i: nat, roster: set<Path>)
    requires i < |entries| && ROOT < entries[i]
    requires forall p :: p in roster <==> InRoster(entries, p)
    ensures forall k :: |ROOT| <= k < |entries[i]| ==> entries[i][..k] in roster
  {
    forall k | |ROOT| <= k < |entries[i]|
      ensures entries[i][..k] in roster
    {
      assert Above(entries[i][..k], entries[i]);
    }
  }

  // ---------------------------------------------------------------- creating the roster

  predicate ByDepth(order: seq<Path>) {
    forall i, j :: 0 <= i < j < |order| ==> |order[i]| <= |order[j]|
  }

  predicate Closed(order: seq<Path>, system: set<Path>) {
    forall i :: 0 <= i < |order| ==> order[i] != [] && (Parent(order[i]) in system || Parent(order[i]) in order)
  }

  /** Create the directories in the given order; one whose parent is missing stops the step. */
  method CreateRoster(order: seq<Path>, system: set<Path>) returns (ok: bool, made: set<Path>)
    requires ByDepth(order) && forall i :: 0 <= i < |order| ==> order[i] != []
    ensures ok <==> Closed(order, system)
    ensures ok ==> forall p :: p in made <==> p in system || p in order
  {
    made := system;
    for i := 0 to |order|
      invariant forall p :: p in made <==> p in system || p in order[..i]
      invariant forall j :: 0 <= j < i ==> Parent(order[j]) in system || Parent(order[j]) in order
    {
      if Parent(order[i]) !in made {
        ParentComesFirst(order, i);
        return false, made;
      }
      made := made + {order[i]};
      assert order[..i + 1] == order[..i] + [order[i]];
    }
    assert order[..|order|] == order;
    return true, made;
  }

  /** In depth order a parent that is listed at all is listed before its children. */
  lemma ParentComesFirst(order: seq<Path>, i: nat)
    requires ByDepth(order) && i < |order| && order[i] != []
    ensures Parent(order[i]) in order ==> Parent(order[i]) in order[..i]
  {
    if Parent(order[i]) in order {
      var j :| 0 <= j < |order| && order[j] == Parent(order[i]);
      assert j < i && order[..i][j] == order[j];
    }
  }

  // ---------------------------------------------------------------- when the roster is closed

  ghost predicate RosterClosed(entries: seq<Path>) {
    forall p :: InRoster(entries, p) ==> p != [] && (Parent(p) in SYSTEM || InRoster(entries, Parent(p)))
  }

  /** Some entry lies below the directory of that name. */
  predicate Populated(entries: seq<Path>, name: string) {
    exists i :: 0 <= i < |entries| && Above(ROOT + [name], entries[i])
  }

  lemma ParentOfTop(name: string)
    ensures Parent(ROOT + [name]) == ROOT
  {
  }

  lemma ParentOfNested(first: string, second: string)
    ensures Parent(ROOT + [first, second]) == ROOT + [first]
  {
  }

  /** The table lists three nested directories whose parents it does not list. */
  lemma UnlistedParents()
    ensures !Fixed(ROOT + ["broker"]) && !Fixed(ROOT + ["anchor"]) && !Fixed(ROOT + ["state"])
    ensures ROOT + ["broker"] !in SYSTEM && ROOT + ["anchor"] !in SYSTEM && ROOT + ["state"] !in SYSTEM
  {
    TopNameNotFixed("broker");
    TopNameNotFixed("anchor");
    TopNameNotFixed("state");
  }

  lemma TopNameNotFixed(name: string)
    requires name !in TOP
    ensures !Fixed(ROOT + [name]) && ROOT + [name] !in SYSTEM
  {
    var p := ROOT + [name];
    assert |p| == 4 && p[3] == name && p[1] == "Application Support";
    assert |"Application Support"| == 19 && |"Logs"| == 4;
    assert LOGS[1] == "Logs";
    assert forall i :: 0 <= i < |TOP| && p == ROOT + [TOP[i]] ==> p[3] == TOP[i];
    assert forall i :: 0 <= i < |LOG_NAMES| ==> (LOGS + [LOG_NAMES[i]])[1] == "Logs";
  }

  lemma EntryDirectoryClosed(entries: seq<Path>, p: Path, i: nat)
    requires i < |entries| && Above(p, entries[i])
    ensures p != [] && (Parent(p) in SYSTEM || InRoster(entries, Parent(p)))
  {
    if p == ROOT {
      assert Parent(ROOT) == ["Library", "Application Support"];
    } else {
      assert Above(Parent(p), entries[i]);
    }
  }

  lemma NestedParentListed(entries: seq<Path>, k: nat)
    requires k < |NESTED|
    requires Populated(entries, "broker") && Populated(entries, "anchor") && Populated(entries, "state")
    ensures InRoster(entries, ROOT + [NESTED[k].0])
  {
    if k == 2 {
      assert ROOT + [TOP[1]] == ROOT + [NESTED[2].0];
    }
  }

  lemma FixedClosed(entries: seq<Path>, p: Path)
    requires Fixed(p)
    requires Populated(entries, "broker") && Populated(entries, "anchor") && Populated(entries, "state")
    ensures p != [] && (Parent(p) in SYSTEM || InRoster(entries, Parent(p)))
  {
    if p == ROOT {
      assert Parent(p) == ["Library", "Application Support"];
    } else if p == LOGS {
      assert Parent(p) == ["Library", "Logs"];
    } else if p == RUN {
      assert Parent(p) == ["var", "run"];
    } else if k :| 0 <= k < |TOP| && p == ROOT + [TOP[k]] {
      ParentOfTop(TOP[k]);
    } else if k :| 0 <= k < |NESTED| && p == ROOT + [NESTED[k].0, NESTED[k].1] {
      ParentOfNested(NESTED[k].0, NESTED[k].1);
      NestedParentListed(entries, k);
    } else {
      assert Parent(p) == LOGS;
    }
  }

  lemma NestedNeedsParent(entries: seq<Path>, k: nat)
    requires k < |NESTED| && RosterClosed(entries) && !Fixed(ROOT + [NESTED[k].0]) && ROOT + [NESTED[k].0] !in SYSTEM
    ensures Populated(entries, NESTED[k].0)
  {
    var p := ROOT + [NESTED[k].0, NESTED[k].1];
    assert Fixed(p);
    ParentOfNested(NESTED[k].0, NESTED[k].1);
    assert InRoster(entries, p);
  }

  /** The roster of an installation lists every directory's parent, so that it can be created in depth
      order, exactly when some entry lies below each of `broker`, `anchor` and `state`. */
  lemma RosterClosedIff(entries: seq<Path>)
    ensures RosterClosed(entries)
       <==> Populated(entries, "broker") && Populated(entries, "anchor") && Populated(entries, "state")
  {
    UnlistedParents();
    if RosterClosed(entries) {
      NestedNeedsParent(entries, 0);
      NestedNeedsParent(entries, 1);
      NestedNeedsParent(entries, 3);
    }
    if Populated(entries, "broker") && Populated(entries, "anchor") && Populated(entries, "state") {
      forall p | InRoster(entries, p)
        ensures p != [] && (Parent(p) in SYSTEM || InRoster(entries, Parent(p)))
      {
        if Fixed(p) {
          FixedClosed(entries, p);
        } else {
          var i :| 0 <= i < |entries| && Above(p, entries[i]);
          EntryDirectoryClosed(entries, p, i);
        }
      }
    }
  }

  /** The order lists exactly the roster, by depth. */
  ghost predicate Lists(order: seq<Path>, entries: seq<Path>) {
    ByDepth(order) && forall p :: p in order <==> InRoster(entries, p)
  }

  /** The roster of an installation, created in depth order on a fresh system, is created exactly when
      some entry lies below each of `broker`, `anchor` and `state`; after it no entry below the root
      meets a missing or unlisted directory. */
  method CreateInstallation(entries: seq<Path>, order: seq<Path>, roster: set<Path>) returns (ok: bool, ready: bool)
    requires Lists(order, entries) && forall p :: p in roster <==> InRoster(entries, p)
    ensures ok <==> Populated(entries, "broker") && Populated(entries, "anchor") && Populated(entries, "state")
    ensures ok ==>
              (ready <==> forall i :: 0 <= i < |entries| ==> ROOT < entries[i] || (SystemTarget(entries[i]) && Parent(entries[i]) in SYSTEM + roster))
  {
    forall i | 0 <= i < |order|
      ensures order[i] != []
    {
      assert order[i] in order;
    }
    var made;
    ok, made := CreateRoster(order, SYSTEM);
    ListedClosedIff(order, entries);
    RosterClosedIff(entries);
    ready := ok;
    if ok {
      assert made == SYSTEM + roster;
      for i := 0 to |entries|
        invariant ready <==> forall j :: 0 <= j < i ==> ROOT < entries[j] || (SystemTarget(entries[j]) && Parent(entries[j]) in SYSTEM + roster)
      {
        var result, after := EnsureParent(entries[i], roster, made);
        if ROOT < entries[i] {
          EntryParentsRostered(entries, i, roster);
          assert Parent(ROOT) == ["Library", "Application Support"];
        }
        ready := ready && result == Ready;
      }
    }
  }

  lemma ListedClosedIff(order: seq<Path>, entries: seq<Path>)
    requires Lists(order, entries)
    ensures Closed(order, SYSTEM) <==> RosterClosed(entries)
  {
    if Closed(order, SYSTEM) {
      forall p | InRoster(entries, p)
        ensures p != [] && (Parent(p) in SYSTEM || InRoster(entries, Parent(p)))
      {
        var i :| 0 <= i < |order| && order[i] == p;
      }
    }
    if RosterClosed(entries) {
      forall i | 0 <= i < |order|
        ensures order[i] != [] && (Parent(order[i]) in SYSTEM || Parent(order[i]) in order)
      {
        assert order[i] in order;
      }
    }
  }

  /** Broker and anchor code alone do not make the roster closed: nothing lists the parent of `state/anchor`. */
  lemma StateIsMissing()
    ensures var entries := [ROOT + ["broker", "a"], ROOT + ["anchor", "b"]];
            !RosterClosed(entries)
  {
    var entries := [ROOT + ["broker", "a"], ROOT + ["anchor", "b"]];
    RosterClosedIff(entries);
    assert entries[0][3] == "broker" && entries[1][3] == "anchor";
    assert "broker"[0] != "state"[0] && "anchor"[0] != "state"[0];
    NotAbove("state", entries[0]);
    NotAbove("state", entries[1]);
  }

  lemma NotAbove(name: string, entry: Path)
    requires |entry| > 3 && entry[3] != name
    ensures !Above(ROOT + [name], entry)
  {
    assert (ROOT + [name])[3] == name;
  }
}
