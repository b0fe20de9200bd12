/** Sealing and snapshotting a retained directory tree, and what its roster bytes determine. */
module HolderTree {
  import opened Bytes
  import opened Numerals
  import opened Splitting

  const MAX_FILES: nat := 16384
  const MAX_DIRECTORIES: nat := 16384
  const MAX_BYTES: nat := 3_221_225_472
  const MAX_FILE: nat := 268_435_456
  const SEALED_DIRECTORY: nat := 0x16D
  const SEALED_FILE: nat := 0x124

  const SLASH: byte := 0x2F
  const BACKSLASH: byte := 0x5C
  const DOT: byte := 0x2E

  /** A directory's entries, in the byte order of their names. */
  datatype Forest = Nil | Cons(name: seq<byte>, node: Node, rest: Forest)

  datatype Node =
    | Regular(content: seq<byte>, mode: nat, links: nat)
    | Directory(children: Forest, mode: nat)
    | Special

  datatype Counts = Counts(files: nat, directories: nat, bytes: nat)

  predicate Within(c: Counts) {
    c.files <= MAX_FILES && c.directories <= MAX_DIRECTORIES && c.bytes <= MAX_BYTES
  }

  function AddFile(c: Counts, size: nat): Counts {
    Counts(c.files + 1, c.directories, c.bytes + size)
  }

  function AddDirectory(c: Counts): Counts {
    Counts(c.files, c.directories + 1, c.bytes)
  }

  /** The counters after an entry, and after all entries of a directory, starting from `c`. */
  function CountNode(c: Counts, node: Node): Counts
    decreases node
  {
    match node
    case Regular(content, _, _) => AddFile(c, |content|)
    case Directory(children, _) => Count(AddDirectory(c), children)
    case Special => c
  }

  function Count(c: Counts, f: Forest): Counts
    decreases f
  {
    if f.Nil? then c else Count(CountNode(c, f.node), f.rest)
  }

  predicate AtMost(a: Counts, b: Counts) {
    a.files <= b.files && a.directories <= b.directories && a.bytes <= b.bytes
  }

  /** Counters only grow, so a cap that is exceeded on the way is exceeded at the end. */
  lemma {:induction false} CountGrows(c: Counts, f: Forest)
    ensures AtMost(c, Count(c, f))
    decreases f
  {
    if f.Cons? {
      if f.node.Directory? {
        CountGrows(AddDirectory(c), f.node.children);
      }
      CountGrows(CountNode(c, f.node), f.rest);
    }
  }

  // ---------------------------------------------------------------- paths

  predicate SafePath(path: seq<byte>) {
    && path != [] && BACKSLASH !in path
    && var parts := Split(path, SLASH);
       forall i :: 0 <= i < |parts| ==> parts[i] !in [[], [DOT], [DOT, DOT]]
  }

  /** A safe path has no empty, dot or dot-dot component and no backslash: it names something below the root.
      (The path "." alone is not the name of a listed entry and is not considered here.) */
  lemma SafePathIff(path: seq<byte>)
    ensures SafePath(path)
       <==> && path != [] && 92 !in path
            && forall i: nat, j: nat :: Component(path, 47, i, j) ==> i < j && path[i..j] != [46] && path[i..j] != [46, 46]
  {
    var parts := Split(path, SLASH);
    if SafePath(path) {
      forall i: nat, j: nat | Component(path, 47, i, j)
        ensures i < j && path[i..j] != [46] && path[i..j] != [46, 46]
      {
        var n := ComponentIsPart(path, SLASH, i, j);
        assert parts[n] !in [[], [DOT], [DOT, DOT]];
      }
    } else if path != [] && BACKSLASH !in path {
      var n :| 0 <= n < |parts| && parts[n] in [[], [DOT], [DOT, DOT]];
      var i, j := PartIsComponent(path, SLASH, n);
      assert Component(path, 47, i, j);
    }
  }

  function Under(prefix: seq<byte>, name: seq<byte>): seq<byte> {
    if prefix == [] then name else prefix + [SLASH] + name
  }

  function Depth(path: seq<byte>): nat {
    |Split(path, SLASH)|
  }

  lemma SafeUnder(prefix: seq<byte>, name: seq<byte>)
    requires SafePath(name) && (prefix == [] || SafePath(prefix))
    ensures SafePath(Under(prefix, name))
  {
    if prefix != [] {
      SplitConcat(prefix, name, SLASH);
    }
  }

  // ---------------------------------------------------------------- what sealing and snapshotting ask for

  /** The two checks on names: strict UTF-8 decodability, taken as a parameter, and the safe-path check. */
  datatype Checks = Checks(utf8: seq<byte> -> bool, safe: seq<byte> -> bool)

  /** What the safe-path check must give: a safe name under a safe path is a safe path. */
  ghost predicate Closed(checks: Checks) {
    forall prefix, name :: checks.safe(name) && (prefix == [] || checks.safe(prefix)) ==> checks.safe(Under(prefix, name))
  }

  function ChecksOf(utf8: seq<byte> -> bool): Checks {
    Checks(utf8, path => SafePath(path))
  }

  lemma SafePathsClosed(utf8: seq<byte> -> bool)
    ensures Closed(ChecksOf(utf8))
  {
    forall prefix, name | SafePath(name) && (prefix == [] || SafePath(prefix))
      ensures SafePath(Under(prefix, name))
    {
      SafeUnder(prefix, name);
    }
  }

  predicate NodeSealable(checks: Checks, node: Node) {
    match node
    case Regular(content, _, links) => links == 1 && |content| <= MAX_FILE
    case Directory(children, _) => Sealable(checks, children)
    case Special => false
  }

  /** Every entry below is a safely named directory or singly linked file of bounded size. */
  predicate Sealable(checks: Checks, f: Forest) {
    f.Cons? ==> checks.utf8(f.name) && checks.safe(f.name) && NodeSealable(checks, f.node) && Sealable(checks, f.rest)
  }

  function NodeSealed(node: Node): Node {
    match node
    case Regular(content, _, links) => Regular(content, SEALED_FILE, links)
    case Directory(children, _) => Directory(Sealed(children), SEALED_DIRECTORY)
    case Special => Special
  }

  function Sealed(f: Forest): Forest {
    if f.Nil? then Nil else Cons(f.name, NodeSealed(f.node), Sealed(f.rest))
  }

  predicate NodeSnapshotable(checks: Checks, node: Node, path: seq<byte>) {
    match node
    case Regular(content, mode, links) => mode == SEALED_FILE && links == 1 && |content| <= MAX_FILE
    case Directory(children, mode) => mode == SEALED_DIRECTORY && Snapshotable(checks, children, path)
    case Special => false
  }

  predicate Snapshotable(checks: Checks, f: Forest, prefix: seq<byte>) {
    f.Cons? ==>
      && checks.utf8(f.name) && checks.safe(Under(prefix, f.name))
      && NodeSnapshotable(checks, f.node, Under(prefix, f.name))
      && Snapshotable(checks, f.rest, prefix)
  }

  lemma {:induction false} SealedKeepsCount(c: Counts, f: Forest)
    ensures Count(c, Sealed(f)) == Count(c, f)
    decreases f
  {
    if f.Cons? {
      if f.node.Directory? {
        SealedKeepsCount(AddDirectory(c), f.node.children);
      }
      SealedKeepsCount(CountNode(c, f.node), f.rest);
    }
  }

  lemma {:induction false} SealedIsSnapshotable(checks: Checks, f: Forest, prefix: seq<byte>)
    requires Closed(checks) && Sealable(checks, f) && (prefix == [] || checks.safe(prefix))
    ensures Snapshotable(checks, Sealed(f), prefix)
  {
    if f.Cons? {
      if f.node.Directory? {
        SealedIsSnapshotable(checks, f.node.children, Under(prefix, f.name));
      }
      SealedIsSnapshotable(checks, f.rest, prefix);
    }
  }

  // ---------------------------------------------------------------- rosters

  /** The content digest, taken as a parameter. */
  type Hash = seq<byte> -> string

  datatype Row = Row(path: seq<byte>, regular: bool, size: nat, digest: string)

  /** The first row of an entry. */
  function HeadRow(hash: Hash, node: Node, path: seq<byte>): Row {
    if node.Regular? then Row(path, true, |node.content|, hash(node.content)) else Row(path, false, 0, hash([]))
  }

  /** The rows of a directory's entries, each directory before what it holds. */
  function Rows(hash: Hash, f: Forest, prefix: seq<byte>): seq<Row> {
    if f.Nil? then [] else NodeRows(hash, f.node, Under(prefix, f.name)) + Rows(hash, f.rest, prefix)
  }

  function NodeRows(hash: Hash, node: Node, path: seq<byte>): seq<Row> {
    [HeadRow(hash, node, path)] + if node.Directory? then Rows(hash, node.children, path) else []
  }

  function RosterRows(hash: Hash, root: Forest): seq<Row> {
    [Row([DOT], false, 0, hash([]))] + Rows(hash, root, [])
  }

  lemma RowsAssociate(a: seq<Row>, b: seq<Row>, c: seq<Row>)
    ensures (a + b) + c == a + (b + c)
  {
  }

  // ---------------------------------------------------------------- the visitors

  class Visitor {
    const checks: Checks
    const hash: Hash
    var counts: Counts
    var rows: seq<Row>

    constructor (checks: Checks, hash: Hash)
      ensures this.checks == checks && this.hash == hash && counts == NONE && rows == []
    {
      this.checks := checks;
      this.hash := hash;
      counts := NONE;
      rows := [];
    }

    /** Count a directory; the count is checked as it grows. */
    method EnterDirectory() returns (ok: bool)
      requires Within(counts)
      modifies this`counts
      ensures counts == AddDirectory(old(counts))
      ensures ok <==> Within(counts)
    {
      counts := counts.(directories := counts.directories + 1);
      ok := counts.directories <= MAX_DIRECTORIES;
    }

    method CountFile(size: nat) returns (ok: bool)
      requires Within(counts)
      modifies this`counts
      ensures counts == AddFile(old(counts), size)
      ensures ok <==> Within(counts)
    {
      counts := counts.(files := counts.files + 1, bytes := counts.bytes + size);
      ok := counts.files <= MAX_FILES && counts.bytes <= MAX_BYTES;
    }

    /** Seal the entries of one directory, depth first. */
    method Seal(f: Forest) returns (ok: bool, sealed: Forest)
      requires Within(counts)
      modifies this`counts
      ensures ok <==> Sealable(checks, f) && Within(Count(old(counts), f))
      ensures ok ==> counts == Count(old(counts), f) && sealed == Sealed(f)
      decreases f, 0
    {
      if f.Nil? {
        return true, Nil;
      }
      sealed := f;
      if !checks.utf8(f.name) || !checks.safe(f.name) {
        return false, f;
      }
      var node;
      CountGrows(CountNode(counts, f.node), f.rest);
      ok, node := SealNode(f.node);
      if !ok {
        return false, f;
      }
      var rest;
      ok, rest := Seal(f.rest);
      sealed := Cons(f.name, node, rest);
    }

    method SealNode(node: Node) returns (ok: bool, sealed: Node)
      requires Within(counts)
      modifies this`counts
      ensures ok <==> NodeSealable(checks, node) && Within(CountNode(old(counts), node))
      ensures ok ==> counts == CountNode(old(counts), node) && sealed == NodeSealed(node)
      decreases node, 1
    {
      sealed := node;
      match node {
        case Special =>
          ok := false;
        case Regular(content, _, links) =>
          if links != 1 {
            return false, node;
          }
          ok := CountFile(|content|);
          ok := ok && |content| <= MAX_FILE;
          sealed := Regular(content, SEALED_FILE, links);
        case Directory(children, _) =>
          CountGrows(AddDirectory(counts), children);
          ok := EnterDirectory();
          if !ok {
            return false, node;
          }
          var below;
          ok, below := Seal(children);
          sealed := Directory(below, SEALED_DIRECTORY);
      }
    }

    /** Seal a whole tree: its root counts as a directory. */
    method SealTree(root: Forest) returns (ok: bool, sealed: Forest)
      requires Within(counts)
      modifies this`counts
      ensures ok <==> Sealable(checks, root) && Within(CountTree(old(counts), root))
      ensures ok ==> counts == CountTree(old(counts), root) && sealed == Sealed(root)
    {
      var node;
      ok, node := SealNode(Directory(root, 0));
      sealed := if ok then node.children else root;
    }

    /** Record the entries of one sealed directory, depth first. */
    method Snapshot(f: Forest, prefix: seq<byte>) returns (ok: bool)
      requires Within(counts)
      modifies this`counts, this`rows
      ensures ok <==> Snapshotable(checks, f, prefix) && Within(Count(old(counts), f))
      ensures ok ==> counts == Count(old(counts), f) && rows == old(rows) + Rows(hash, f, prefix)
      decreases f, 0
    {
      if f.Nil? {
        assert rows == rows + [];
        return true;
      }
      var path := Under(prefix, f.name);
      if !checks.utf8(f.name) || !checks.safe(path) {
        return false;
      }
      CountGrows(CountNode(counts, f.node), f.rest);
      ghost var before := rows;
      ok := SnapshotNode(f.node, path);
      if !ok {
        return false;
      }
      ok := Snapshot(f.rest, prefix);
      RowsAssociate(before, NodeRows(hash, f.node, path), Rows(hash, f.rest, prefix));
    }

    method SnapshotNode(node: Node, path: seq<byte>) returns (ok: bool)
      requires Within(counts)
      modifies this`counts, this`rows
      ensures ok <==> NodeSnapshotable(checks, node, path) && Within(CountNode(old(counts), node))
      ensures ok ==> counts == CountNode(old(counts), node) && rows == old(rows) + NodeRows(hash, node, path)
      decreases node, 1
    {
      match node {
        case Special =>
          ok := false;
        case Regular(content, mode, links) =>
          if mode != SEALED_FILE || links != 1 || |content| > MAX_FILE {
            return false;
          }
          ok := CountFile(|content|);
          rows := rows + [Row(path, true, |content|, hash(content))];
          assert rows == old(rows) + NodeRows(hash, node, path);
        case Directory(children, mode) =>
          if mode != SEALED_DIRECTORY {
            return false;
          }
          CountGrows(AddDirectory(counts), children);
          ok := EnterDirectory();
          if !ok {
            return false;
          }
          ghost var before := rows;
          rows := rows + [Row(path, false, 0, hash([]))];
          ok := Snapshot(children, path);
          RowsAssociate(before, [Row(path, false, 0, hash([]))], Rows(hash, children, path));
      }
    }

    method SnapshotTree(root: Forest, mode: nat) returns (ok: bool)
      requires Within(counts) && rows == []
      modifies this`counts, this`rows
      ensures ok <==> mode == SEALED_DIRECTORY && Snapshotable(checks, root, [])
                      && Within(CountTree(old(counts), root))
      ensures ok ==> counts == CountTree(old(counts), root) && rows == RosterRows(hash, root)
    {
      if mode != SEALED_DIRECTORY {
        return false;
      }
      CountGrows(AddDirectory(counts), root);
      ok := EnterDirectory();
      if !ok {
        return false;
      }
      rows := [Row([DOT], false, 0, hash([]))];
      ok := Snapshot(root, []);
    }
  }

  function CountTree(c: Counts, root: Forest): Counts {
    Count(AddDirectory(c), root)
  }

  const NONE := Counts(0, 0, 0)

  /** Sealing, and then snapshotting what was sealed, with nothing else in between: whatever tree can be
      sealed is snapshotted, and the two passes count the same. */
  method SealThenSnapshot(utf8: seq<byte> -> bool, hash: Hash, root: Forest)
    returns (sealedOk: bool, rows: seq<Row>, counts: Counts)
    ensures sealedOk <==> Sealable(ChecksOf(utf8), root) && Within(CountTree(NONE, root))
    ensures sealedOk ==> rows == RosterRows(hash, Sealed(root)) && counts == CountTree(NONE, root)
  {
    var checks := ChecksOf(utf8);
    var sealer := new Visitor(checks, hash);
    var sealed;
    sealedOk, sealed := sealer.SealTree(root);
    if !sealedOk {
      return false, [], sealer.counts;
    }
    SafePathsClosed(utf8);
    SealedIsSnapshotable(checks, root, []);
    SealedKeepsCount(AddDirectory(NONE), root);
    var visitor := new Visitor(checks, hash);
    var snapshotOk := visitor.SnapshotTree(sealed, SEALED_DIRECTORY);
    assert snapshotOk;
    return true, visitor.rows, visitor.counts;
  }

  // ---------------------------------------------------------------- counts and rosters agree

  /** The counters that a reader of a roster would arrive at. */
  function CountRows(c: Counts, rows: seq<Row>): Counts
    decreases |rows|
  {
    if rows == [] then c
    else CountRows(if rows[0].regular then AddFile(c, rows[0].size) else AddDirectory(c), rows[1..])
  }

  lemma {:induction false} CountRowsConcat(c: Counts, left: seq<Row>, right: seq<Row>)
    ensures CountRows(c, left + right) == CountRows(CountRows(c, left), right)
    decreases |left|
  {
    if left == [] {
      assert left + right == right;
    } else {
      var next := if left[0].regular then AddFile(c, left[0].size) else AddDirectory(c);
      assert (left + right)[0] == left[0] && (left + right)[1..] == left[1..] + right;
      CountRowsConcat(next, left[1..], right);
    }
  }

  lemma CountOneRow(c: Counts, row: Row)
    ensures CountRows(c, [row]) == if row.regular then AddFile(c, row.size) else AddDirectory(c)
  {
    assert [row][1..] == [];
  }

  /** The counters of a sealable tree are those of its roster: nothing is counted that is not listed,
      and nothing is listed that is not counted. */
  lemma {:induction false} RowsCountTree(hash: Hash, checks: Checks, c: Counts, f: Forest, prefix: seq<byte>)
    requires Sealable(checks, f)
    ensures CountRows(c, Rows(hash, f, prefix)) == Count(c, f)
    decreases f
  {
    if f.Cons? {
      var path := Under(prefix, f.name);
      var head := HeadRow(hash, f.node, path);
      var below := if f.node.Directory? then Rows(hash, f.node.children, path) else [];
      CountRowsConcat(c, NodeRows(hash, f.node, path), Rows(hash, f.rest, prefix));
      CountRowsConcat(c, [head], below);
      CountOneRow(c, head);
      if f.node.Directory? {
        RowsCountTree(hash, checks, AddDirectory(c), f.node.children, path);
      }
      RowsCountTree(hash, checks, CountNode(c, f.node), f.rest, prefix);
    }
  }

  // ---------------------------------------------------------------- the retained-root descriptor

  datatype Body = Body(kind: string, logicalRoot: string, anchor: string, locator: seq<byte>, counts: Counts,
                       physical: string, normalized: string, first: string, second: string)

  datatype RetainedRoot = RetainedRoot(body: Body, rootId: string)

  function HolderDescriptor(digest: string, counts: Counts, locator: seq<byte>, rootHash: Body -> string): RetainedRoot {
    var body := Body("replay-holder-root", "replay-holder", "replay-artifact-root", locator, counts,
                     digest, digest, digest, digest);
    RetainedRoot(body, rootHash(body))
  }

  predicate ValidHash(text: string) {
    |text| == 71 && text[..7] == "sha256:" && HexText(text[7..])
  }

  /** The cleanup validator's checks of one sealed replay holder. */
  predicate CleanupAccepts(root: RetainedRoot, rootHash: Body -> string) {
    && root.body.counts.directories >= 1
    && ValidHash(root.body.physical) && ValidHash(root.rootId)
    && root.body.physical == root.body.normalized == root.body.first == root.body.second
    && root.body.kind == "replay-holder-root"
    && Within(root.body.counts)
    && root.body.logicalRoot == "replay-holder" && root.body.anchor == "replay-artifact-root"
    && SafePath(root.body.locator)
    && root.rootId == rootHash(root.body)
  }

  /** Describe a holder: seal it, snapshot it, and put the roster digest on record; a second snapshot of
      the unchanged tree has the same contract and so the same digest.  Whatever tree can be sealed within
      the caps gets a descriptor that the cleanup validator accepts. */
  method DescribeHolder(utf8: seq<byte> -> bool, hash: Hash, rosterHash: seq<byte> -> string, rootHash: Body -> string,
                        root: Forest, locator: seq<byte>)
    returns (ok: bool, descriptor: RetainedRoot)
    requires forall data :: ValidHash(rosterHash(data))
    requires forall body :: ValidHash(rootHash(body))
    ensures ok <==> SafePath(locator) && Sealable(ChecksOf(utf8), root) && Within(CountTree(NONE, root))
    ensures ok ==>
      && CleanupAccepts(descriptor, rootHash)
      && descriptor.body.counts == CountTree(NONE, root)
      && descriptor.body.physical == rosterHash(RosterBytes(RosterRows(hash, Sealed(root))))
  {
    descriptor := HolderDescriptor("", NONE, locator, rootHash);
    if !SafePath(locator) {
      return false, descriptor;
    }
    var rows, counts;
    ok, rows, counts := SealThenSnapshot(utf8, hash, root);
    if ok {
      CountGrows(AddDirectory(NONE), root);
      descriptor := HolderDescriptor(rosterHash(RosterBytes(rows)), counts, locator, rootHash);
    }
  }

  // ---------------------------------------------------------------- rosters determine trees

  /** What the operating system guarantees of names, and sealing of nodes. */
  predicate Plain(f: Forest) {
    f.Cons? ==> f.name != [] && SLASH !in f.name && 0 !in f.name && NodePlain(f.node) && Plain(f.rest)
  }

  predicate NodePlain(node: Node) {
    match node
    case Regular(_, mode, links) => mode == SEALED_FILE && links == 1
    case Directory(children, mode) => mode == SEALED_DIRECTORY && Plain(children)
    case Special => false
  }

  ghost predicate CollisionFree(hash: Hash) {
    forall a, b :: hash(a) == hash(b) ==> a == b
  }

  /** No row, or a row that is not below `depth`. */
  predicate Stops(rows: seq<Row>, depth: nat) {
    rows != [] ==> Depth(rows[0].path) < depth
  }

  lemma DepthUnder(prefix: seq<byte>, name: seq<byte>)
    requires SLASH !in name
    ensures Depth(Under(prefix, name)) == if prefix == [] then 1 else Depth(prefix) + 1
  {
    SplitFree(name, SLASH);
    if prefix != [] {
      SplitConcat(prefix, name, SLASH);
    }
  }

  function LevelOf(prefix: seq<byte>): nat {
    if prefix == [] then 1 else Depth(prefix) + 1
  }

  lemma UnderBindsName(prefix: seq<byte>, left: seq<byte>, right: seq<byte>)
    requires Under(prefix, left) == Under(prefix, right)
    ensures left == right
  {
    if prefix != [] {
      assert Under(prefix, left)[|prefix| + 1..] == left;
      assert Under(prefix, right)[|prefix| + 1..] == right;
    }
  }

  lemma RowsStop(hash: Hash, f: Forest, prefix: seq<byte>, rest: seq<Row>, depth: nat)
    requires Plain(f) && LevelOf(prefix) < depth && Stops(rest, depth)
    ensures Stops(Rows(hash, f, prefix) + rest, depth)
  {
    if f.Cons? {
      DepthUnder(prefix, f.name);
    } else {
      assert [] + rest == rest;
    }
  }

  function ChildrenOf(node: Node): Forest {
    if node.Directory? then node.children else Nil
  }

  lemma SeqUnfold(head: Row, below: seq<Row>, rest: seq<Row>, more: seq<Row>)
    ensures var all := ([head] + below + rest) + more;
            all != [] && all[0] == head && all[1..] == below + (rest + more)
  {
  }

  lemma RowsUnfold(hash: Hash, f: Forest, prefix: seq<byte>, more: seq<Row>)
    requires f.Cons?
    ensures var path := Under(prefix, f.name); var rows := Rows(hash, f, prefix) + more;
      && rows != []
      && rows[0] == HeadRow(hash, f.node, path)
      && rows[1..] == Rows(hash, ChildrenOf(f.node), path) + (Rows(hash, f.rest, prefix) + more)
  {
    var path := Under(prefix, f.name);
    var below := Rows(hash, ChildrenOf(f.node), path);
    assert NodeRows(hash, f.node, path) == [HeadRow(hash, f.node, path)] + below;
    SeqUnfold(HeadRow(hash, f.node, path), below, Rows(hash, f.rest, prefix), more);
  }

  function Entries(f: Forest): nat {
    if f.Nil? then 0 else 1 + (if f.node.Directory? then Entries(f.node.children) else 0) + Entries(f.rest)
  }

  /** Equal first rows name the same entry; what differs, if anything, is below it. */
  lemma HeadRowBinds(hash: Hash, f: Forest, g: Forest, prefix: seq<byte>)
    requires CollisionFree(hash) && f.Cons? && g.Cons? && NodePlain(f.node) && NodePlain(g.node)
    requires HeadRow(hash, f.node, Under(prefix, f.name)) == HeadRow(hash, g.node, Under(prefix, g.name))
    ensures f.name == g.name && (ChildrenOf(f.node) == ChildrenOf(g.node) ==> f.node == g.node)
  {
    UnderBindsName(prefix, f.name, g.name);
  }

  lemma RestStops(hash: Hash, f: Forest, prefix: seq<byte>, more: seq<Row>)
    requires f.Cons? && Plain(f) && Stops(more, LevelOf(prefix))
    ensures Stops(Rows(hash, f.rest, prefix) + more, LevelOf(Under(prefix, f.name)))
  {
    DepthUnder(prefix, f.name);
    RowsStop(hash, f.rest, prefix, more, LevelOf(Under(prefix, f.name)));
  }

  /** In preorder the depths say where a directory ends, so a roster splits in only one way. */
  lemma {:induction false} RowsBindForest(hash: Hash, f: Forest, g: Forest, prefix: seq<byte>,
                                          moreF: seq<Row>, moreG: seq<Row>)
    requires CollisionFree(hash) && Plain(f) && Plain(g)
    requires Stops(moreF, LevelOf(prefix)) && Stops(moreG, LevelOf(prefix))
    requires Rows(hash, f, prefix) + moreF == Rows(hash, g, prefix) + moreG
    ensures f == g && moreF == moreG
    decreases Entries(f)
  {
    if f.Nil? || g.Nil? {
      OneIsEmpty(hash, f, g, prefix, moreF, moreG);
    } else {
      RowsUnfold(hash, f, prefix, moreF);
      RowsUnfold(hash, g, prefix, moreG);
      HeadRowBinds(hash, f, g, prefix);
      RestStops(hash, f, prefix, moreF);
      RestStops(hash, g, prefix, moreG);
      RowsBindForest(hash, ChildrenOf(f.node), ChildrenOf(g.node), Under(prefix, f.name),
                     Rows(hash, f.rest, prefix) + moreF, Rows(hash, g.rest, prefix) + moreG);
      RowsBindForest(hash, f.rest, g.rest, prefix, moreF, moreG);
    }
  }

  lemma ConsDoesNotStop(hash: Hash, f: Forest, prefix: seq<byte>, more: seq<Row>)
    requires f.Cons? && Plain(f)
    ensures !Stops(Rows(hash, f, prefix) + more, LevelOf(prefix))
  {
    DepthUnder(prefix, f.name);
    RowsUnfold(hash, f, prefix, more);
  }

  lemma OneIsEmpty(hash: Hash, f: Forest, g: Forest, prefix: seq<byte>, moreF: seq<Row>, moreG: seq<Row>)
    requires Plain(f) && Plain(g) && (f.Nil? || g.Nil?)
    requires Stops(moreF, LevelOf(prefix)) && Stops(moreG, LevelOf(prefix))
    requires Rows(hash, f, prefix) + moreF == Rows(hash, g, prefix) + moreG
    ensures f == g && moreF == moreG
  {
    assert [] + moreF == moreF && [] + moreG == moreG;
    if f.Cons? {
      ConsDoesNotStop(hash, f, prefix, moreF);
    } else if g.Cons? {
      ConsDoesNotStop(hash, g, prefix, moreG);
    }
  }

  // ---------------------------------------------------------------- roster bytes

  function AsciiBytes(text: string): (data: seq<byte>)
    ensures |data| == |text|
  {
    seq(|text|, i requires 0 <= i < |text| => if text[i] as int < 0x80 then text[i] as int as byte else 0)
  }

  function KindText(regular: bool): string {
    if regular then "regular" else "directory"
  }

  function ModeText(regular: bool): string {
    if regular then "0444" else "0555"
  }

  /** path NUL kind NUL mode NUL size NUL digest LF */
  function RowFields(row: Row): seq<seq<byte>> {
    [row.path, AsciiBytes(KindText(row.regular)), AsciiBytes(ModeText(row.regular)),
     AsciiBytes(Decimal(row.size)), AsciiBytes(row.digest)]
  }

  function RowBytes(row: Row): seq<byte> {
    row.path + [0] + AsciiBytes(KindText(row.regular)) + [0] + AsciiBytes(ModeText(row.regular)) + [0]
    + AsciiBytes(Decimal(row.size)) + [0] + AsciiBytes(row.digest) + [0x0A]
  }

  function RosterBytes(rows: seq<Row>): seq<byte> {
    if rows == [] then [] else RowBytes(rows[0]) + RosterBytes(rows[1..])
  }

  predicate RowPlain(row: Row) {
    0 !in row.path && |row.digest| == 64 && HexText(row.digest)
  }

  lemma FieldEnds(left: seq<byte>, moreLeft: seq<byte>, right: seq<byte>, moreRight: seq<byte>, sep: byte)
    requires sep !in left && sep !in right && left + [sep] + moreLeft == right + [sep] + moreRight
    ensures left == right && moreLeft == moreRight
  {
    var all := left + [sep] + moreLeft;
    assert all == right + [sep] + moreRight;
    assert all[|left|] == sep && all[|right|] == sep;
    assert forall i :: 0 <= i < |left| ==> all[i] == left[i];
    assert forall i :: 0 <= i < |right| ==> all[i] == right[i];
    assert |left| == |right|;
    assert all[..|left|] == left && all[..|right|] == right;
    assert all[|left| + 1..] == moreLeft && all[|right| + 1..] == moreRight;
  }

  predicate Printable(text: string) {
    forall i :: 0 <= i < |text| ==> 0x20 < text[i] as int < 0x80
  }

  lemma AsciiFree(text: string)
    requires Printable(text)
    ensures 0 !in AsciiBytes(text) && 0x0A !in AsciiBytes(text)
  {
  }

  lemma AsciiInjective(left: string, right: string)
    requires Printable(left) && Printable(right) && AsciiBytes(left) == AsciiBytes(right)
    ensures left == right
  {
    forall i | 0 <= i < |left|
      ensures left[i] == right[i]
    {
      assert AsciiBytes(left)[i] == AsciiBytes(right)[i];
    }
  }

  lemma FieldsPrintable(row: Row)
    requires RowPlain(row)
    ensures Printable(KindText(row.regular)) && Printable(ModeText(row.regular))
    ensures Printable(Decimal(row.size)) && Printable(row.digest)
  {
  }

  lemma RowShape(row: Row, more: seq<byte>)
    ensures RowBytes(row) + more
         == row.path + [0] + (AsciiBytes(KindText(row.regular)) + [0] + (AsciiBytes(ModeText(row.regular)) + [0]
            + (AsciiBytes(Decimal(row.size)) + [0] + (AsciiBytes(row.digest) + [0x0A] + more))))
  {
  }

  /** A row's bytes end where they end: nothing that follows can be read into them. */
  lemma RowBytesBind(left: Row, moreLeft: seq<byte>, right: Row, moreRight: seq<byte>)
    requires RowPlain(left) && RowPlain(right) && RowBytes(left) + moreLeft == RowBytes(right) + moreRight
    ensures left == right && moreLeft == moreRight
  {
    RowShape(left, moreLeft);
    RowShape(right, moreRight);
    FieldsFree(left);
    FieldsFree(right);
    var l, r := RowFields(left), RowFields(right);
    var l4, r4 := l[4] + [0x0A] + moreLeft, r[4] + [0x0A] + moreRight;
    var l3, r3 := l[3] + [0] + l4, r[3] + [0] + r4;
    var l2, r2 := l[2] + [0] + l3, r[2] + [0] + r3;
    FieldEnds(l[0], l[1] + [0] + l2, r[0], r[1] + [0] + r2, 0);
    FieldEnds(l[1], l2, r[1], r2, 0);
    FieldEnds(l[2], l3, r[2], r3, 0);
    FieldEnds(l[3], l4, r[3], r4, 0);
    FieldEnds(l[4], moreLeft, r[4], moreRight, 0x0A);
    FieldsBindRow(left, right);
  }

  lemma FieldsFree(row: Row)
    requires RowPlain(row)
    ensures forall i :: 0 <= i < 5 ==> 0 !in RowFields(row)[i]
    ensures 0x0A !in RowFields(row)[4]
  {
    FieldsPrintable(row);
    AsciiFree(KindText(row.regular));
    AsciiFree(ModeText(row.regular));
    AsciiFree(Decimal(row.size));
    AsciiFree(row.digest);
  }

  lemma FieldsBindRow(left: Row, right: Row)
    requires RowPlain(left) && RowPlain(right) && RowFields(left) == RowFields(right)
    ensures left == right
  {
    FieldsPrintable(left);
    FieldsPrintable(right);
    assert RowFields(left)[0] == RowFields(right)[0] && RowFields(left)[1] == RowFields(right)[1];
    assert RowFields(left)[3] == RowFields(right)[3] && RowFields(left)[4] == RowFields(right)[4];
    AsciiInjective(KindText(left.regular), KindText(right.regular));
    AsciiInjective(Decimal(left.size), Decimal(right.size));
    AsciiInjective(left.digest, right.digest);
    assert KindText(left.regular)[0] == KindText(right.regular)[0];
    assert DecimalValue(Decimal(left.size)) == DecimalValue(Decimal(right.size));
  }

  predicate RowsPlain(rows: seq<Row>) {
    forall i :: 0 <= i < |rows| ==> RowPlain(rows[i])
  }

  /** Roster bytes decode in one way only, line feeds in names included. */
  lemma {:induction false} RosterBytesBind(left: seq<Row>, right: seq<Row>)
    requires RowsPlain(left) && RowsPlain(right) && RosterBytes(left) == RosterBytes(right)
    ensures left == right
    decreases |left|
  {
    if left != [] && right != [] {
      RowBytesBind(left[0], RosterBytes(left[1..]), right[0], RosterBytes(right[1..]));
      assert RowsPlain(left[1..]) && RowsPlain(right[1..]);
      RosterBytesBind(left[1..], right[1..]);
      assert left == [left[0]] + left[1..] && right == [right[0]] + right[1..];
    }
  }

  ghost predicate HexHash(hash: Hash) {
    forall data :: |hash(data)| == 64 && HexText(hash(data))
  }

  lemma UnderFree(prefix: seq<byte>, name: seq<byte>)
    requires 0 !in prefix && 0 !in name
    ensures 0 !in Under(prefix, name)
  {
  }

  lemma {:induction false} TreeRowsPlain(hash: Hash, f: Forest, prefix: seq<byte>)
    requires HexHash(hash) && Plain(f) && 0 !in prefix
    ensures RowsPlain(Rows(hash, f, prefix))
  {
    if f.Cons? {
      UnderFree(prefix, f.name);
      if f.node.Directory? {
        TreeRowsPlain(hash, f.node.children, Under(prefix, f.name));
      }
      TreeRowsPlain(hash, f.rest, prefix);
    }
  }

  /** Equal roster bytes mean equal sealed trees: paths, kinds, sizes and contents. */
  lemma RosterBindsTree(hash: Hash, left: Forest, right: Forest)
    requires HexHash(hash) && CollisionFree(hash) && Plain(left) && Plain(right)
    requires RosterBytes(RosterRows(hash, left)) == RosterBytes(RosterRows(hash, right))
    ensures left == right
  {
    var rowsL, rowsR := Rows(hash, left, []), Rows(hash, right, []);
    TreeRowsPlain(hash, left, []);
    TreeRowsPlain(hash, right, []);
    assert RowsPlain(RosterRows(hash, left)) && RowsPlain(RosterRows(hash, right));
    RosterBytesBind(RosterRows(hash, left), RosterRows(hash, right));
    assert RosterRows(hash, left)[1..] == rowsL && RosterRows(hash, right)[1..] == rowsR;
    assert rowsL + [] == rowsL && rowsR + [] == rowsR;
    RowsBindForest(hash, left, right, [], [], []);
  }
}
