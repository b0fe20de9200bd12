/** The Stage-0 consent descriptor: its printer, its strict parser, and the bijection between them. */
module Descriptor {
  import opened Wrappers
  import opened Bytes
  import opened Splitting
  import opened Numerals

  const MAGIC := "METIS-W3-PHASE-B-BOOTSTRAP-V1"
  const MAX_BYTES: nat := 33_554_432
  const MAX_FILES: nat := 8_192
  const MAX_TOTAL: nat := 2_147_483_648
  const PREFIX := "sha256:"
  const MANIFEST_PATH := "metadata/w3-phase-b-install-bundle.json"
  const PLAN_PATH := "metadata/install-plan.json"

  /** A file row; the digest is carried without its prefix, and the size as any integer a caller may pass. */
  datatype Row = Row(path: seq<byte>, size: int, sha256: string, mode: string)

  datatype Document = Document(bootstrap: string, manifest: string, plan: string, files: seq<Row>)

  /** Strict UTF-8 decodability of a path, taken as a parameter. */
  type Utf8 = seq<byte> -> bool

  // ---------------------------------------------------------------- printing

  function Fields(row: Row): seq<string> {
    ["FILE", Hex(row.path), IntText(row.size), row.sha256, row.mode]
  }

  function RowLine(row: Row): string {
    Join(Fields(row), '\t')
  }

  function RowLines(rows: seq<Row>): (lines: seq<string>)
    ensures |lines| == |rows| && forall i :: 0 <= i < |rows| ==> lines[i] == RowLine(rows[i])
  {
    seq(|rows|, i requires 0 <= i < |rows| => RowLine(rows[i]))
  }

  function Total(rows: seq<Row>, n: nat): int
    requires n <= |rows|
  {
    if n == 0 then 0 else Total(rows, n - 1) + rows[n - 1].size
  }

  function Header(name: string, value: string): string {
    Join([name, value], '\t')
  }

  function HeadLines(d: Document): (lines: seq<string>)
    ensures |lines| == 6
  {
    [MAGIC,
     Header("bootstrap_sha256", d.bootstrap),
     Header("manifest_sha256", d.manifest),
     Header("plan_sha256", d.plan),
     Header("file_count", Decimal(|d.files|)),
     Header("total_bytes", IntText(Total(d.files, |d.files|)))]
  }

  function Lines(d: Document): seq<string> {
    HeadLines(d) + RowLines(d.files)
  }

  function Render(d: Document): string {
    Join(Lines(d), '\n') + "\n"
  }

  // ---------------------------------------------------------------- validity

  predicate Digest(text: string) {
    |text| == 64 && HexText(text)
  }

  function AsciiBytes(text: string): seq<byte> {
    seq(|text|, i requires 0 <= i < |text| => if text[i] as int < 0x80 then text[i] as int as byte else 0)
  }

  predicate PartOk(part: seq<byte>) {
    part != [] && part != AsciiBytes(".") && part != AsciiBytes("..") && |part| <= 255
  }

  predicate PathOk(utf8: Utf8, path: seq<byte>) {
    && path != [] && utf8(path) && |path| <= 1024
    && (forall i :: 0 <= i < |path| ==> 0x20 <= path[i] && path[i] != 0x7F)
    && var parts := Split(path, '/' as int as byte);
       forall i :: 0 <= i < |parts| ==> PartOk(parts[i])
  }

  predicate RowOk(utf8: Utf8, row: Row) {
    PathOk(utf8, row.path) && 0 <= row.size <= MAX_TOTAL && Digest(row.sha256) && row.mode in ["0444", "0555"]
  }

  predicate Leq(a: seq<byte>, b: seq<byte>) {
    a == [] || (b != [] && if a[0] == b[0] then Leq(a[1..], b[1..]) else a[0] < b[0])
  }

  predicate Ascending(rows: seq<Row>) {
    forall i, j :: 0 <= i < j < |rows| ==> Leq(rows[i].path, rows[j].path) && rows[i].path != rows[j].path
  }

  predicate Binds(rows: seq<Row>, path: seq<byte>, sha256: string) {
    exists i :: 0 <= i < |rows| && rows[i].path == path && rows[i].sha256 == sha256
  }

  /** The roster checks of the validator, in its order. */
  predicate RosterOk(d: Document, total: int) {
    && Ascending(d.files)
    && Total(d.files, |d.files|) == total
    && Binds(d.files, AsciiBytes(MANIFEST_PATH), d.manifest)
    && Binds(d.files, AsciiBytes(PLAN_PATH), d.plan)
  }

  predicate DigestsOk(d: Document) {
    Digest(d.bootstrap) && Digest(d.manifest) && Digest(d.plan)
  }

  predicate RowsOk(utf8: Utf8, rows: seq<Row>) {
    forall i :: 0 <= i < |rows| ==> RowOk(utf8, rows[i])
  }

  predicate LinesValid(utf8: Utf8, d: Document) {
    && DigestsOk(d)
    && 1 <= |d.files| <= MAX_FILES
    && 1 <= Total(d.files, |d.files|) <= MAX_TOTAL
    && RowsOk(utf8, d.files)
    && RosterOk(d, Total(d.files, |d.files|))
  }

  /** What a consent descriptor may say. */
  predicate Valid(utf8: Utf8, d: Document) {
    LinesValid(utf8, d) && |Render(d)| <= MAX_BYTES
  }

  // ---------------------------------------------------------------- parsing

  function ParseHeader(line: string, name: string): Option<string> {
    var parts := Split(line, '\t');
    if |parts| != 2 || parts[0] != name then None else Some(parts[1])
  }

  function ParseRow(utf8: Utf8, line: string): Option<Row> {
    var fields := Split(line, '\t');
    if |fields| != 5 || fields[0] != "FILE" then None
    else if fields[1] == "" || |fields[1]| % 2 != 0 || !HexText(fields[1]) then None
    else if !PathOk(utf8, Unhex(fields[1])) then None
    else if !Canonical(fields[2]) || !Digest(fields[3]) || fields[4] !in ["0444", "0555"] then None
    else if DecimalValue(fields[2]) > MAX_TOTAL then None
    else Some(Row(Unhex(fields[1]), DecimalValue(fields[2]), fields[3], fields[4]))
  }

  function ParseRows(utf8: Utf8, lines: seq<string>, n: nat): (rows: Option<seq<Row>>)
    requires n <= |lines|
  {
    if n == 0 then Some([])
    else
      match ParseRows(utf8, lines, n - 1)
      case None => None
      case Some(rows) =>
        match ParseRow(utf8, lines[n - 1])
        case None => None
        case Some(row) => Some(rows + [row])
  }

  predicate Ascii(text: string) {
    forall i :: 0 <= i < |text| ==> text[i] as int < 0x80
  }

  /** The six header lines: three digests, the file count and the total. */
  function ParseHead(lines: seq<string>): Option<(string, string, string, nat, nat)>
    requires |lines| >= 6
  {
    var bootstrap, manifest, plan := ParseHeader(lines[1], "bootstrap_sha256"),
                                     ParseHeader(lines[2], "manifest_sha256"),
                                     ParseHeader(lines[3], "plan_sha256");
    var count, total := ParseHeader(lines[4], "file_count"), ParseHeader(lines[5], "total_bytes");
    if lines[0] != MAGIC || bootstrap.None? || manifest.None? || plan.None? || count.None? || total.None? then None
    else if !Digest(bootstrap.value) || !Digest(manifest.value) || !Digest(plan.value) then None
    else if !Canonical(count.value) || !Canonical(total.value) then None
    else Some((bootstrap.value, manifest.value, plan.value, DecimalValue(count.value), DecimalValue(total.value)))
  }

  function ParseLines(utf8: Utf8, lines: seq<string>): Option<Document> {
    if |lines| < 7 then None
    else
      match ParseHead(lines)
      case None => None
      case Some((bootstrap, manifest, plan, count, total)) =>
        if !(1 <= count <= MAX_FILES) || !(1 <= total <= MAX_TOTAL) || |lines| != 6 + count then None
        else
          match ParseRows(utf8, lines[6..], count)
          case None => None
          case Some(rows) =>
            var d := Document(bootstrap, manifest, plan, rows);
            if RosterOk(d, total) then Some(d) else None
  }

  function Parse(utf8: Utf8, payload: string): Option<Document> {
    if payload == "" || |payload| > MAX_BYTES || payload[|payload| - 1] != '\n' || !Ascii(payload) then None
    else ParseLines(utf8, Split(payload[..|payload| - 1], '\n'))
  }

  /** The validator. */
  method Validate(utf8: Utf8, payload: string) returns (result: Option<Document>)
    ensures result == Parse(utf8, payload)
  {
    if payload == "" || |payload| > MAX_BYTES || payload[|payload| - 1] != '\n' || !Ascii(payload) {
      return None;
    }
    var lines := Split(payload[..|payload| - 1], '\n');
    if |lines| < 7 {
      return None;
    }
    var head := ParseHead(lines);
    if head.None? {
      return None;
    }
    var (bootstrap, manifest, plan, count, total) := head.value;
    if !(1 <= count <= MAX_FILES) || !(1 <= total <= MAX_TOTAL) || |lines| != 6 + count {
      return None;
    }
    var rows := [];
    var fileLines := lines[6..];
    for n := 0 to count
      invariant ParseRows(utf8, fileLines, n) == Some(rows)
    {
      var row := ParseRow(utf8, fileLines[n]);
      if row.None? {
        RowsStayBad(utf8, fileLines, n + 1, count);
        return None;
      }
      rows := rows + [row.value];
    }
    var d := Document(bootstrap, manifest, plan, rows);
    return if RosterOk(d, total) then Some(d) else None;
  }

  lemma {:induction false} RowsStayBad(utf8: Utf8, lines: seq<string>, n: nat, m: nat)
    requires n <= m <= |lines| && ParseRows(utf8, lines, n).None?
    ensures ParseRows(utf8, lines, m).None?
  {
    if n < m {
      RowsStayBad(utf8, lines, n, m - 1);
    }
  }

  // ---------------------------------------------------------------- fields hold no separator

  predicate Visible(c: char) {
    0x20 <= c as int < 0x80
  }

  predicate VisibleOrTab(c: char) {
    Visible(c) || c == '\t'
  }

  lemma HexTextVisible(text: string)
    requires HexText(text)
    ensures All(text, Visible)
  {
  }

  lemma CanonicalVisible(text: string)
    requires Canonical(text)
    ensures All(text, Visible)
  {
  }

  lemma VisibleFree(text: string)
    requires All(text, Visible)
    ensures Free(text, '\t') && Free(text, '\n') && All(text, VisibleOrTab)
  {
  }

  lemma LineFree(text: string)
    requires All(text, VisibleOrTab)
    ensures Free(text, '\n')
  {
  }

  lemma FieldsVisible(utf8: Utf8, row: Row)
    requires RowOk(utf8, row)
    ensures forall i :: 0 <= i < 5 ==> All(Fields(row)[i], Visible)
  {
    HexIsHexText(row.path);
    HexTextVisible(Hex(row.path));
    IntTextCanonical(row.size);
    CanonicalVisible(IntText(row.size));
    HexTextVisible(row.sha256);
  }

  lemma AllVisibleJoin(parts: seq<string>)
    requires parts != [] && forall i :: 0 <= i < |parts| ==> All(parts[i], Visible)
    ensures Split(Join(parts, '\t'), '\t') == parts
    ensures All(Join(parts, '\t'), VisibleOrTab)
  {
    forall i | 0 <= i < |parts|
      ensures Free(parts[i], '\t') && All(parts[i], VisibleOrTab)
    {
      VisibleFree(parts[i]);
    }
    assert AllFree(parts, '\t');
    SplitOfJoin(parts, '\t');
    JoinAll(parts, '\t', VisibleOrTab);
  }

  lemma HeaderVisible(name: string, value: string)
    requires All(name, Visible) && All(value, Visible)
    ensures All(Header(name, value), VisibleOrTab)
    ensures ParseHeader(Header(name, value), name) == Some(value)
  {
    AllVisibleJoin([name, value]);
  }

  /** A header line is read as a value exactly when it is the line of that value. */
  lemma HeaderIff(line: string, name: string, value: string)
    requires All(name, Visible) && All(value, Visible)
    ensures ParseHeader(line, name) == Some(value) <==> line == Header(name, value)
  {
    HeaderVisible(name, value);
    if ParseHeader(line, name) == Some(value) {
      JoinOfSplit(line, '\t');
      assert Split(line, '\t') == [name, value];
    }
  }

  /** A file line is read as a row exactly when the row is valid and the line is its line. */
  lemma RowIff(utf8: Utf8, line: string, row: Row)
    ensures ParseRow(utf8, line) == Some(row) <==> RowOk(utf8, row) && line == RowLine(row)
  {
    if ParseRow(utf8, line) == Some(row) {
      RowRead(utf8, line, row);
    }
    if RowOk(utf8, row) && line == RowLine(row) {
      RowWritten(utf8, row);
    }
  }

  lemma RowRead(utf8: Utf8, line: string, row: Row)
    requires ParseRow(utf8, line) == Some(row)
    ensures RowOk(utf8, row) && line == RowLine(row)
  {
    var fields := Split(line, '\t');
    JoinOfSplit(line, '\t');
    HexOfUnhex(fields[1]);
    DecimalOfValue(fields[2]);
    assert fields == Fields(row);
  }

  lemma RowWritten(utf8: Utf8, row: Row)
    requires RowOk(utf8, row)
    ensures ParseRow(utf8, RowLine(row)) == Some(row)
  {
    FieldsVisible(utf8, row);
    AllVisibleJoin(Fields(row));
    UnhexOfHex(row.path);
    IntTextCanonical(row.size);
  }

  ghost predicate RowsAre(utf8: Utf8, lines: seq<string>, n: nat, rows: seq<Row>)
    requires n <= |lines|
  {
    |rows| == n && forall i :: 0 <= i < n ==> RowOk(utf8, rows[i]) && lines[i] == RowLine(rows[i])
  }

  lemma RowsAreNext(utf8: Utf8, lines: seq<string>, n: nat, rows: seq<Row>)
    requires 0 < n <= |lines| && |rows| == n
    ensures RowsAre(utf8, lines, n, rows)
       <==> RowsAre(utf8, lines, n - 1, rows[..n - 1]) && RowOk(utf8, rows[n - 1]) && lines[n - 1] == RowLine(rows[n - 1])
  {
    var init := rows[..n - 1];
    assert forall i :: 0 <= i < n - 1 ==> init[i] == rows[i];
    if RowsAre(utf8, lines, n - 1, init) && RowOk(utf8, rows[n - 1]) && lines[n - 1] == RowLine(rows[n - 1]) {
      forall i | 0 <= i < n
        ensures RowOk(utf8, rows[i]) && lines[i] == RowLine(rows[i])
      {
        assert i < n - 1 ==> rows[i] == init[i];
      }
    }
  }

  lemma {:induction false} RowsIff(utf8: Utf8, lines: seq<string>, n: nat, rows: seq<Row>)
    requires n <= |lines|
    ensures ParseRows(utf8, lines, n) == Some(rows) <==> RowsAre(utf8, lines, n, rows)
  {
    if n > 0 && |rows| == n {
      var init, last := rows[..n - 1], rows[n - 1];
      RowsIff(utf8, lines, n - 1, init);
      RowIff(utf8, lines[n - 1], last);
      RowsAreNext(utf8, lines, n, rows);
      assert rows == init + [last];
      ParseRowsNext(utf8, lines, n, init, last);
    } else if n > 0 {
      ParseRowsLength(utf8, lines, n);
    }
  }

  lemma {:induction false} ParseRowsLength(utf8: Utf8, lines: seq<string>, n: nat)
    requires n <= |lines|
    ensures ParseRows(utf8, lines, n).Some? ==> |ParseRows(utf8, lines, n).value| == n
  {
    if n > 0 {
      ParseRowsLength(utf8, lines, n - 1);
    }
  }

  lemma ParseRowsNext(utf8: Utf8, lines: seq<string>, n: nat, init: seq<Row>, last: Row)
    requires 0 < n <= |lines|
    ensures ParseRows(utf8, lines, n) == Some(init + [last])
       <==> ParseRows(utf8, lines, n - 1) == Some(init) && ParseRow(utf8, lines[n - 1]) == Some(last)
  {
    var rows := init + [last];
    assert rows[..|rows| - 1] == init && rows[|rows| - 1] == last;
    if ParseRows(utf8, lines, n) == Some(rows) {
      var earlier, row := ParseRows(utf8, lines, n - 1).value, ParseRow(utf8, lines[n - 1]).value;
      assert (earlier + [row])[..|rows| - 1] == earlier;
    }
  }

  // ---------------------------------------------------------------- the header lines

  lemma NamesVisible()
    ensures All("bootstrap_sha256", Visible) && All("manifest_sha256", Visible) && All("plan_sha256", Visible)
    ensures All("file_count", Visible) && All("total_bytes", Visible) && All(MAGIC, Visible)
  {
  }

  lemma IntTextVisible(n: int)
    ensures All(IntText(n), Visible)
  {
    if n >= 0 {
      IntTextCanonical(n);
      CanonicalVisible(IntText(n));
    } else {
      CanonicalVisible(Decimal(-n));
    }
  }

  lemma HeadLinesClean(d: Document)
    requires DigestsOk(d)
    ensures forall i :: 0 <= i < 6 ==> All(HeadLines(d)[i], VisibleOrTab)
  {
    NamesVisible();
    VisibleFree(MAGIC);
    HexTextVisible(d.bootstrap);
    HexTextVisible(d.manifest);
    HexTextVisible(d.plan);
    HeaderVisible("bootstrap_sha256", d.bootstrap);
    HeaderVisible("manifest_sha256", d.manifest);
    HeaderVisible("plan_sha256", d.plan);
    IntTextVisible(|d.files|);
    HeaderVisible("file_count", Decimal(|d.files|));
    IntTextVisible(Total(d.files, |d.files|));
    HeaderVisible("total_bytes", IntText(Total(d.files, |d.files|)));
  }

  /** The head is read as three digests and two numbers exactly when it is their six lines. */
  lemma HeadIff(lines: seq<string>, b: string, m: string, p: string, count: nat, total: nat)
    requires |lines| >= 6
    ensures ParseHead(lines) == Some((b, m, p, count, total))
       <==> Digest(b) && Digest(m) && Digest(p) && lines[..6] == HeadOf(b, m, p, count, total)
  {
    NamesVisible();
    if Digest(b) && Digest(m) && Digest(p) {
      DigestHeadIff(lines, b, m, p, count, total);
    }
  }

  function HeadOf(b: string, m: string, p: string, count: nat, total: nat): seq<string> {
    [MAGIC, Header("bootstrap_sha256", b), Header("manifest_sha256", m), Header("plan_sha256", p),
     Header("file_count", Decimal(count)), Header("total_bytes", Decimal(total))]
  }

  lemma NumberHeaderIff(line: string, name: string, n: nat)
    requires All(name, Visible)
    ensures line == Header(name, Decimal(n))
       <==> ParseHeader(line, name).Some? && Canonical(ParseHeader(line, name).value)
            && DecimalValue(ParseHeader(line, name).value) == n
  {
    DecimalIsCanonical(n);
    CanonicalVisible(Decimal(n));
    HeaderIff(line, name, Decimal(n));
    if ParseHeader(line, name).Some? && Canonical(ParseHeader(line, name).value) {
      DecimalOfValue(ParseHeader(line, name).value);
    }
  }

  lemma DigestHeadIff(lines: seq<string>, b: string, m: string, p: string, count: nat, total: nat)
    requires |lines| >= 6 && Digest(b) && Digest(m) && Digest(p)
    ensures ParseHead(lines) == Some((b, m, p, count, total)) <==> lines[..6] == HeadOf(b, m, p, count, total)
  {
    NamesVisible();
    HexTextVisible(b);
    HexTextVisible(m);
    HexTextVisible(p);
    HeaderIff(lines[1], "bootstrap_sha256", b);
    HeaderIff(lines[2], "manifest_sha256", m);
    HeaderIff(lines[3], "plan_sha256", p);
    NumberHeaderIff(lines[4], "file_count", count);
    NumberHeaderIff(lines[5], "total_bytes", total);
    SixLines(lines, HeadOf(b, m, p, count, total));
  }

  lemma SixLines(lines: seq<string>, head: seq<string>)
    requires |lines| >= 6 && |head| == 6
    ensures lines[..6] == head
       <==> lines[0] == head[0] && lines[1] == head[1] && lines[2] == head[2]
            && lines[3] == head[3] && lines[4] == head[4] && lines[5] == head[5]
  {
    var front := lines[..6];
    assert front[0] == lines[0] && front[1] == lines[1] && front[2] == lines[2];
    assert front[3] == lines[3] && front[4] == lines[4] && front[5] == lines[5];
  }

  // ---------------------------------------------------------------- the bijection

  lemma HeadOfDocument(d: Document)
    requires Total(d.files, |d.files|) >= 0
    ensures HeadLines(d) == HeadOf(d.bootstrap, d.manifest, d.plan, |d.files|, Total(d.files, |d.files|))
  {
  }

  lemma LinesRead(utf8: Utf8, lines: seq<string>, d: Document)
    requires ParseLines(utf8, lines) == Some(d)
    ensures LinesValid(utf8, d) && lines == Lines(d)
  {
    var (b, m, p, count, total) := ParseHead(lines).value;
    HeadIff(lines, b, m, p, count, total);
    RowsIff(utf8, lines[6..], count, d.files);
    HeadOfDocument(d);
    assert lines[6..] == RowLines(d.files);
    assert lines == lines[..6] + lines[6..];
  }

  lemma PartsRead(utf8: Utf8, lines: seq<string>, d: Document, total: nat)
    requires |lines| == 6 + |d.files| && 1 <= |d.files| <= MAX_FILES && 1 <= total <= MAX_TOTAL
    requires ParseHead(lines) == Some((d.bootstrap, d.manifest, d.plan, |d.files|, total))
    requires ParseRows(utf8, lines[6..], |d.files|) == Some(d.files) && RosterOk(d, total)
    ensures ParseLines(utf8, lines) == Some(d)
  {
  }

  lemma HeadWritten(d: Document)
    requires DigestsOk(d) && Total(d.files, |d.files|) >= 0
    ensures ParseHead(Lines(d)) == Some((d.bootstrap, d.manifest, d.plan, |d.files|, Total(d.files, |d.files|)))
  {
    HeadOfDocument(d);
    assert Lines(d)[..6] == HeadLines(d);
    HeadIff(Lines(d), d.bootstrap, d.manifest, d.plan, |d.files|, Total(d.files, |d.files|));
  }

  lemma RowsWritten(utf8: Utf8, d: Document)
    requires RowsOk(utf8, d.files)
    ensures ParseRows(utf8, Lines(d)[6..], |d.files|) == Some(d.files)
  {
    assert Lines(d)[6..] == RowLines(d.files);
    RowsIff(utf8, RowLines(d.files), |d.files|, d.files);
  }

  lemma LinesWritten(utf8: Utf8, d: Document)
    requires LinesValid(utf8, d)
    ensures ParseLines(utf8, Lines(d)) == Some(d)
  {
    HeadWritten(d);
    RowsWritten(utf8, d);
    PartsRead(utf8, Lines(d), d, Total(d.files, |d.files|));
  }

  lemma LinesClean(utf8: Utf8, d: Document)
    requires LinesValid(utf8, d)
    ensures forall i :: 0 <= i < |Lines(d)| ==> All(Lines(d)[i], VisibleOrTab)
  {
    HeadLinesClean(d);
    forall i | 0 <= i < |d.files|
      ensures All(RowLines(d.files)[i], VisibleOrTab)
    {
      FieldsVisible(utf8, d.files[i]);
      AllVisibleJoin(Fields(d.files[i]));
    }
  }

  predicate VisibleText(c: char) {
    VisibleOrTab(c) || c == '\n'
  }

  lemma CleanLinesSplit(lines: seq<string>)
    requires lines != [] && forall i :: 0 <= i < |lines| ==> All(lines[i], VisibleOrTab)
    ensures Split(Join(lines, '\n'), '\n') == lines
    ensures All(Join(lines, '\n'), VisibleText)
  {
    forall i | 0 <= i < |lines|
      ensures Free(lines[i], '\n') && All(lines[i], VisibleText)
    {
      LineFree(lines[i]);
    }
    assert AllFree(lines, '\n');
    SplitOfJoin(lines, '\n');
    JoinAll(lines, '\n', VisibleText);
  }

  lemma LastLineFeed(payload: string, text: string)
    requires payload != "" && payload[|payload| - 1] == '\n' && text == payload[..|payload| - 1]
    ensures payload == text + "\n"
  {
  }

  lemma PayloadRead(utf8: Utf8, payload: string, d: Document)
    requires Parse(utf8, payload) == Some(d)
    ensures LinesValid(utf8, d) && payload == Render(d)
  {
    var text := payload[..|payload| - 1];
    var lines := Split(text, '\n');
    JoinOfSplit(text, '\n');
    LastLineFeed(payload, text);
    LinesRead(utf8, lines, d);
    assert Join(Lines(d), '\n') == text;
  }

  lemma RenderText(utf8: Utf8, d: Document)
    requires LinesValid(utf8, d)
    ensures Ascii(Render(d)) && Split(Render(d)[..|Render(d)| - 1], '\n') == Lines(d)
  {
    LinesClean(utf8, d);
    CleanLinesSplit(Lines(d));
    TextWithLineFeed(Join(Lines(d), '\n'));
  }

  lemma TextWithLineFeed(text: string)
    requires All(text, VisibleText)
    ensures Ascii(text + "\n") && (text + "\n")[..|text + "\n"| - 1] == text
  {
  }

  lemma PayloadWritten(utf8: Utf8, d: Document)
    requires Valid(utf8, d)
    ensures Parse(utf8, Render(d)) == Some(d)
  {
    RenderText(utf8, d);
    LinesWritten(utf8, d);
  }

  /** The validator accepts a payload as a document exactly when the document is valid and the payload
      is its print: every accepted payload is canonical, and every valid document reads back. */
  lemma ParseIff(utf8: Utf8, payload: string, d: Document)
    ensures Parse(utf8, payload) == Some(d) <==> Valid(utf8, d) && payload == Render(d)
  {
    if Parse(utf8, payload) == Some(d) {
      PayloadRead(utf8, payload, d);
    }
    if Valid(utf8, d) && payload == Render(d) {
      PayloadWritten(utf8, d);
    }
  }

  // ---------------------------------------------------------------- the printer

  lemma {:induction false} LeqTotal(a: seq<byte>, b: seq<byte>)
    ensures Leq(a, b) || Leq(b, a)
  {
    if a != [] && b != [] && a[0] == b[0] {
      LeqTotal(a[1..], b[1..]);
    }
  }

  lemma {:induction false} LeqTransitive(a: seq<byte>, b: seq<byte>, c: seq<byte>)
    requires Leq(a, b) && Leq(b, c)
    ensures Leq(a, c)
  {
    if a != [] && a[0] == b[0] && b[0] == c[0] {
      LeqTransitive(a[1..], b[1..], c[1..]);
    }
  }

  predicate Sorted(rows: seq<Row>) {
    forall i, j :: 0 <= i < j < |rows| ==> Leq(rows[i].path, rows[j].path)
  }

  function Insert(rows: seq<Row>, row: Row): (inserted: seq<Row>)
    ensures multiset(inserted) == multiset(rows) + multiset{row}
  {
    if rows == [] then [row]
    else if Leq(rows[|rows| - 1].path, row.path) then rows + [row]
    else
      var init, last := rows[..|rows| - 1], rows[|rows| - 1];
      assert rows == init + [last];
      Insert(init, row) + [last]
  }

  /** The printer's stable sort by path bytes. */
  function SortRows(rows: seq<Row>): (sorted: seq<Row>)
    ensures multiset(sorted) == multiset(rows)
  {
    if rows == [] then []
    else
      assert rows == rows[..|rows| - 1] + [rows[|rows| - 1]];
      Insert(SortRows(rows[..|rows| - 1]), rows[|rows| - 1])
  }

  lemma {:induction false} InsertSorted(rows: seq<Row>, row: Row)
    requires Sorted(rows)
    ensures Sorted(Insert(rows, row))
  {
    if rows != [] {
      var init, last := rows[..|rows| - 1], rows[|rows| - 1];
      assert Below(init, last.path);
      if Leq(last.path, row.path) {
        BelowTransitive(init, last.path, row.path);
        SortedPush(rows, row);
      } else {
        LeqTotal(last.path, row.path);
        InsertSorted(init, row);
        InsertBelow(init, row, last.path);
        SortedPush(Insert(init, row), last);
      }
    }
  }

  lemma BelowTransitive(rows: seq<Row>, middle: seq<byte>, top: seq<byte>)
    requires Below(rows, middle) && Leq(middle, top)
    ensures Below(rows, top)
  {
    forall i | 0 <= i < |rows|
      ensures Leq(rows[i].path, top)
    {
      LeqTransitive(rows[i].path, middle, top);
    }
  }

  predicate Below(rows: seq<Row>, top: seq<byte>) {
    forall i :: 0 <= i < |rows| ==> Leq(rows[i].path, top)
  }

  lemma {:induction false} InsertBelow(rows: seq<Row>, row: Row, top: seq<byte>)
    requires Below(rows, top) && Leq(row.path, top)
    ensures Below(Insert(rows, row), top)
  {
    if rows != [] && !Leq(rows[|rows| - 1].path, row.path) {
      InsertBelow(rows[..|rows| - 1], row, top);
    }
  }

  lemma SortedPush(rows: seq<Row>, last: Row)
    requires Sorted(rows) && Below(rows, last.path)
    ensures Sorted(rows + [last])
  {
  }

  lemma {:induction false} SortRowsSorted(rows: seq<Row>)
    ensures Sorted(SortRows(rows))
  {
    if rows != [] {
      SortRowsSorted(rows[..|rows| - 1]);
      InsertSorted(SortRows(rows[..|rows| - 1]), rows[|rows| - 1]);
    }
  }

  function Strip(digest: string): string {
    if PREFIX <= digest then digest[|PREFIX|..] else ""
  }

  predicate Prefixed(digest: string) {
    PREFIX <= digest && Digest(digest[|PREFIX|..])
  }

  function Stripped(files: seq<Row>): seq<Row> {
    seq(|files|, i requires 0 <= i < |files| => files[i].(sha256 := Strip(files[i].sha256)))
  }

  /** The document a printer call describes: its rows, in path order, without digest prefixes. */
  function Described(bootstrap: string, manifest: string, plan: string, files: seq<Row>): Document {
    Document(Strip(bootstrap), Strip(manifest), Strip(plan), SortRows(Stripped(files)))
  }

  /** The printer: it prints whatever it was given and then puts the result through the validator. */
  function Print(utf8: Utf8, bootstrap: string, manifest: string, plan: string, files: seq<Row>): Option<string> {
    if !Prefixed(bootstrap) || !Prefixed(manifest) || !Prefixed(plan) then None
    else
      var payload := Render(Described(bootstrap, manifest, plan, files));
      if Parse(utf8, payload).Some? then Some(payload) else None
  }

  lemma RowLineBindsRow(utf8: Utf8, good: Row, row: Row)
    requires RowOk(utf8, good) && RowLine(good) == RowLine(row)
    ensures row == good
  {
    FieldsVisible(utf8, good);
    AllVisibleJoin(Fields(good));
    SplitOfJoin(Fields(row), '\t');
    assert Fields(row) == Fields(good);
    assert Fields(row)[1] == Hex(row.path) && Fields(row)[2] == IntText(row.size);
    assert Fields(row)[3] == row.sha256 && Fields(row)[4] == row.mode;
    UnhexOfHex(row.path);
    UnhexOfHex(good.path);
    IntTextCanonical(row.size);
    IntTextCanonical(good.size);
  }

  lemma HeadBindsCount(d: Document, e: Document)
    requires DigestsOk(d) && DigestsOk(e) && HeadLines(d) == HeadLines(e)
    ensures d.bootstrap == e.bootstrap && d.manifest == e.manifest && d.plan == e.plan && |d.files| == |e.files|
  {
    NamesVisible();
    HexTextVisible(d.bootstrap);
    HexTextVisible(d.manifest);
    HexTextVisible(d.plan);
    HexTextVisible(e.bootstrap);
    HexTextVisible(e.manifest);
    HexTextVisible(e.plan);
    IntTextVisible(|d.files|);
    IntTextVisible(|e.files|);
    assert HeadLines(d)[1] == HeadLines(e)[1] && HeadLines(d)[2] == HeadLines(e)[2];
    assert HeadLines(d)[3] == HeadLines(e)[3] && HeadLines(d)[4] == HeadLines(e)[4];
    HeaderVisible("bootstrap_sha256", d.bootstrap);
    HeaderVisible("bootstrap_sha256", e.bootstrap);
    HeaderVisible("manifest_sha256", d.manifest);
    HeaderVisible("manifest_sha256", e.manifest);
    HeaderVisible("plan_sha256", d.plan);
    HeaderVisible("plan_sha256", e.plan);
    HeaderVisible("file_count", Decimal(|d.files|));
    HeaderVisible("file_count", Decimal(|e.files|));
  }

  /** Even fields holding tabs or line feeds cannot print as somebody else's descriptor: the counts give
      them away. */
  lemma PrintBindsDocument(utf8: Utf8, good: Document, d: Document)
    requires LinesValid(utf8, good) && DigestsOk(d) && Render(d) == Render(good)
    ensures d == good
  {
    PrintBindsLines(utf8, good, d);
    LinesBindRows(utf8, good.files, d.files, Lines(good), Lines(d));
  }

  lemma LinesBindRows(utf8: Utf8, good: seq<Row>, rows: seq<Row>, goodLines: seq<string>, lines: seq<string>)
    requires RowsOk(utf8, good) && |rows| == |good| && |goodLines| == |lines| == 6 + |rows| && lines == goodLines
    requires goodLines[6..] == RowLines(good) && lines[6..] == RowLines(rows)
    ensures rows == good
  {
    forall i | 0 <= i < |rows|
      ensures rows[i] == good[i]
    {
      assert RowLines(rows)[i] == RowLine(rows[i]) && RowLines(good)[i] == RowLine(good[i]);
      RowLineBindsRow(utf8, good[i], rows[i]);
    }
  }

  lemma PrintBindsLines(utf8: Utf8, good: Document, d: Document)
    requires LinesValid(utf8, good) && DigestsOk(d) && Render(d) == Render(good)
    ensures d.bootstrap == good.bootstrap && d.manifest == good.manifest && d.plan == good.plan
    ensures |d.files| == |good.files| && Lines(d) == Lines(good)
  {
    assert Render(d)[..|Render(d)| - 1] == Join(Lines(d), '\n');
    assert Render(good)[..|Render(good)| - 1] == Join(Lines(good), '\n');
    LinesClean(utf8, good);
    CleanLinesSplit(Lines(good));
    PrintBindsHead(d, good);
    SplitOfJoin(Lines(d), '\n');
  }

  lemma PrintBindsHead(d: Document, good: Document)
    requires DigestsOk(d) && DigestsOk(good) && |good.files| > 0
    requires Join(Lines(d), '\n') == Join(Lines(good), '\n') && Split(Join(Lines(good), '\n'), '\n') == Lines(good)
    ensures d.bootstrap == good.bootstrap && d.manifest == good.manifest && d.plan == good.plan
    ensures |d.files| == |good.files|
  {
    HeadLinesClean(d);
    forall i | 0 <= i < 6
      ensures Free(HeadLines(d)[i], '\n')
    {
      LineFree(HeadLines(d)[i]);
    }
    if d.files == [] {
      assert Lines(d) == HeadLines(d);
      assert AllFree(HeadLines(d), '\n');
      SplitOfJoin(HeadLines(d), '\n');
      assert false;
    } else {
      assert AllFree(HeadLines(d), '\n');
      SplitHeads(HeadLines(d), RowLines(d.files), '\n');
      assert Lines(good)[..6] == HeadLines(good);
      assert Lines(good)[..6] == HeadLines(d);
      HeadBindsCount(d, good);
    }
  }

  /** The printer succeeds exactly on valid documents, and what it prints reads back as the digests and
      rows it was given, the rows sorted by path bytes. */
  lemma PrintIff(utf8: Utf8, bootstrap: string, manifest: string, plan: string, files: seq<Row>)
    ensures var d := Described(bootstrap, manifest, plan, files);
      && (Print(utf8, bootstrap, manifest, plan, files).Some?
          <==> Prefixed(bootstrap) && Prefixed(manifest) && Prefixed(plan) && Valid(utf8, d))
      && (Print(utf8, bootstrap, manifest, plan, files).Some? ==>
            Parse(utf8, Print(utf8, bootstrap, manifest, plan, files).value) == Some(d))
  {
    var d := Described(bootstrap, manifest, plan, files);
    if Prefixed(bootstrap) && Prefixed(manifest) && Prefixed(plan) {
      ParseIff(utf8, Render(d), d);
      if Parse(utf8, Render(d)).Some? {
        var read := Parse(utf8, Render(d)).value;
        ParseIff(utf8, Render(d), read);
        PrintBindsDocument(utf8, read, d);
      }
    }
  }

  /** What is printed are the given rows, in path order. */
  lemma DescribedIsSorted(bootstrap: string, manifest: string, plan: string, files: seq<Row>)
    ensures var d := Described(bootstrap, manifest, plan, files);
            Sorted(d.files) && multiset(d.files) == multiset(Stripped(files))
  {
    SortRowsSorted(Stripped(files));
  }

  /** A row without the prefix of its digest; a digest that has none is left out. */
  ghost predicate Unprefixed(given: Row, printed: Row) {
    && printed.path == given.path && printed.size == given.size && printed.mode == given.mode
    && (if PREFIX <= given.sha256 then given.sha256 == "sha256:" + printed.sha256 else printed.sha256 == "")
  }

  /** The printed digests are the given ones, each in its place, and so are the fields of each row. */
  lemma DescribesInput(bootstrap: string, manifest: string, plan: string, files: seq<Row>)
    requires Prefixed(bootstrap) && Prefixed(manifest) && Prefixed(plan)
    ensures var d := Described(bootstrap, manifest, plan, files);
      && "sha256:" + d.bootstrap == bootstrap && "sha256:" + d.manifest == manifest && "sha256:" + d.plan == plan
      && multiset(d.files) == multiset(Stripped(files))
    ensures |Stripped(files)| == |files| && forall i :: 0 <= i < |files| ==> Unprefixed(files[i], Stripped(files)[i])
  {
  }

  // ---------------------------------------------------------------- the text of a descriptor

  function FileText(files: seq<Row>): string {
    if files == [] then ""
    else
      "FILE\t" + Hex(files[0].path) + "\t" + IntText(files[0].size) + "\t" + files[0].sha256 + "\t" + files[0].mode + "\n"
      + FileText(files[1..])
  }

  function HeaderText(name: string, value: string): string {
    name + "\t" + value + "\n"
  }

  function HeadText(d: Document): string {
    "METIS-W3-PHASE-B-BOOTSTRAP-V1\n"
    + HeaderText("bootstrap_sha256", d.bootstrap)
    + HeaderText("manifest_sha256", d.manifest)
    + HeaderText("plan_sha256", d.plan)
    + HeaderText("file_count", Decimal(|d.files|))
    + HeaderText("total_bytes", IntText(Total(d.files, |d.files|)))
  }

  /** A document, written out character by character. */
  function Text(d: Document): string {
    HeadText(d) + FileText(d.files)
  }

  function Ended(lines: seq<string>): string {
    if lines == [] then "" else lines[0] + "\n" + Ended(lines[1..])
  }

  lemma {:induction false} JoinEnded(lines: seq<string>)
    requires lines != []
    ensures Join(lines, '\n') + "\n" == Ended(lines)
  {
    if |lines| > 1 {
      JoinEnded(lines[1..]);
    } else {
      assert lines[1..] == [];
      assert Ended(lines) == lines[0] + "\n" + Ended([]);
    }
  }

  lemma {:induction false} EndedConcat(first: seq<string>, second: seq<string>)
    ensures Ended(first + second) == Ended(first) + Ended(second)
  {
    if first == [] {
      assert first + second == second;
    } else {
      EndedConcat(first[1..], second);
      assert (first + second)[1..] == first[1..] + second;
    }
  }

  lemma JoinNext(parts: seq<string>, head: string, tail: string)
    requires |parts| > 1 && parts[0] == head && Join(parts[1..], '\t') == tail
    ensures Join(parts, '\t') == head + "\t" + tail
  {
  }

  lemma JoinFive(parts: seq<string>)
    requires |parts| == 5
    ensures Join(parts, '\t') == parts[0] + "\t" + (parts[1] + "\t" + (parts[2] + "\t" + (parts[3] + "\t" + parts[4])))
  {
    assert parts[1..][1..] == parts[2..] && parts[2..][1..] == parts[3..] && parts[3..][1..] == parts[4..];
    JoinNext(parts[3..], parts[3], parts[4]);
    JoinNext(parts[2..], parts[2], parts[3] + "\t" + parts[4]);
    JoinNext(parts[1..], parts[1], parts[2] + "\t" + (parts[3] + "\t" + parts[4]));
  }

  lemma RowText(row: Row)
    ensures RowLine(row) == "FILE\t" + Hex(row.path) + "\t" + IntText(row.size) + "\t" + row.sha256 + "\t" + row.mode
  {
    JoinFive(Fields(row));
    assert "FILE\t" == "FILE" + "\t";
  }

  lemma {:induction false} FilesText(files: seq<Row>)
    ensures Ended(RowLines(files)) == FileText(files)
  {
    if files != [] {
      FilesText(files[1..]);
      RowText(files[0]);
      assert RowLines(files)[1..] == RowLines(files[1..]);
    }
  }

  lemma EndedHeader(name: string, value: string)
    ensures Header(name, value) + "\n" == HeaderText(name, value)
  {
    assert Join([name, value], '\t') == name + "\t" + value;
  }

  lemma EndedHead(d: Document)
    ensures Ended(HeadLines(d)) == HeadText(d)
  {
    EndedHeader("bootstrap_sha256", d.bootstrap);
    EndedHeader("manifest_sha256", d.manifest);
    EndedHeader("plan_sha256", d.plan);
    EndedHeader("file_count", Decimal(|d.files|));
    EndedHeader("total_bytes", IntText(Total(d.files, |d.files|)));
    EndedSix(HeadLines(d), HeaderText("bootstrap_sha256", d.bootstrap), HeaderText("manifest_sha256", d.manifest),
             HeaderText("plan_sha256", d.plan), HeaderText("file_count", Decimal(|d.files|)),
             HeaderText("total_bytes", IntText(Total(d.files, |d.files|))));
  }

  lemma EndedSix(lines: seq<string>, b: string, c: string, d: string, e: string, f: string)
    requires |lines| == 6 && lines[1] + "\n" == b && lines[2] + "\n" == c && lines[3] + "\n" == d
    requires lines[4] + "\n" == e && lines[5] + "\n" == f
    ensures Ended(lines) == lines[0] + "\n" + b + c + d + e + f
  {
    assert Ended(lines[6..]) == "";
    assert Ended(lines[5..]) == f + Ended(lines[6..]) == f;
    assert Ended(lines[4..]) == e + Ended(lines[5..]);
    assert Ended(lines[3..]) == d + Ended(lines[4..]);
    assert Ended(lines[2..]) == c + Ended(lines[3..]);
    assert Ended(lines[1..]) == b + Ended(lines[2..]);
  }

  lemma RenderIsText(d: Document)
    ensures Render(d) == Text(d)
  {
    JoinEnded(Lines(d));
    EndedConcat(HeadLines(d), RowLines(d.files));
    EndedHead(d);
    FilesText(d.files);
  }

  // ---------------------------------------------------------------- validity in closed terms

  predicate HexDigest(text: string) {
    |text| == 64 && forall i :: 0 <= i < 64 ==> text[i] in "0123456789abcdef"
  }

  lemma DigestIff(text: string)
    ensures Digest(text) <==> HexDigest(text)
  {
  }

  /** A path of printable bytes with no empty, dot or overlong component. */
  ghost predicate SafePath(utf8: Utf8, path: seq<byte>) {
    && 1 <= |path| <= 1024 && utf8(path)
    && (forall i :: 0 <= i < |path| ==> path[i] >= 32 && path[i] != 127)
    && (forall i: nat, j: nat :: Component(path, 47, i, j) ==> 1 <= j - i <= 255 && path[i..j] != [46] && path[i..j] != [46, 46])
  }

  lemma DotParts(part: seq<byte>)
    ensures PartOk(part) <==> 1 <= |part| <= 255 && part != [46] && part != [46, 46]
  {
    assert AsciiBytes(".") == [46] && AsciiBytes("..") == [46, 46];
  }

  lemma PathIff(utf8: Utf8, path: seq<byte>)
    ensures PathOk(utf8, path) <==> SafePath(utf8, path)
  {
    var parts := Split(path, 47 as byte);
    if PathOk(utf8, path) {
      forall i: nat, j: nat | Component(path, 47, i, j)
        ensures 1 <= j - i <= 255 && path[i..j] != [46] && path[i..j] != [46, 46]
      {
        var n := ComponentIsPart(path, 47, i, j);
        DotParts(parts[n]);
      }
    }
    if SafePath(utf8, path) {
      forall n | 0 <= n < |parts|
        ensures PartOk(parts[n])
      {
        var i, j := PartIsComponent(path, 47, n);
        DotParts(parts[n]);
      }
    }
  }

  /** Byte order: a proper prefix comes first, else the first difference decides. */
  ghost predicate Before(a: seq<byte>, b: seq<byte>) {
    a < b || exists k: nat :: DiffersAt(a, b, k) && a[k] < b[k]
  }

  ghost predicate DiffersAt(a: seq<byte>, b: seq<byte>, k: nat) {
    k < |a| && k < |b| && a[..k] == b[..k] && a[k] != b[k]
  }

  lemma {:induction false} LeqIff(a: seq<byte>, b: seq<byte>)
    ensures Leq(a, b) && a != b <==> Before(a, b)
  {
    if a != [] && b != [] && a[0] == b[0] {
      LeqIff(a[1..], b[1..]);
      BeforeCons(a, b);
    } else if a != [] && b != [] {
      assert a[..0] == b[..0];
      assert DiffersAt(a, b, 0);
      assert Before(a, b) ==> a[0] < b[0] by {
        if Before(a, b) && !(a < b) {
          var k: nat :| DiffersAt(a, b, k) && a[k] < b[k];
          assert k > 0 ==> a[..k][0] == b[..k][0];
        }
      }
    }
  }

  lemma BeforeCons(a: seq<byte>, b: seq<byte>)
    requires a != [] && b != [] && a[0] == b[0]
    ensures Before(a, b) <==> Before(a[1..], b[1..])
    ensures a == b <==> a[1..] == b[1..]
  {
    assert a == [a[0]] + a[1..] && b == [b[0]] + b[1..];
    if k: nat :| DiffersAt(a, b, k) && a[k] < b[k] {
      assert a[1..][..k - 1] == a[..k][1..] && b[1..][..k - 1] == b[..k][1..];
      assert DiffersAt(a[1..], b[1..], k - 1);
    }
    if k: nat :| DiffersAt(a[1..], b[1..], k) && a[1..][k] < b[1..][k] {
      assert a[..k + 1] == [a[0]] + a[1..][..k] && b[..k + 1] == [b[0]] + b[1..][..k];
      assert DiffersAt(a, b, k + 1);
    }
  }

  predicate Spells(path: seq<byte>, text: string) {
    |path| == |text| && forall i :: 0 <= i < |path| ==> path[i] as int == text[i] as int
  }

  /** Some file of this name has this digest. */
  ghost predicate Lists(files: seq<Row>, name: string, sha256: string) {
    exists i :: 0 <= i < |files| && Spells(files[i].path, name) && files[i].sha256 == sha256
  }

  lemma SpellsIff(path: seq<byte>, text: string)
    requires forall i :: 0 <= i < |text| ==> text[i] as int < 128
    ensures path == AsciiBytes(text) <==> Spells(path, text)
  {
  }

  lemma ListsIff(files: seq<Row>, name: string, sha256: string)
    requires forall i :: 0 <= i < |name| ==> name[i] as int < 128
    ensures Binds(files, AsciiBytes(name), sha256) <==> Lists(files, name, sha256)
  {
    forall i | 0 <= i < |files|
      ensures files[i].path == AsciiBytes(name) <==> Spells(files[i].path, name)
    {
      SpellsIff(files[i].path, name);
    }
  }

  ghost predicate SafeRow(utf8: Utf8, row: Row) {
    && SafePath(utf8, row.path)
    && 0 <= row.size <= 2_147_483_648
    && HexDigest(row.sha256)
    && (row.mode == "0444" || row.mode == "0555")
  }

  lemma RowOkIff(utf8: Utf8, row: Row)
    ensures RowOk(utf8, row) <==> SafeRow(utf8, row)
  {
    PathIff(utf8, row.path);
    DigestIff(row.sha256);
  }

  ghost predicate SafeRows(utf8: Utf8, rows: seq<Row>) {
    forall i :: 0 <= i < |rows| ==> SafeRow(utf8, rows[i])
  }

  ghost predicate InOrder(rows: seq<Row>) {
    forall i, j :: 0 <= i < j < |rows| ==> Before(rows[i].path, rows[j].path)
  }

  /** What a document must be to have a descriptor, in closed terms. */
  ghost predicate Consents(utf8: Utf8, d: Document) {
    && HexDigests(d)
    && 1 <= |d.files| <= 8_192
    && 1 <= Total(d.files, |d.files|) <= 2_147_483_648
    && SafeRows(utf8, d.files) && InOrder(d.files)
    && ListsMetadata(d)
    && |Text(d)| <= 33_554_432
  }

  lemma AscendingIff(rows: seq<Row>)
    ensures Ascending(rows) <==> InOrder(rows)
  {
    forall i, j | 0 <= i < j < |rows|
      ensures Leq(rows[i].path, rows[j].path) && rows[i].path != rows[j].path <==> Before(rows[i].path, rows[j].path)
    {
      LeqIff(rows[i].path, rows[j].path);
    }
  }

  lemma RowsOkIff(utf8: Utf8, rows: seq<Row>)
    ensures RowsOk(utf8, rows) <==> SafeRows(utf8, rows)
  {
    forall i | 0 <= i < |rows|
      ensures RowOk(utf8, rows[i]) <==> SafeRow(utf8, rows[i])
    {
      RowOkIff(utf8, rows[i]);
    }
  }

  ghost predicate ListsMetadata(d: Document) {
    && Lists(d.files, "metadata/w3-phase-b-install-bundle.json", d.manifest)
    && Lists(d.files, "metadata/install-plan.json", d.plan)
  }

  ghost predicate BindsMetadata(d: Document) {
    Binds(d.files, AsciiBytes(MANIFEST_PATH), d.manifest) && Binds(d.files, AsciiBytes(PLAN_PATH), d.plan)
  }

  lemma MetadataIff(d: Document)
    ensures BindsMetadata(d) <==> ListsMetadata(d)
  {
    ListsIff(d.files, MANIFEST_PATH, d.manifest);
    ListsIff(d.files, PLAN_PATH, d.plan);
  }

  ghost predicate HexDigests(d: Document) {
    HexDigest(d.bootstrap) && HexDigest(d.manifest) && HexDigest(d.plan)
  }

  lemma DigestsIff(d: Document)
    ensures DigestsOk(d) <==> HexDigests(d)
  {
    DigestIff(d.bootstrap);
    DigestIff(d.manifest);
    DigestIff(d.plan);
  }

  lemma RosterOkIff(d: Document)
    ensures RosterOk(d, Total(d.files, |d.files|)) <==> InOrder(d.files) && ListsMetadata(d)
  {
    AscendingIff(d.files);
    MetadataIff(d);
  }

  lemma ValidIff(utf8: Utf8, d: Document)
    ensures Valid(utf8, d) <==> Consents(utf8, d)
  {
    RenderIsText(d);
    DigestsIff(d);
    RowsOkIff(utf8, d.files);
    RosterOkIff(d);
  }

  /** The validator accepts a payload as a document exactly when the payload is the document written out
      line by line and the document is one a descriptor may consent to. */
  lemma AcceptedText(utf8: Utf8, payload: string, d: Document)
    ensures Parse(utf8, payload) == Some(d) <==> payload == Text(d) && Consents(utf8, d)
  {
    ParseIff(utf8, payload, d);
    ValidIff(utf8, d);
    RenderIsText(d);
  }

  /** The total is the sum of the sizes, whatever the order of the rows. */
  lemma {:induction false} TotalAdds(left: seq<Row>, right: seq<Row>)
    ensures Total(left + right, |left + right|) == Total(left, |left|) + Total(right, |right|)
    ensures |right| == 1 ==> Total(right, 1) == right[0].size
    decreases |right|
  {
    if right == [] {
      assert left + right == left;
    } else {
      var init, last := right[..|right| - 1], right[|right| - 1];
      TotalAdds(left, init);
      assert left + right == left + init + [last] && right == init + [last];
      TotalLocal(left + init, left + right, |left + init|);
      TotalLocal(init, right, |init|);
    }
  }

  lemma {:induction false} TotalLocal(rows: seq<Row>, more: seq<Row>, n: nat)
    requires rows <= more && n <= |rows|
    ensures Total(more, n) == Total(rows, n)
  {
    if n > 0 {
      TotalLocal(rows, more, n - 1);
    }
  }
}
