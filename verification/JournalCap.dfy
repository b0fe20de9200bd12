/** When the record cap can lock the install journal, and a journal that it does lock. */
module JournalCap {
  import opened Wrappers
  import opened Bytes
  import opened FramedLog
  import opened InstallEvents
  import opened InstallInvariant
  import opened InstallStorage
  import opened FailingInstall
  import opened TransitionJournal

  /** The longest records of which one more than the record cap still fits into the byte cap. */
  const LOCKING_SIZE: nat := 1_019

  /** Every record that parses is longer than that. */
  ghost predicate LongRecords(codec: Codec) {
    forall body :: codec.parse(body).Some? ==> |body| > LOCKING_SIZE
  }

  /** With such records the byte cap is reached first: no run of appends ever locks the journal. */
  lemma LongRecordsNeverLock(codec: Codec, attempts: seq<Attempt>, n: nat)
    requires Canonical(codec) && LongRecords(codec) && n <= |attempts|
    ensures |Landed(codec, attempts, n)| <= MAX_RECORDS
    ensures !ScanLog(JournalFormat(codec), AfterRun(codec, attempts, n)).Oversize?
  {
    var payloads := Landed(codec, attempts, n);
    var bodies := Journal(codec, payloads);
    RunReadsAsLanded(codec, attempts, n);
    TracksReads(codec, AfterRun(codec, attempts, n), payloads);
    UncappedPrefix(JournalFormat(codec), AfterRun(codec, attempts, n), bodies);
    forall i | 0 <= i < |bodies|
      ensures |bodies[i]| >= LOCKING_SIZE + 1
    {
      assert JournalFormat(codec).admits(bodies[..i], bodies[i]);
    }
    ImageAtLeast(bodies, |bodies|, LOCKING_SIZE + 1);
    assert |bodies| > MAX_RECORDS ==> |bodies| * 1024 >= (MAX_RECORDS + 1) * 1024;
  }

  /** With short records it does: the journal of the first 65,536 is read, the next append finds room and
      writes its frame, and from then on nothing is read. */
  lemma ShortRecordsLock(codec: Codec, payloads: seq<Payload>, last: Payload)
    requires Canonical(codec) && |payloads| == MAX_RECORDS
    requires forall i :: 0 <= i <= MAX_RECORDS ==> |Journal(codec, payloads + [last])[i]| <= LOCKING_SIZE
    ensures var raw := Image(Journal(codec, payloads));
      && ReadableAs(codec, raw, payloads)
      && Room(codec, payloads, last)
      && forall bytes :: bytes >= 4 + LOCKING_SIZE ==>
           ScanLog(JournalFormat(codec), AfterAppend(codec, raw, last, bytes)) == Oversize
  {
    var bodies, next := Journal(codec, payloads), NextBody(codec, Journal(codec, payloads), last);
    JournalAppend(codec, payloads, last);
    assert forall i :: 0 <= i < MAX_RECORDS ==> bodies[i] == Journal(codec, payloads + [last])[i];
    assert next == Journal(codec, payloads + [last])[MAX_RECORDS];
    ImageAtMost(bodies, |bodies|, LOCKING_SIZE);
    WrittenIsReadable(codec, payloads);
    WrittenIsAccepted(codec, payloads);
    ScanOfImage(Uncapped(JournalFormat(codec)), bodies, []);
    assert Image(bodies) + [] == Image(bodies);
    assert Tracks(codec, Image(bodies), payloads);
    forall bytes | bytes >= 4 + LOCKING_SIZE
      ensures ScanLog(JournalFormat(codec), AfterAppend(codec, Image(bodies), last, bytes)) == Oversize
    {
      assert Later(codec, payloads, last, bytes) == payloads + [last];
      AppendLocksIff(codec, Image(bodies), payloads, last, bytes);
    }
  }

  /** Such an append lands. */
  lemma ShortRecordLands(codec: Codec, payloads: seq<Payload>, last: Payload, bytes: nat)
    requires Canonical(codec) && |payloads| == MAX_RECORDS && bytes >= 4 + LOCKING_SIZE
    requires forall i :: 0 <= i <= MAX_RECORDS ==> |Journal(codec, payloads + [last])[i]| <= LOCKING_SIZE
    ensures OnFile(codec, AfterAppend(codec, Image(Journal(codec, payloads)), last, bytes), payloads + [last])
  {
    var raw := Image(Journal(codec, payloads));
    ShortRecordsLock(codec, payloads, last);
    JournalAppend(codec, payloads, last);
    assert NextBody(codec, Journal(codec, payloads), last) == Journal(codec, payloads + [last])[MAX_RECORDS];
    WholeTracks(codec, payloads);
    AttemptStep(codec, payloads, raw, last, bytes);
    OnFileHolds(codec, AfterAppend(codec, raw, last, bytes), payloads + [last]);
  }

  lemma WholeTracks(codec: Codec, payloads: seq<Payload>)
    requires Canonical(codec) && ReadableAs(codec, Image(Journal(codec, payloads)), payloads)
    requires |Image(Journal(codec, payloads))| <= MAX_BYTES
    ensures Tracks(codec, Image(Journal(codec, payloads)), payloads)
  {
    ReadableIffWritten(codec, Image(Journal(codec, payloads)), payloads);
    WrittenIsAccepted(codec, payloads);
    ScanOfImage(Uncapped(JournalFormat(codec)), Journal(codec, payloads), []);
    assert Image(Journal(codec, payloads)) + [] == Image(Journal(codec, payloads));
  }

  // ---------------------------------------------------------------- a codec with short records

  /** A number that tells where it ends: digits below 255, then 255. */
  ghost function Number(n: nat): (code: seq<byte>)
    ensures code != []
  {
    if n == 0 then [255] else [n % 255] + Number(n / 255)
  }

  ghost function Numbers(values: seq<nat>): seq<byte> {
    if values == [] then [] else Number(values[0]) + Numbers(values[1..])
  }

  lemma {:induction false} NumberReads(n: nat, m: nat, left: seq<byte>, right: seq<byte>)
    requires Number(n) + left == Number(m) + right
    ensures n == m && left == right
  {
    var whole := Number(n) + left;
    assert whole[0] == Number(n)[0] == Number(m)[0];
    if n == 0 || m == 0 {
      assert n == 0 && m == 0;
      assert left == whole[1..] == right;
    } else {
      assert whole[1..] == Number(n / 255) + left;
      assert whole[1..] == Number(m / 255) + right;
      NumberReads(n / 255, m / 255, left, right);
    }
  }

  lemma {:induction false} NumbersRead(left: seq<nat>, right: seq<nat>)
    requires Numbers(left) == Numbers(right)
    ensures left == right
  {
    if left != [] && right != [] {
      NumberReads(left[0], right[0], Numbers(left[1..]), Numbers(right[1..]));
      NumbersRead(left[1..], right[1..]);
      assert left == [left[0]] + left[1..] && right == [right[0]] + right[1..];
    }
  }

  lemma {:induction false} NumbersShort(values: seq<nat>)
    requires forall i :: 0 <= i < |values| ==> values[i] < 1_000_000
    ensures |Numbers(values)| <= 4 * |values|
  {
    if values != [] {
      NumbersShort(values[1..]);
      NumberShort(values[0]);
    }
  }

  lemma NumberShort(n: nat)
    requires n < 1_000_000
    ensures |Number(n)| <= 4
  {
    assert n / 255 / 255 / 255 == 0;
    assert |Number(n / 255 / 255 / 255)| == 1;
    assert |Number(n / 255 / 255)| <= 2;
    assert |Number(n / 255)| <= 3;
  }

  ghost function Text(text: string): seq<nat> {
    [|text|] + seq(|text|, i requires 0 <= i < |text| => text[i] as nat)
  }

  lemma TextReads(s: string, t: string, left: seq<nat>, right: seq<nat>)
    requires Text(s) + left == Text(t) + right
    ensures s == t && left == right
  {
    var whole := Text(s) + left;
    assert whole[0] == |s| == |t|;
    forall i | 0 <= i < |s|
      ensures s[i] == t[i]
    {
      assert whole[i + 1] == Text(s)[i + 1] == Text(t)[i + 1];
    }
    assert left == whole[|s| + 1..] == right;
  }

  ghost function OperationCode(operation: Operation): seq<nat> {
    [operation.base] + Text(operation.suffix)
  }

  lemma OperationReads(a: Operation, b: Operation, left: seq<nat>, right: seq<nat>)
    requires OperationCode(a) + left == OperationCode(b) + right
    ensures a == b && left == right
  {
    var whole := OperationCode(a) + left;
    assert whole[0] == a.base == b.base;
    assert whole[1..] == Text(a.suffix) + left;
    assert whole[1..] == Text(b.suffix) + right;
    TextReads(a.suffix, b.suffix, left, right);
  }

  ghost function UnitCode(unit: Unit): seq<nat> {
    [StepIndex(unit.step)] + OperationCode(unit.operation)
  }

  lemma UnitReads(a: Unit, b: Unit, left: seq<nat>, right: seq<nat>)
    requires UnitCode(a) + left == UnitCode(b) + right
    ensures a == b && left == right
  {
    var whole := UnitCode(a) + left;
    assert whole[0] == StepIndex(a.step) == StepIndex(b.step);
    assert INSTALL_STEPS[whole[0]] == a.step == b.step;
    assert whole[1..] == OperationCode(a.operation) + left;
    assert whole[1..] == OperationCode(b.operation) + right;
    OperationReads(a.operation, b.operation, left, right);
  }

  ghost function OperationsCode(operations: seq<Operation>): seq<nat> {
    if operations == [] then [] else OperationCode(operations[0]) + OperationsCode(operations[1..])
  }

  lemma {:induction false} OperationsRead(a: seq<Operation>, b: seq<Operation>)
    requires OperationsCode(a) == OperationsCode(b)
    ensures a == b
  {
    if a != [] && b != [] {
      OperationReads(a[0], b[0], OperationsCode(a[1..]), OperationsCode(b[1..]));
      OperationsRead(a[1..], b[1..]);
      assert a == [a[0]] + a[1..] && b == [b[0]] + b[1..];
    }
  }

  ghost function ReceiptCode(receipt: Option<Receipt>): seq<nat> {
    match receipt
    case None => [0]
    case Some(OperationReceipt(unit)) => [1] + UnitCode(unit)
    case Some(StepReceipt(step)) => [2, StepIndex(step)]
    case Some(PartialReceipt(step, operations)) => [3, StepIndex(step)] + OperationsCode(operations)
  }

  lemma ReceiptReads(a: Option<Receipt>, b: Option<Receipt>)
    requires ReceiptCode(a) == ReceiptCode(b)
    ensures a == b
  {
    var whole := ReceiptCode(a);
    assert whole[0] == ReceiptCode(b)[0];
    match a {
      case None =>
      case Some(OperationReceipt(unit)) =>
        assert whole[1..] == UnitCode(unit) && whole[1..] == UnitCode(b.value.unit);
        assert UnitCode(unit) + [] == UnitCode(b.value.unit) + [];
        UnitReads(unit, b.value.unit, [], []);
      case Some(StepReceipt(step)) =>
        assert whole[1] == StepIndex(step) == StepIndex(b.value.step);
        assert INSTALL_STEPS[whole[1]] == step == b.value.step;
      case Some(PartialReceipt(step, operations)) =>
        assert whole[1] == StepIndex(step) == StepIndex(b.value.step);
        assert INSTALL_STEPS[whole[1]] == step == b.value.step;
        assert whole[2..] == OperationsCode(operations) && whole[2..] == OperationsCode(b.value.operations);
        OperationsRead(operations, b.value.operations);
    }
  }

  ghost function Tag(event: Event): nat {
    match event
    case TransactionStart => 0
    case StepStart(_) => 1
    case OperationStart(_) => 2
    case OperationComplete(_, _) => 3
    case StepComplete(_, _) => 4
    case PlanComplete => 5
    case RollbackStart(_) => 6
    case RollbackComplete(_) => 7
    case RollbackFailed(_) => 8
    case RollbackRetainedAmbiguous(_) => 9
    case RecoveryComplete => 10
    case RecoveryFailed => 11
  }

  ghost function Details(event: Event): seq<nat> {
    match event
    case StepStart(step) => [StepIndex(step)]
    case OperationStart(unit) => UnitCode(unit)
    case OperationComplete(unit, receipt) => UnitCode(unit) + ReceiptCode(receipt)
    case StepComplete(step, receipt) => [StepIndex(step)] + ReceiptCode(receipt)
    case RollbackStart(action) => [TableIndex(action)]
    case RollbackComplete(action) => [TableIndex(action)]
    case RollbackFailed(action) => [TableIndex(action)]
    case RollbackRetainedAmbiguous(action) => [TableIndex(action)]
    case _ => []
  }

  ghost function EventCode(event: Event): seq<nat> {
    [Tag(event)] + Details(event)
  }

  lemma UnitDetails(a: Unit, b: Unit, left: Option<Receipt>, right: Option<Receipt>)
    requires UnitCode(a) + ReceiptCode(left) == UnitCode(b) + ReceiptCode(right)
    ensures a == b && left == right
  {
    UnitReads(a, b, ReceiptCode(left), ReceiptCode(right));
    ReceiptReads(left, right);
  }

  lemma StepDetails(a: StepId, b: StepId, left: seq<nat>, right: seq<nat>)
    requires [StepIndex(a)] + left == [StepIndex(b)] + right
    ensures a == b && left == right
  {
    var whole := [StepIndex(a)] + left;
    assert whole[0] == StepIndex(a) == StepIndex(b);
    assert INSTALL_STEPS[whole[0]] == a == b;
    assert left == whole[1..] == right;
  }

  lemma ActionDetails(a: RollbackId, b: RollbackId)
    requires [TableIndex(a)] == [TableIndex(b)]
    ensures a == b
  {
    assert [TableIndex(a)][0] == TableIndex(b);
    assert ROLLBACK_TABLE[TableIndex(a)] == a == b;
  }

  lemma ActionEventReads(a: Event, b: Event)
    requires Tag(a) == Tag(b) && 6 <= Tag(a) <= 9 && Details(a) == Details(b)
    ensures a == b
  {
    ActionDetails(a.action, b.action);
  }

  lemma DetailsRead(a: Event, b: Event)
    requires Tag(a) == Tag(b) && Details(a) == Details(b)
    ensures a == b
  {
    match Tag(a) {
      case 1 => StepDetails(a.step, b.step, [], []);
      case 2 =>
        assert UnitCode(a.unit) + [] == UnitCode(b.unit) + [];
        UnitReads(a.unit, b.unit, [], []);
      case 3 => UnitDetails(a.unit, b.unit, a.owned, b.owned);
      case 4 =>
        StepDetails(a.step, b.step, ReceiptCode(a.stepOwned), ReceiptCode(b.stepOwned));
        ReceiptReads(a.stepOwned, b.stepOwned);
      case _ =>
        if 6 <= Tag(a) <= 9 {
          ActionEventReads(a, b);
        }
    }
  }

  lemma EventReads(a: Event, b: Event)
    requires EventCode(a) == EventCode(b)
    ensures a == b
  {
    var whole := EventCode(a);
    assert whole[0] == Tag(a) == Tag(b);
    assert whole[1..] == Details(a) && whole[1..] == Details(b);
    DetailsRead(a, b);
  }

  ghost function PayloadCode(payload: Payload): seq<nat> {
    [payload.transaction]
    + (Text(payload.binding.plan) + (Text(payload.binding.bundle)
    + (Text(payload.binding.bundleFile) + EventCode(payload.event))))
  }

  lemma PayloadReads(a: Payload, b: Payload)
    requires PayloadCode(a) == PayloadCode(b)
    ensures a == b
  {
    var tailA := Text(a.binding.bundle) + (Text(a.binding.bundleFile) + EventCode(a.event));
    var tailB := Text(b.binding.bundle) + (Text(b.binding.bundleFile) + EventCode(b.event));
    assert PayloadCode(a)[0] == a.transaction && PayloadCode(b)[0] == b.transaction;
    assert PayloadCode(a)[1..] == Text(a.binding.plan) + tailA;
    assert PayloadCode(b)[1..] == Text(b.binding.plan) + tailB;
    TextReads(a.binding.plan, b.binding.plan, tailA, tailB);
    TextReads(a.binding.bundle, b.binding.bundle, Text(a.binding.bundleFile) + EventCode(a.event),
              Text(b.binding.bundleFile) + EventCode(b.event));
    TextReads(a.binding.bundleFile, b.binding.bundleFile, EventCode(a.event), EventCode(b.event));
    EventReads(a.event, b.event);
  }

  ghost function RecordCode(record: Record): seq<nat> {
    [record.sequence] + (Text(record.previous) + (Text(record.digest) + PayloadCode(record.payload)))
  }

  lemma RecordReads(a: Record, b: Record)
    requires RecordCode(a) == RecordCode(b)
    ensures a == b
  {
    var tailA, tailB := Text(a.digest) + PayloadCode(a.payload), Text(b.digest) + PayloadCode(b.payload);
    assert RecordCode(a)[0] == a.sequence && RecordCode(b)[0] == b.sequence;
    assert RecordCode(a)[1..] == Text(a.previous) + tailA;
    assert RecordCode(b)[1..] == Text(b.previous) + tailB;
    TextReads(a.previous, b.previous, tailA, tailB);
    TextReads(a.digest, b.digest, PayloadCode(a.payload), PayloadCode(b.payload));
    PayloadReads(a.payload, b.payload);
  }

  ghost function Encoded(record: Record): seq<byte> {
    Numbers(RecordCode(record))
  }

  ghost function Decoded(body: seq<byte>): Option<Record> {
    if exists record :: Encoded(record) == body then
      var record :| Encoded(record) == body;
      Some(record)
    else None
  }

  /** A codec with a constant digest and short records. */
  ghost function ShortCodec(): Codec {
    Codec("", (sequence, previous, payload) => "", record => Encoded(record), body => Decoded(body))
  }

  lemma ShortCodecIsCanonical()
    ensures Canonical(ShortCodec())
  {
    forall a: Record, b: Record | Encoded(a) == Encoded(b)
      ensures a == b
    {
      NumbersRead(RecordCode(a), RecordCode(b));
      RecordReads(a, b);
    }
    forall record
      ensures Decoded(Encoded(record)) == Some(record) && Encoded(record) != []
    {
    }
  }

  // ---------------------------------------------------------------- a journal at the cap

  lemma {:induction false} ShortHead(payloads: seq<Payload>, n: nat)
    requires n <= |payloads|
    ensures Head(ShortCodec(), Written(ShortCodec(), payloads, n)) == ""
  {
    ShortCodecIsCanonical();
    HeadIsChain(ShortCodec(), payloads, n);
    if n > 0 {
      assert Chain(ShortCodec(), payloads, n) == "";
    }
  }

  lemma FailingRecordIsShort(n: nat, i: nat)
    requires i < n <= MAX_RECORDS + 1
    ensures |Journal(ShortCodec(), FailingRun(n))[i]| <= LOCKING_SIZE
  {
    var payloads := FailingRun(n);
    BodyAt(ShortCodec(), payloads, i);
    ShortHead(payloads, i);
    FailingRunAt(n, i);
    NextIsShort(Written(ShortCodec(), payloads, i), i);
  }

  lemma NextIsShort(earlier: seq<seq<byte>>, i: nat)
    requires i <= MAX_RECORDS && |earlier| == i && Head(ShortCodec(), earlier) == ""
    ensures |NextBody(ShortCodec(), earlier, FailingPayload(i))| <= LOCKING_SIZE
  {
    FailingRecordCode(i);
  }

  lemma FailingRecordCode(i: nat)
    requires i <= MAX_RECORDS
    ensures |Encoded(Record(i + 1, "", FailingPayload(i), ""))| <= LOCKING_SIZE
  {
    var code, event := RecordCode(Record(i + 1, "", FailingPayload(i), "")), EventCode(FailingEvent(i));
    assert Text("") == [0];
    assert code == [i + 1] + ([0] + ([0] + ([1] + ([0] + ([0] + ([0] + event))))));
    FailingEventCode(i);
    assert forall k :: 0 <= k < |code| ==> code[k] < 1_000_000;
    NumbersShort(code);
  }

  /** The codes of units and receipts here are short, with small numbers. */
  ghost predicate Small(code: seq<nat>, size: nat) {
    |code| <= size && forall k :: 0 <= k < |code| ==> code[k] < 1_000_000
  }

  lemma FailingEventCode(i: nat)
    ensures Small(EventCode(FailingEvent(i)), 8)
  {
    var event := FailingEvent(i);
    match event {
      case OperationStart(unit) => UnitEventCode(unit);
      case OperationComplete(unit, receipt) =>
        UnitEventCode(unit);
        if receipt.Some? {
          OwnedEventCode(unit);
        }
      case _ => PlainEventCode(event);
    }
  }

  lemma PlainEventCode(event: Event)
    requires !event.OperationStart? && !event.OperationComplete? && (event.StepComplete? ==> event.stepOwned.None?)
    ensures Small(EventCode(event), 8)
  {
  }

  lemma UnitEventCode(unit: Unit)
    requires unit.operation.suffix == "" && unit.operation.base < 6
    ensures Small(EventCode(OperationStart(unit)), 8) && Small(EventCode(OperationComplete(unit, None)), 8)
    ensures Small(UnitCode(unit), 3)
  {
    assert Text("") == [0];
    assert UnitCode(unit) == [StepIndex(unit.step), unit.operation.base, 0];
  }

  lemma OwnedEventCode(unit: Unit)
    requires Small(UnitCode(unit), 3)
    ensures Small(EventCode(OperationComplete(unit, Some(OperationReceipt(unit)))), 8)
  {
    assert ReceiptCode(Some(OperationReceipt(unit))) == [1] + UnitCode(unit);
  }

  /** The file of the first `n` records is read and has room for the next one, whose append locks it. */
  ghost predicate NextLocks(codec: Codec, n: nat) {
    var raw := Image(Journal(codec, FailingRun(n)));
    && ReadableAs(codec, raw, FailingRun(n))
    && Room(codec, FailingRun(n), FailingPayload(n))
    && forall bytes :: bytes >= 4 + LOCKING_SIZE ==>
         && OnFile(codec, AfterAppend(codec, raw, FailingPayload(n), bytes), FailingRun(n + 1))
         && ScanLog(JournalFormat(codec), AfterAppend(codec, raw, FailingPayload(n), bytes)) == Oversize
  }

  /** The records are those of a sound state, with the effect on the host and its rollback still owed. */
  ghost predicate SoundlyFailing(n: nat) {
    && Inv(FailingConfig(), FailingState(n)) && FailingState(n).journal == FailingRun(n)
    && FailingState(n).host == {(1, OWNED)} && FailingState(n).ran == {}
  }

  lemma FailingRunIsSound(n: nat)
    requires n >= 18
    ensures SoundlyFailing(n)
  {
    FailingPasses(n);
  }

  /** A concrete file of 65,536 records, of an installation whose rollback keeps failing, is locked by the
      row that it failed once more. */
  lemma FailingRunLocks(n: nat)
    requires n == MAX_RECORDS
    ensures NextLocks(ShortCodec(), n)
  {
    ShortCodecIsCanonical();
    FailingFileLocks(n);
  }

  lemma LockingEvent(n: nat)
    requires n == MAX_RECORDS
    ensures FailingEvent(n) == RollbackFailed(RemoveCreatedIdentities)
  {
  }

  lemma FailingFileLocks(n: nat)
    requires n == MAX_RECORDS && Canonical(ShortCodec())
    ensures NextLocks(ShortCodec(), n)
  {
    forall i | 0 <= i <= n
      ensures |Journal(ShortCodec(), FailingRun(n) + [FailingPayload(n)])[i]| <= LOCKING_SIZE
    {
      assert FailingRun(n) + [FailingPayload(n)] == FailingRun(n + 1);
      FailingRecordIsShort(n + 1, i);
    }
    ShortRecordsLock(ShortCodec(), FailingRun(n), FailingPayload(n));
    forall bytes | bytes >= 4 + LOCKING_SIZE
      ensures OnFile(ShortCodec(), AfterAppend(ShortCodec(), Image(Journal(ShortCodec(), FailingRun(n))), FailingPayload(n),
                                               bytes), FailingRun(n + 1))
    {
      ShortRecordLands(ShortCodec(), FailingRun(n), FailingPayload(n), bytes);
      assert FailingRun(n) + [FailingPayload(n)] == FailingRun(n + 1);
    }
  }
}
