/** The public receipt journal: append, torn-tail repair, the idempotent tail and the receipt chain. */
module ReceiptJournal {
  import opened Wrappers
  import opened Bytes
  import Device
  import opened FramedLog

  const MAX_RECORD: nat := 4_194_304
  const MAX_BYTES: nat := 67_108_864
  const MAX_RECORDS: nat := 65_536

  type Digest = string

  datatype Receipt = Receipt(sequence: nat, previous: Digest, isPublic: bool, content: seq<byte>)

  /** The canonical parser with its validator, and the receipt hash, taken as parameters. */
  datatype Protocol = Protocol(genesis: Digest, parse: seq<byte> -> Option<Receipt>, hash: Receipt -> Digest)

  /** What the strict parser guarantees: payloads are non-empty and bounded, and one receipt has one encoding. */
  ghost predicate Strict(p: Protocol) {
    && (forall b :: p.parse(b).Some? ==> 0 < |b| <= MAX_RECORD)
    && (forall b, c :: p.parse(b).Some? && p.parse(b) == p.parse(c) ==> b == c)
  }

  /** The decoder checks each record on its own: neither the chain nor the mode is looked at. */
  function JournalFormat(p: Protocol): Format {
    Format(MAX_RECORD, AtMost(MAX_RECORDS), (earlier, body) => p.parse(body).Some?)
  }

  datatype JournalError = InvalidReceipt | ModeInvalid | CorruptJournal | OversizeJournal
                        | ChainMismatch | GenesisMismatch | ZeroWrite

  /** `Interrupted` is a process that stopped before the write loop finished. */
  datatype Answer = Appended | AlreadyPublished | Refused(error: JournalError) | Interrupted

  datatype Verdict = Next | Duplicate | Mismatch(error: JournalError)

  /** Where a receipt stands relative to the readable records. */
  function Judge(p: Protocol, bodies: seq<seq<byte>>, body: seq<byte>): Verdict
    requires p.parse(body).Some?
    requires bodies != [] ==> p.parse(bodies[|bodies| - 1]).Some?
  {
    var receipt := p.parse(body).value;
    if bodies == [] then
      if receipt.sequence != 1 || receipt.previous != p.genesis then Mismatch(GenesisMismatch) else Next
    else
      var tail := p.parse(bodies[|bodies| - 1]).value;
      if receipt.sequence == tail.sequence && body == bodies[|bodies| - 1] then Duplicate
      else if receipt.sequence != tail.sequence + 1 || receipt.previous != p.hash(tail) then Mismatch(ChainMismatch)
      else Next
  }

  /** What an append does before its write loop: stop with an answer, or write the frame behind `base`. */
  datatype Plan = Stop(base: seq<byte>, answer: Answer) | Write(base: seq<byte>)

  ghost predicate TailParses(p: Protocol, scan: Scan) {
    (scan.Whole? || scan.Torn?) && scan.bodies != [] ==> p.parse(scan.bodies[|scan.bodies| - 1]).Some?
  }

  lemma ScannedTailParses(p: Protocol, raw: seq<byte>)
    ensures TailParses(p, ScanLog(JournalFormat(p), raw))
  {
    ScanFromSound(JournalFormat(p), raw, 0, []);
  }

  ghost function PlanOf(p: Protocol, raw: seq<byte>, body: seq<byte>): Plan {
    ScannedTailParses(p, raw);
    if p.parse(body).None? then Stop(raw, Refused(InvalidReceipt))
    else if !p.parse(body).value.isPublic then Stop(raw, Refused(ModeInvalid))
    else
      match ScanLog(JournalFormat(p), raw)
      case Corrupt => Stop(raw, Refused(CorruptJournal))
      case Oversize => Stop(raw, Refused(OversizeJournal))
      case scan =>
        match Judge(p, scan.bodies, body)
        case Duplicate => Stop(raw, AlreadyPublished)
        case Mismatch(error) => Stop(raw, Refused(error))
        case Next =>
          if |Image(scan.bodies)| + 4 + |body| > MAX_BYTES
          then Stop(Image(scan.bodies), Refused(OversizeJournal))
          else Write(Image(scan.bodies))
  }

  /** The file after an append that wrote at most `bytes` bytes of its frame. */
  ghost function After(p: Protocol, raw: seq<byte>, body: seq<byte>, bytes: nat): seq<byte> {
    var plan := PlanOf(p, raw, body);
    if plan.Stop? then plan.base
    else plan.base + Frame(body)[..CutOf(body, bytes)]
  }

  function AnswerOf(ended: Device.Ended): Answer {
    match ended
    case Finished => Appended
    case ZeroWrite => Refused(JournalError.ZeroWrite)
    case Halted => Interrupted
  }

  class PublicReceiptJournal {
    const p: Protocol
    var raw: seq<byte>

    constructor (p: Protocol)
      ensures this.p == p && raw == []
    {
      this.p := p;
      raw := [];
    }

    /** Append one receipt; `counts` are the byte counts the device reports for the successive
        writes, and a list that ends early is a process that stopped. */
    method Append(body: seq<byte>, counts: seq<nat>) returns (answer: Answer, cut: nat)
      modifies this
      ensures raw == After(p, old(raw), body, cut)
      ensures match PlanOf(p, old(raw), body)
              case Stop(_, planned) => answer == planned
              case Write(_) =>
                && cut == Device.Delivered(counts, 4 + |body|).0
                && answer == AnswerOf(Device.Delivered(counts, 4 + |body|).1)
    {
      cut := 0;
      if p.parse(body).None? {
        return Refused(InvalidReceipt), cut;
      }
      var receipt := p.parse(body).value;
      if !receipt.isPublic {
        return Refused(ModeInvalid), cut;
      }
      var scan := Decode(JournalFormat(p), raw);
      ScannedTailParses(p, raw);
      ScanFromSound(JournalFormat(p), raw, 0, []);
      if scan.Corrupt? {
        return Refused(CorruptJournal), cut;
      }
      if scan.Oversize? {
        return Refused(OversizeJournal), cut;
      }
      if scan.bodies != [] {
        var last := scan.bodies[|scan.bodies| - 1];
        var tail := p.parse(last).value;
        if receipt.sequence == tail.sequence && body == last {
          return AlreadyPublished, cut;
        }
        if receipt.sequence != tail.sequence + 1 || receipt.previous != p.hash(tail) {
          return Refused(ChainMismatch), cut;
        }
      } else if receipt.sequence != 1 || receipt.previous != p.genesis {
        return Refused(GenesisMismatch), cut;
      }
      if scan.Torn? {
        raw := raw[..scan.offset];
      }
      if |raw| + 4 + |body| > MAX_BYTES {
        return Refused(OversizeJournal), cut;
      }
      var after, written, ended := Device.WriteAll(raw, BigEndian(|body|, 4) + body, counts);
      raw := after;
      return AnswerOf(ended), written;
    }

    /** Publish the broker's response, then deliver it: nothing is delivered that is not on record. */
    method Handle(response: seq<byte>, counts: seq<nat>) returns (delivered: bool)
      requires Strict(p)
      modifies this
      ensures exists cut: nat :: raw == After(p, old(raw), response, cut)
      ensures delivered <==>
                match PlanOf(p, old(raw), response)
                case Stop(_, answer) => answer == AlreadyPublished
                case Write(_) => Device.Delivered(counts, 4 + |response|).1.Finished?
      ensures delivered && !ScanLog(JournalFormat(p), raw).Oversize? ==> TailIs(p, raw, response)
    {
      var answer, cut := Append(response, counts);
      delivered := answer == Appended || answer == AlreadyPublished;
      if delivered && !ScanLog(JournalFormat(p), raw).Oversize? {
        DeliveredIsTail(p, old(raw), response, cut);
      }
    }
  }

  // ---------------------------------------------------------------- what the journal holds

  /** The readable records end in `body`. */
  ghost predicate TailIs(p: Protocol, raw: seq<byte>, body: seq<byte>) {
    match ScanLog(JournalFormat(p), raw)
    case Whole(bodies) => bodies != [] && bodies[|bodies| - 1] == body
    case Torn(bodies, _) => bodies != [] && bodies[|bodies| - 1] == body
    case _ => false
  }

  /** Receipts numbered 1, 2, ... each naming the hash of the one before it, all of public mode. */
  ghost predicate Chained(p: Protocol, bodies: seq<seq<byte>>) {
    forall i :: 0 <= i < |bodies| ==> Linked(p, bodies, i)
  }

  ghost predicate Linked(p: Protocol, bodies: seq<seq<byte>>, i: nat)
    requires i < |bodies|
  {
    && p.parse(bodies[i]).Some?
    && var receipt := p.parse(bodies[i]).value;
    && receipt.isPublic
    && receipt.sequence == i + 1
    && (i == 0 ==> receipt.previous == p.genesis)
    && (i > 0 ==> p.parse(bodies[i - 1]).Some? && receipt.previous == p.hash(p.parse(bodies[i - 1]).value))
  }

  /** The file reads as exactly the chain `bodies`, perhaps followed by a cut frame. */
  ghost predicate Holds(p: Protocol, raw: seq<byte>, bodies: seq<seq<byte>>) {
    && Chained(p, bodies)
    && Accepted(JournalFormat(p), bodies)
    && ReadsAs(JournalFormat(p), raw, bodies)
  }

  lemma ChainedExtend(p: Protocol, bodies: seq<seq<byte>>, body: seq<byte>)
    requires Chained(p, bodies) && p.parse(body).Some? && p.parse(body).value.isPublic
    requires bodies != [] ==> Linked(p, bodies, |bodies| - 1)
    ensures Judge(p, bodies, body).Next? <==> Chained(p, bodies + [body])
  {
    var longer := bodies + [body];
    assert forall i :: 0 <= i < |bodies| ==> Linked(p, bodies, i) ==> Linked(p, longer, i);
    assert Chained(p, longer) <==> Linked(p, longer, |bodies|);
  }

  /** The records after an append that got `bytes` bytes of its frame out. */
  ghost function Published(p: Protocol, bodies: seq<seq<byte>>, body: seq<byte>, bytes: nat): seq<seq<byte>> {
    if Chained(p, bodies + [body]) && |Image(bodies)| + 4 + |body| <= MAX_BYTES && bytes >= 4 + |body|
    then bodies + [body]
    else bodies
  }

  predicate Public(p: Protocol, body: seq<byte>) {
    p.parse(body).Some? && p.parse(body).value.isPublic
  }

  /** The offered bytes are next in the chain and fit behind it. */
  ghost predicate Fits(p: Protocol, bodies: seq<seq<byte>>, body: seq<byte>) {
    Chained(p, bodies + [body]) && |Image(bodies)| + 4 + |body| <= MAX_BYTES
  }

  ghost predicate Repeats(bodies: seq<seq<byte>>, body: seq<byte>) {
    bodies != [] && body == bodies[|bodies| - 1]
  }

  /** What an append on a chain does, by the chain it would make: it writes exactly what makes a longer
      chain with room, behind the whole records; it answers success exactly to the bytes on top; and each
      refusal has its one reason.  Only a receipt that is next drops a torn suffix when it finds no room. */
  lemma PlanIff(p: Protocol, raw: seq<byte>, bodies: seq<seq<byte>>, body: seq<byte>)
    requires Holds(p, raw, bodies)
    ensures var plan, longer := PlanOf(p, raw, body), bodies + [body];
      && (plan == Write(Image(bodies)) <==> Fits(p, bodies, body))
      && (plan.Write? ==> plan == Write(Image(bodies)))
      && (plan == Stop(raw, AlreadyPublished) <==> Repeats(bodies, body))
      && (plan == Stop(raw, Refused(InvalidReceipt)) <==> p.parse(body).None?)
      && (plan == Stop(raw, Refused(ModeInvalid)) <==> p.parse(body).Some? && !p.parse(body).value.isPublic)
      && (plan == Stop(raw, Refused(GenesisMismatch)) <==> Public(p, body) && bodies == [] && !Chained(p, [body]))
      && (plan == Stop(raw, Refused(ChainMismatch))
          <==> Public(p, body) && bodies != [] && !Repeats(bodies, body) && !Chained(p, longer))
      && (plan == Stop(Image(bodies), Refused(OversizeJournal)) <==> Chained(p, longer) && !Fits(p, bodies, body))
  {
    assert bodies != [] ==> Linked(p, bodies, |bodies| - 1);
    if Public(p, body) {
      ChainedExtend(p, bodies, body);
      assert [] + [body] == [body];
    } else {
      assert Chained(p, bodies + [body]) ==> Linked(p, bodies + [body], |bodies|);
    }
  }

  /** On a file that does not read as records, a public receipt meets the reader's refusal. */
  lemma UnreadablePlanIff(p: Protocol, raw: seq<byte>, body: seq<byte>)
    requires Public(p, body)
    ensures PlanOf(p, raw, body) == Stop(raw, Refused(CorruptJournal)) <==> Damaged(JournalFormat(p), raw)
    ensures Overfull(JournalFormat(p), raw) ==> PlanOf(p, raw, body) == Stop(raw, Refused(OversizeJournal))
  {
    RefusalMeaning(JournalFormat(p), raw);
  }

  /** The journal is opened by a public receipt numbered 1 that names the genesis digest. */
  lemma FirstIff(p: Protocol, body: seq<byte>)
    ensures Chained(p, [body])
       <==> Public(p, body) && p.parse(body).value.sequence == 1 && p.parse(body).value.previous == p.genesis
  {
    assert Chained(p, [body]) <==> Linked(p, [body], 0);
  }

  /** Below the record cap, whatever bytes are offered and wherever the write stops, the file reads as
      a chain again: the old one, or the old one with exactly the offered receipt behind it. */
  lemma AppendKeepsChain(p: Protocol, raw: seq<byte>, bodies: seq<seq<byte>>, body: seq<byte>, bytes: nat)
    requires Strict(p) && Holds(p, raw, bodies) && |bodies| < MAX_RECORDS
    ensures Holds(p, After(p, raw, body, bytes), Published(p, bodies, body, bytes))
  {
    var longer := bodies + [body];
    if p.parse(body).Some? && p.parse(body).value.isPublic {
      assert bodies != [] ==> Linked(p, bodies, |bodies| - 1);
      ChainedExtend(p, bodies, body);
      WritingKeepsChain(p, raw, bodies, body, bytes);
    } else {
      assert Chained(p, longer) ==> Linked(p, longer, |bodies|);
    }
  }

  lemma WritingKeepsChain(p: Protocol, raw: seq<byte>, bodies: seq<seq<byte>>, body: seq<byte>, bytes: nat)
    requires Strict(p) && Holds(p, raw, bodies) && |bodies| < MAX_RECORDS
    requires p.parse(body).Some? && p.parse(body).value.isPublic
    requires bodies != [] ==> Linked(p, bodies, |bodies| - 1)
    requires Judge(p, bodies, body).Next? <==> Chained(p, bodies + [body])
    ensures Holds(p, After(p, raw, body, bytes), Published(p, bodies, body, bytes))
  {
    var plan := PlanOf(p, raw, body);
    if plan.Write? {
      var cut := CutOf(body, bytes);
      CutReadsAsOldOrNew(JournalFormat(p), bodies, body, cut);
      AcceptedExtend(JournalFormat(p), bodies, body);
    } else if Judge(p, bodies, body).Next? {
      ImageHolds(p, raw, bodies);
    }
  }

  lemma DeliveredIsTail(p: Protocol, raw: seq<byte>, body: seq<byte>, cut: nat)
    requires Strict(p) && !ScanLog(JournalFormat(p), After(p, raw, body, cut)).Oversize?
    requires match PlanOf(p, raw, body)
             case Stop(_, answer) => answer == AlreadyPublished
             case Write(_) => cut == 4 + |body|
    ensures TailIs(p, After(p, raw, body, cut), body)
  {
    var plan := PlanOf(p, raw, body);
    if plan.Write? {
      var bodies := ScanLog(JournalFormat(p), raw).bodies;
      ScanFromSound(JournalFormat(p), raw, 0, []);
      assert Frame(body)[..cut] == Frame(body);
      assert After(p, raw, body, cut) == Image(bodies) + Frame(body);
      WrittenIsTail(p, bodies, body);
    }
  }

  lemma WrittenIsTail(p: Protocol, bodies: seq<seq<byte>>, body: seq<byte>)
    requires Strict(p) && Accepted(JournalFormat(p), bodies) && p.parse(body).Some?
    requires !ScanLog(JournalFormat(p), Image(bodies) + Frame(body)).Oversize?
    ensures TailIs(p, Image(bodies) + Frame(body), body)
  {
    AppendReadableIff(JournalFormat(p), bodies, body);
  }

  /** Offering the last record again answers success and touches nothing, torn suffix or not. */
  lemma TailIsIdempotent(p: Protocol, raw: seq<byte>, bodies: seq<seq<byte>>, bytes: nat)
    requires Holds(p, raw, bodies) && bodies != []
    ensures PlanOf(p, raw, bodies[|bodies| - 1]) == Stop(raw, AlreadyPublished)
    ensures After(p, raw, bodies[|bodies| - 1], bytes) == raw
  {
    assert Linked(p, bodies, |bodies| - 1);
  }

  lemma ImageHolds(p: Protocol, raw: seq<byte>, bodies: seq<seq<byte>>)
    requires Holds(p, raw, bodies)
    ensures Holds(p, Image(bodies), bodies)
  {
    ScanOfImage(JournalFormat(p), bodies, []);
    assert Image(bodies) + [] == Image(bodies);
  }

  /** The plan of a write depends on the records alone, not on a torn suffix. */
  lemma TornSuffixIgnored(p: Protocol, raw: seq<byte>, other: seq<byte>, bodies: seq<seq<byte>>, body: seq<byte>)
    requires Holds(p, raw, bodies) && Holds(p, other, bodies)
    requires PlanOf(p, raw, body).Write? || PlanOf(p, raw, body).answer == Refused(OversizeJournal)
    ensures PlanOf(p, other, body) == PlanOf(p, raw, body)
  {
  }

  /** A stopped append followed by the same append leaves the bytes of one append that never stopped. */
  lemma StoppedAppendForgotten(p: Protocol, raw: seq<byte>, bodies: seq<seq<byte>>, body: seq<byte>, bytes: nat)
    requires Strict(p) && Holds(p, raw, bodies) && |bodies| < MAX_RECORDS
    ensures After(p, After(p, raw, body, bytes), body, 4 + |body|) == After(p, raw, body, 4 + |body|)
  {
    var once := After(p, raw, body, bytes);
    if PlanOf(p, raw, body).Write? {
      AppendKeepsChain(p, raw, bodies, body, bytes);
      if bytes >= 4 + |body| {
        WrittenRecordIsTail(p, raw, bodies, body);
        TailIsIdempotent(p, once, bodies + [body], 4 + |body|);
      } else {
        TornSuffixIgnored(p, raw, once, bodies, body);
      }
    } else if PlanOf(p, raw, body).answer == Refused(OversizeJournal) {
      ImageHolds(p, raw, bodies);
      TornSuffixIgnored(p, raw, Image(bodies), bodies, body);
    }
  }

  lemma WrittenRecordIsTail(p: Protocol, raw: seq<byte>, bodies: seq<seq<byte>>, body: seq<byte>)
    requires Strict(p) && Holds(p, raw, bodies) && |bodies| < MAX_RECORDS && PlanOf(p, raw, body).Write?
    ensures Published(p, bodies, body, 4 + |body|) == bodies + [body]
  {
    assert bodies != [] ==> Linked(p, bodies, |bodies| - 1);
    ChainedExtend(p, bodies, body);
  }

  /** At the record cap the writer does not stop: the frame lands and locks the journal, for every
      later append is refused and leaves the file as it is.  Below the cap this cannot happen. */
  lemma AppendLocksIff(p: Protocol, raw: seq<byte>, bodies: seq<seq<byte>>, body: seq<byte>)
    requires Strict(p) && Holds(p, raw, bodies) && PlanOf(p, raw, body).Write?
    ensures ScanLog(JournalFormat(p), After(p, raw, body, 4 + |body|)).Oversize? <==> |bodies| == MAX_RECORDS
  {
    WriteBase(p, raw, bodies, body);
    AppendReadableIff(JournalFormat(p), bodies, body);
  }

  lemma WriteBase(p: Protocol, raw: seq<byte>, bodies: seq<seq<byte>>, body: seq<byte>)
    requires Strict(p) && Holds(p, raw, bodies) && PlanOf(p, raw, body).Write?
    ensures Framable(JournalFormat(p), body) && p.parse(body).Some?
    ensures After(p, raw, body, 4 + |body|) == Image(bodies) + Frame(body)
  {
    assert Frame(body)[..4 + |body|] == Frame(body);
  }

  lemma LockedStays(p: Protocol, raw: seq<byte>, body: seq<byte>, bytes: nat)
    requires ScanLog(JournalFormat(p), raw).Oversize?
    ensures After(p, raw, body, bytes) == raw && PlanOf(p, raw, body).answer.Refused?
  {
  }

  /** The longest receipts of which one more than the record cap still fits into the byte cap. */
  const LOCKING_SIZE: nat := 1_019

  /** Every valid receipt is longer than that: the validator alone asks for twenty digests of 71
      characters each. */
  ghost predicate LongReceipts(p: Protocol) {
    forall body :: p.parse(body).Some? ==> |body| > LOCKING_SIZE
  }

  /** With such receipts the byte cap is reached first: no append that finds room is at the record cap,
      so none ever locks the journal. */
  lemma LongReceiptsNeverLock(p: Protocol, raw: seq<byte>, bodies: seq<seq<byte>>, body: seq<byte>, bytes: nat)
    requires Strict(p) && LongReceipts(p) && Holds(p, raw, bodies)
    ensures |bodies| == MAX_RECORDS ==> PlanOf(p, raw, body).Stop?
    ensures Holds(p, After(p, raw, body, bytes), Published(p, bodies, body, bytes))
  {
    if |bodies| == MAX_RECORDS {
      forall i | 0 <= i < |bodies|
        ensures |bodies[i]| >= LOCKING_SIZE + 1
      {
        assert Linked(p, bodies, i);
      }
      ImageAtLeast(bodies, |bodies|, LOCKING_SIZE + 1);
      FullJournalStops(p, raw, bodies, body);
      FullJournalKeeps(p, raw, bodies, body, bytes);
    } else {
      AppendKeepsChain(p, raw, bodies, body, bytes);
    }
  }

  lemma FullJournalStops(p: Protocol, raw: seq<byte>, bodies: seq<seq<byte>>, body: seq<byte>)
    requires LongReceipts(p) && Holds(p, raw, bodies) && |Image(bodies)| >= MAX_RECORDS * 1024
    ensures PlanOf(p, raw, body).Stop?
  {
  }

  lemma FullJournalKeeps(p: Protocol, raw: seq<byte>, bodies: seq<seq<byte>>, body: seq<byte>, bytes: nat)
    requires LongReceipts(p) && Holds(p, raw, bodies) && |Image(bodies)| >= MAX_RECORDS * 1024
    ensures Holds(p, After(p, raw, body, bytes), Published(p, bodies, body, bytes))
  {
    ImageHolds(p, raw, bodies);
    FullJournalStops(p, raw, bodies, body);
    assert Chained(p, bodies + [body]) ==> Linked(p, bodies + [body], |bodies|);
  }

  /** An attempt to publish these bytes, whatever they are, stopped after at most so many bytes of its frame. */
  datatype Offer = Offer(body: seq<byte>, bytes: nat)

  ghost function AfterOffers(p: Protocol, offers: seq<Offer>, n: nat): seq<byte>
    requires n <= |offers|
  {
    if n == 0 then [] else After(p, AfterOffers(p, offers, n - 1), offers[n - 1].body, offers[n - 1].bytes)
  }

  /** The receipts that were next in the chain, had room and were written out. */
  ghost function Taken(p: Protocol, offers: seq<Offer>, n: nat): seq<seq<byte>>
    requires n <= |offers|
  {
    if n == 0 then [] else Published(p, Taken(p, offers, n - 1), offers[n - 1].body, offers[n - 1].bytes)
  }

  /** From the empty file, any bytes offered in any order and stopped anywhere leave a readable chain of
      exactly the receipts taken: no caps are assumed. */
  lemma {:induction false} AnyRunHoldsTaken(p: Protocol, offers: seq<Offer>, n: nat)
    requires Strict(p) && LongReceipts(p) && n <= |offers|
    ensures Holds(p, AfterOffers(p, offers, n), Taken(p, offers, n))
  {
    if n == 0 {
      EmptyHolds(p);
    } else {
      AnyRunHoldsTaken(p, offers, n - 1);
      LongReceiptsNeverLock(p, AfterOffers(p, offers, n - 1), Taken(p, offers, n - 1), offers[n - 1].body,
                            offers[n - 1].bytes);
    }
  }

  /** Short receipts, which no validator admits, would lock it: receipts of three bytes. */
  function ShortProtocol(): Protocol {
    Protocol("", body => if |body| == 3 then Some(Receipt(Value(body), "", true, body)) else None, receipt => "")
  }

  function ShortReceipts(n: nat): seq<seq<byte>> {
    seq(n, i requires 0 <= i < n => BigEndian(i + 1, 3))
  }

  lemma ShortChain(n: nat)
    requires n <= MAX_RECORDS + 1
    ensures Chained(ShortProtocol(), ShortReceipts(n))
  {
    var bodies := ShortReceipts(n);
    assert Power256(1) == 256 && Power256(2) == 0x1_0000 && Power256(3) == 0x100_0000;
    forall i | 0 <= i < n
      ensures Linked(ShortProtocol(), bodies, i)
    {
      ValueOfBigEndian(i + 1, 3);
    }
  }

  lemma ShortHolds(bodies: seq<seq<byte>>)
    requires bodies == ShortReceipts(MAX_RECORDS)
    ensures Holds(ShortProtocol(), Image(bodies), bodies)
  {
    ShortChain(MAX_RECORDS);
    ScanOfImage(JournalFormat(ShortProtocol()), bodies, []);
    assert Image(bodies) + [] == Image(bodies);
  }

  /** A concrete chain of 65,536 receipts that is read, takes one more, and is locked by it. */
  lemma ShortReceiptsLock()
    ensures var p, bodies := ShortProtocol(), ShortReceipts(MAX_RECORDS);
            var next := BigEndian(MAX_RECORDS + 1, 3);
      && Strict(p) && Holds(p, Image(bodies), bodies)
      && PlanOf(p, Image(bodies), next).Write?
      && ScanLog(JournalFormat(p), After(p, Image(bodies), next, 7)) == Oversize
  {
    var p, bodies, next := ShortProtocol(), ShortReceipts(MAX_RECORDS), BigEndian(MAX_RECORDS + 1, 3);
    ShortChain(MAX_RECORDS + 1);
    assert bodies + [next] == ShortReceipts(MAX_RECORDS + 1);
    ShortHolds(bodies);
    ImageAtMost(bodies, |bodies|, 3);
    NextIsWritten(p, Image(bodies), bodies, next);
    AppendLocksIff(p, Image(bodies), bodies, next);
    AppendReadableIff(JournalFormat(p), bodies, next);
    assert Frame(next)[..7] == Frame(next);
  }

  // ---------------------------------------------------------------- runs over a ledger

  /** One attempt to publish entry `index` of the broker's ledger, stopped after `bytes` bytes. */
  datatype Attempt = Attempt(index: nat, bytes: nat)

  ghost predicate Publishable(p: Protocol, ledger: seq<seq<byte>>) {
    && Strict(p) && Chained(p, ledger)
    && |ledger| <= MAX_RECORDS && |Image(ledger)| <= MAX_BYTES
  }

  ghost predicate InLedger(ledger: seq<seq<byte>>, attempts: seq<Attempt>) {
    forall i :: 0 <= i < |attempts| ==> attempts[i].index < |ledger|
  }

  ghost function AfterRun(p: Protocol, ledger: seq<seq<byte>>, attempts: seq<Attempt>, n: nat): seq<byte>
    requires InLedger(ledger, attempts) && n <= |attempts|
  {
    if n == 0 then []
    else After(p, AfterRun(p, ledger, attempts, n - 1), ledger[attempts[n - 1].index], attempts[n - 1].bytes)
  }

  /** The whole journal as one counter: an attempt moves it when it publishes the next entry completely. */
  ghost function Advanced(ledger: seq<seq<byte>>, reached: nat, attempt: Attempt): nat
    requires attempt.index < |ledger|
  {
    if attempt.index == reached && attempt.bytes >= 4 + |ledger[attempt.index]| then reached + 1 else reached
  }

  ghost function Reached(ledger: seq<seq<byte>>, attempts: seq<Attempt>, n: nat): (reached: nat)
    requires InLedger(ledger, attempts) && n <= |attempts|
    ensures reached <= |ledger|
  {
    if n == 0 then 0 else Advanced(ledger, Reached(ledger, attempts, n - 1), attempts[n - 1])
  }

  lemma LedgerPrefix(p: Protocol, ledger: seq<seq<byte>>, k: nat)
    requires Publishable(p, ledger) && k <= |ledger|
    ensures Chained(p, ledger[..k]) && |Image(ledger[..k])| <= MAX_BYTES
  {
    forall i | 0 <= i < k
      ensures Linked(p, ledger[..k], i)
    {
      assert Linked(p, ledger, i);
    }
    ImageToPrefix(ledger, k);
    ImageToLocal(ledger[..k], ledger, k);
  }

  lemma ImageOfNext(ledger: seq<seq<byte>>, k: nat)
    requires k < |ledger|
    ensures |Image(ledger[..k + 1])| == |Image(ledger[..k])| + 4 + |ledger[k]|
  {
    assert ledger[..k + 1] == ledger[..k] + [ledger[k]];
    ImageAppend(ledger[..k], ledger[k]);
  }

  lemma OnlyNextExtends(p: Protocol, ledger: seq<seq<byte>>, k: nat, index: nat)
    requires Publishable(p, ledger) && k <= |ledger| && index < |ledger|
    ensures Chained(p, ledger[..k] + [ledger[index]]) <==> index == k
  {
    var longer := ledger[..k] + [ledger[index]];
    assert Linked(p, ledger, index);
    if index == k {
      assert longer == ledger[..k + 1];
      LedgerPrefix(p, ledger, k + 1);
    } else {
      assert !Linked(p, longer, k);
    }
  }

  lemma AttemptPublishes(p: Protocol, ledger: seq<seq<byte>>, k: nat, attempt: Attempt)
    requires Publishable(p, ledger) && k < |ledger| && attempt.index < |ledger|
    ensures Published(p, ledger[..k], ledger[attempt.index], attempt.bytes) == ledger[..Advanced(ledger, k, attempt)]
  {
    OnlyNextExtends(p, ledger, k, attempt.index);
    if attempt.index == k {
      assert ledger[..k] + [ledger[k]] == ledger[..k + 1];
      ImageOfNext(ledger, k);
      LedgerPrefix(p, ledger, k + 1);
    }
  }

  /** Attempts over the ledger, in any order and stopped anywhere, keep the journal a prefix of the
      ledger, and the length of that prefix is the counter. */
  lemma AttemptMovesCounter(p: Protocol, ledger: seq<seq<byte>>, raw: seq<byte>, k: nat, attempt: Attempt)
    requires Publishable(p, ledger) && k <= |ledger| && attempt.index < |ledger|
    requires Holds(p, raw, ledger[..k])
    ensures Holds(p, After(p, raw, ledger[attempt.index], attempt.bytes), ledger[..Advanced(ledger, k, attempt)])
  {
    if k < |ledger| {
      AttemptPublishes(p, ledger, k, attempt);
      AppendKeepsChain(p, raw, ledger[..k], ledger[attempt.index], attempt.bytes);
    } else {
      assert ledger[..k] == ledger;
      FullLedgerStays(p, ledger, raw, attempt.index, attempt.bytes);
    }
  }

  /** A receipt that is not the next of the chain leaves the file alone. */
  lemma NotNextStays(p: Protocol, raw: seq<byte>, bodies: seq<seq<byte>>, body: seq<byte>, bytes: nat)
    requires Holds(p, raw, bodies) && !Chained(p, bodies + [body])
    ensures After(p, raw, body, bytes) == raw
  {
    if p.parse(body).Some? && p.parse(body).value.isPublic {
      assert bodies != [] ==> Linked(p, bodies, |bodies| - 1);
      ChainedExtend(p, bodies, body);
    }
  }

  lemma NextIsWritten(p: Protocol, raw: seq<byte>, bodies: seq<seq<byte>>, body: seq<byte>)
    requires Holds(p, raw, bodies) && Chained(p, bodies + [body]) && |Image(bodies)| + 4 + |body| <= MAX_BYTES
    ensures PlanOf(p, raw, body) == Write(Image(bodies))
  {
    assert Linked(p, bodies + [body], |bodies|);
    assert bodies != [] ==> Linked(p, bodies, |bodies| - 1);
    ChainedExtend(p, bodies, body);
  }

  lemma FullLedgerStays(p: Protocol, ledger: seq<seq<byte>>, raw: seq<byte>, index: nat, bytes: nat)
    requires Publishable(p, ledger) && index < |ledger| && Holds(p, raw, ledger)
    ensures After(p, raw, ledger[index], bytes) == raw
  {
    assert ledger[..|ledger|] == ledger;
    OnlyNextExtends(p, ledger, |ledger|, index);
    NotNextStays(p, raw, ledger, ledger[index], bytes);
  }

  lemma EmptyHolds(p: Protocol)
    ensures Holds(p, [], [])
  {
  }

  lemma {:induction false} RunIsCounter(p: Protocol, ledger: seq<seq<byte>>, attempts: seq<Attempt>, n: nat)
    requires Publishable(p, ledger) && InLedger(ledger, attempts) && n <= |attempts|
    ensures Holds(p, AfterRun(p, ledger, attempts, n), ledger[..Reached(ledger, attempts, n)])
  {
    if n == 0 {
      EmptyHolds(p);
      assert ledger[..0] == [];
    } else {
      RunIsCounter(p, ledger, attempts, n - 1);
      AttemptMovesCounter(p, ledger, AfterRun(p, ledger, attempts, n - 1), Reached(ledger, attempts, n - 1),
                          attempts[n - 1]);
    }
  }

  lemma LastEntryCompletes(p: Protocol, ledger: seq<seq<byte>>, raw: seq<byte>, bytes: nat)
    requires Publishable(p, ledger) && ledger != []
    requires Holds(p, raw, ledger[..|ledger| - 1]) && bytes >= 4 + |ledger[|ledger| - 1]|
    ensures After(p, raw, ledger[|ledger| - 1], bytes) == Image(ledger)
  {
    var earlier, body := ledger[..|ledger| - 1], ledger[|ledger| - 1];
    assert ledger == earlier + [body];
    ImageAppend(earlier, body);
    NextIsWritten(p, raw, earlier, body);
    assert Frame(body)[..4 + |body|] == Frame(body);
  }

  ghost predicate Settled(ledger: seq<seq<byte>>, raw: seq<byte>, k: nat) {
    k == |ledger| ==> raw == Image(ledger)
  }

  lemma AttemptSettles(p: Protocol, ledger: seq<seq<byte>>, raw: seq<byte>, k: nat, attempt: Attempt)
    requires Publishable(p, ledger) && k <= |ledger| && attempt.index < |ledger|
    requires Holds(p, raw, ledger[..k]) && Settled(ledger, raw, k)
    ensures Settled(ledger, After(p, raw, ledger[attempt.index], attempt.bytes), Advanced(ledger, k, attempt))
  {
    if k == |ledger| {
      assert ledger[..k] == ledger;
      FullLedgerStays(p, ledger, raw, attempt.index, attempt.bytes);
    } else if Advanced(ledger, k, attempt) == |ledger| {
      LastEntryCompletes(p, ledger, raw, attempt.bytes);
    }
  }

  /** Once the counter has reached the end of the ledger the file is its image, with no torn suffix. */
  lemma {:induction false} RunSettles(p: Protocol, ledger: seq<seq<byte>>, attempts: seq<Attempt>, n: nat)
    requires Publishable(p, ledger) && InLedger(ledger, attempts) && n <= |attempts|
    ensures Settled(ledger, AfterRun(p, ledger, attempts, n), Reached(ledger, attempts, n))
  {
    if n > 0 {
      RunSettles(p, ledger, attempts, n - 1);
      RunIsCounter(p, ledger, attempts, n - 1);
      AttemptSettles(p, ledger, AfterRun(p, ledger, attempts, n - 1), Reached(ledger, attempts, n - 1), attempts[n - 1]);
    }
  }

  /** A run that ends by offering entries 0, 1, ..., m - 1 once more, each completely. */
  ghost predicate EndsInSweep(ledger: seq<seq<byte>>, attempts: seq<Attempt>, from: nat) {
    && from <= |attempts| && |attempts| - from <= |ledger|
    && forall j :: from <= j < |attempts| ==>
         attempts[j].index == j - from && attempts[j].bytes >= 4 + |ledger[j - from]|
  }

  lemma {:induction false} SweepReaches(ledger: seq<seq<byte>>, attempts: seq<Attempt>, from: nat, n: nat)
    requires InLedger(ledger, attempts) && EndsInSweep(ledger, attempts, from) && from <= n <= |attempts|
    ensures Reached(ledger, attempts, n) >= n - from
  {
    if n > from {
      SweepReaches(ledger, attempts, from, n - 1);
    }
  }

  /** Convergence: whatever happened before, republishing the ledger once leaves exactly the ledger. */
  lemma RepublishingConverges(p: Protocol, ledger: seq<seq<byte>>, attempts: seq<Attempt>, from: nat)
    requires Publishable(p, ledger) && InLedger(ledger, attempts) && EndsInSweep(ledger, attempts, from)
    requires |attempts| - from == |ledger|
    ensures AfterRun(p, ledger, attempts, |attempts|) == Image(ledger)
  {
    SweepReaches(ledger, attempts, from, |attempts|);
    RunSettles(p, ledger, attempts, |attempts|);
  }

  // ---------------------------------------------------------------- the receipt chain

  ghost predicate CollisionFree(p: Protocol) {
    forall r, s :: p.hash(r) == p.hash(s) ==> r == s
  }

  /** The last receipt binds the whole journal. */
  lemma {:induction false} TailBindsJournal(p: Protocol, left: seq<seq<byte>>, right: seq<seq<byte>>, n: nat)
    requires Strict(p) && CollisionFree(p) && Chained(p, left) && Chained(p, right)
    requires 0 < n <= |left| && n <= |right| && left[n - 1] == right[n - 1]
    ensures left[..n] == right[..n]
  {
    assert left[..n] == left[..n - 1] + [left[n - 1]] && right[..n] == right[..n - 1] + [right[n - 1]];
    if n > 1 {
      assert Linked(p, left, n - 1) && Linked(p, right, n - 1);
      TailBindsJournal(p, left, right, n - 1);
    }
  }

  lemma EqualTailsEqualJournals(p: Protocol, left: seq<seq<byte>>, right: seq<seq<byte>>)
    requires Strict(p) && CollisionFree(p) && Chained(p, left) && Chained(p, right)
    requires left != [] && right != [] && left[|left| - 1] == right[|right| - 1]
    ensures left == right
  {
    assert Linked(p, left, |left| - 1) && Linked(p, right, |right| - 1);
    TailBindsJournal(p, left, right, |left|);
    assert left[..|left|] == left && right[..|right|] == right;
  }
}
