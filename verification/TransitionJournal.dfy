/** The hash-chained install journal at the level of its bytes. */
module TransitionJournal {
  import opened Wrappers
  import opened Bytes
  import Device
  import opened FramedLog
  import opened InstallEvents

  const MAX_RECORD: nat := 1_048_576
  const MAX_BYTES: nat := 67_108_864
  const MAX_RECORDS: nat := 65_536

  type Digest = string

  datatype Record = Record(sequence: nat, previous: Digest, payload: Payload, digest: Digest)

  /** Canonical JSON and the domain digest, taken as parameters. */
  datatype Codec = Codec(
    genesis: Digest,
    digest: (nat, Digest, Payload) -> Digest,
    encode: Record -> seq<byte>,
    parse: seq<byte> -> Option<Record>)

  /** What the strict parser guarantees: it reads back what the encoder wrote, and only that. */
  ghost predicate Canonical(codec: Codec) {
    && (forall r :: codec.parse(codec.encode(r)) == Some(r))
    && (forall b, r :: codec.parse(b) == Some(r) ==> codec.encode(r) == b)
    && (forall r :: codec.encode(r) != [])
  }

  function Head(codec: Codec, bodies: seq<seq<byte>>): Digest {
    if bodies == [] then codec.genesis
    else
      match codec.parse(bodies[|bodies| - 1])
      case Some(record) => record.digest
      case None => codec.genesis
  }

  predicate Admits(codec: Codec, earlier: seq<seq<byte>>, body: seq<byte>) {
    match codec.parse(body)
    case Some(record) =>
      && record.sequence == |earlier| + 1
      && record.previous == Head(codec, earlier)
      && record.digest == codec.digest(record.sequence, record.previous, record.payload)
    case None => false
  }

  function JournalFormat(codec: Codec): Format {
    Format(MAX_RECORD, AtMost(MAX_RECORDS), (earlier, body) => Admits(codec, earlier, body))
  }

  function NextBody(codec: Codec, bodies: seq<seq<byte>>, payload: Payload): seq<byte> {
    var sequence, previous := |bodies| + 1, Head(codec, bodies);
    codec.encode(Record(sequence, previous, payload, codec.digest(sequence, previous, payload)))
  }

  /** The journal a writer produces for a list of payloads when nothing ever fails. */
  ghost function Written(codec: Codec, payloads: seq<Payload>, n: nat): (bodies: seq<seq<byte>>)
    requires n <= |payloads|
    ensures |bodies| == n
  {
    if n == 0 then []
    else
      var earlier := Written(codec, payloads, n - 1);
      earlier + [NextBody(codec, earlier, payloads[n - 1])]
  }

  ghost function Journal(codec: Codec, payloads: seq<Payload>): seq<seq<byte>> {
    Written(codec, payloads, |payloads|)
  }

  function PayloadOf(codec: Codec, body: seq<byte>): Payload {
    match codec.parse(body)
    case Some(record) => record.payload
    case None => Payload(0, Binding("", "", ""), TransactionStart)
  }

  function PayloadsOf(codec: Codec, bodies: seq<seq<byte>>): seq<Payload> {
    seq(|bodies|, i requires 0 <= i < |bodies| => PayloadOf(codec, bodies[i]))
  }

  // ---------------------------------------------------------------- the journal file

  datatype JournalError = IdentityChanged | TornPrefix | CorruptRecords | OversizeRecords | RecordOversize | ZeroWrite

  /** `Interrupted` is a process that stopped before the write loop finished. */
  datatype Appended = Appended | Refused(error: JournalError) | Interrupted

  function OutcomeOf(ended: Device.Ended): Appended {
    match ended
    case Finished => Appended
    case ZeroWrite => Refused(JournalError.ZeroWrite)
    case Halted => Interrupted
  }

  /** What an append does before its write loop: stop with an error, or write the frame of `body`
      behind `base`. */
  datatype Plan = Stop(base: seq<byte>, error: JournalError) | Write(base: seq<byte>, body: seq<byte>)

  ghost function PlanOf(codec: Codec, raw: seq<byte>, payload: Payload): Plan {
    if |raw| > MAX_BYTES then Stop(raw, IdentityChanged)
    else
      match ScanLog(JournalFormat(codec), raw)
      case Corrupt => Stop(raw, CorruptRecords)
      case Oversize => Stop(raw, OversizeRecords)
      case other =>
        var base, body := Image(other.bodies), NextBody(codec, other.bodies, payload);
        if |body| > MAX_RECORD then Stop(base, RecordOversize)
        else if |base| + 4 + |body| > MAX_BYTES then Stop(base, OversizeRecords)
        else Write(base, body)
  }

  /** The file after an append that wrote at most `bytes` bytes of its frame. */
  ghost function AfterAppend(codec: Codec, raw: seq<byte>, payload: Payload, bytes: nat): seq<byte> {
    match PlanOf(codec, raw, payload)
    case Stop(base, _) => base
    case Write(base, body) => base + Frame(body)[..CutOf(body, bytes)]
  }

  /** The file, the outcome and the bytes written of one append over a device that reports `counts`. */
  ghost predicate AppendResult(codec: Codec, raw: seq<byte>, payload: Payload, counts: seq<nat>,
                               after: seq<byte>, outcome: Appended, cut: nat)
  {
    && after == AfterAppend(codec, raw, payload, cut)
    && match PlanOf(codec, raw, payload)
       case Stop(_, error) => outcome == Refused(error)
       case Write(_, body) =>
         && cut == Device.Delivered(counts, 4 + |body|).0
         && outcome == OutcomeOf(Device.Delivered(counts, 4 + |body|).1)
  }

  /** Append one payload to a file.  `counts` are the byte counts the device reports for the successive
      writes; a list that ends early is a process that stopped. */
  method AppendTo(codec: Codec, raw: seq<byte>, payload: Payload, counts: seq<nat>)
    returns (after: seq<byte>, outcome: Appended, cut: nat)
    ensures AppendResult(codec, raw, payload, counts, after, outcome, cut)
  {
    after, cut := raw, 0;
    if |raw| > MAX_BYTES {
      return after, Refused(IdentityChanged), cut;
    }
    var scan := Decode(JournalFormat(codec), raw);
    ScanFromSound(JournalFormat(codec), raw, 0, []);
    if scan.Corrupt? {
      return after, Refused(CorruptRecords), cut;
    }
    if scan.Oversize? {
      return after, Refused(OversizeRecords), cut;
    }
    if scan.Torn? {
      after := raw[..scan.offset];
    }
    var body := NextBody(codec, scan.bodies, payload);
    if |body| > MAX_RECORD {
      return after, Refused(RecordOversize), cut;
    }
    var encoded := Frame(body);
    if |after| + |encoded| > MAX_BYTES {
      return after, Refused(OversizeRecords), cut;
    }
    var ended;
    after, cut, ended := Device.WriteAll(after, encoded, counts);
    return after, OutcomeOf(ended), cut;
  }

  /** Read every record of a file; on request drop the torn tail that a stopped append left. */
  method ReadFrom(codec: Codec, raw: seq<byte>, repair: bool)
    returns (result: Result<seq<seq<byte>>, JournalError>, after: seq<byte>)
    ensures match result
            case Ok(bodies) =>
              && |raw| <= MAX_BYTES
              && ReadsAs(JournalFormat(codec), raw, bodies)
              && (ScanLog(JournalFormat(codec), raw).Torn? ==> repair)
              && after == Image(bodies)
            case Err(error) =>
              && after == raw
              && (error == IdentityChanged <==> |raw| > MAX_BYTES)
              && (error == TornPrefix <==> |raw| <= MAX_BYTES && !repair && ScanLog(JournalFormat(codec), raw).Torn?)
              && (error == CorruptRecords <==> |raw| <= MAX_BYTES && ScanLog(JournalFormat(codec), raw).Corrupt?)
              && (error == OversizeRecords <==> |raw| <= MAX_BYTES && ScanLog(JournalFormat(codec), raw).Oversize?)
              && error in {IdentityChanged, TornPrefix, CorruptRecords, OversizeRecords}
  {
    after := raw;
    if |raw| > MAX_BYTES {
      return Err(IdentityChanged), after;
    }
    var scan := Decode(JournalFormat(codec), raw);
    ScanFromSound(JournalFormat(codec), raw, 0, []);
    match scan {
      case Whole(bodies) =>
        return Ok(bodies), after;
      case Torn(bodies, offset) =>
        if !repair {
          return Err(TornPrefix), after;
        }
        return Ok(bodies), raw[..offset];
      case Corrupt =>
        return Err(CorruptRecords), after;
      case Oversize =>
        return Err(OversizeRecords), after;
    }
  }

  class FileTransitionJournal {
    const codec: Codec
    var raw: seq<byte>

    constructor (codec: Codec)
      ensures this.codec == codec && raw == []
    {
      this.codec := codec;
      raw := [];
    }

    /** A file is read unless it is too long, corrupt, over the record cap, or torn without repair; only
        a repair changes it, and drops exactly the torn tail. */
    method Records(repair: bool) returns (result: Result<seq<seq<byte>>, JournalError>)
      modifies this
      ensures result.Ok? <==>
                && |old(raw)| <= MAX_BYTES
                && (exists bodies :: ReadsAs(JournalFormat(codec), old(raw), bodies))
                && (ScanLog(JournalFormat(codec), old(raw)).Torn? ==> repair)
      ensures result.Ok? ==> ReadsAs(JournalFormat(codec), old(raw), result.value) && raw == Image(result.value)
      ensures result.Err? ==> raw == old(raw)
    {
      result, raw := ReadFrom(codec, raw, repair);
    }

    method Append(payload: Payload, counts: seq<nat>) returns (outcome: Appended, cut: nat)
      modifies this
      ensures AppendResult(codec, old(raw), payload, counts, raw, outcome, cut)
    {
      raw, outcome, cut := AppendTo(codec, raw, payload, counts);
    }
  }

  // ---------------------------------------------------------------- meaning of a readable journal

  lemma NextBodyAdmitted(codec: Codec, bodies: seq<seq<byte>>, payload: Payload)
    requires Canonical(codec)
    ensures Admits(codec, bodies, NextBody(codec, bodies, payload))
    ensures PayloadOf(codec, NextBody(codec, bodies, payload)) == payload
    ensures NextBody(codec, bodies, payload) != []
  {
  }

  lemma AdmittedIsNextBody(codec: Codec, bodies: seq<seq<byte>>, body: seq<byte>)
    requires Canonical(codec) && Admits(codec, bodies, body)
    ensures body == NextBody(codec, bodies, PayloadOf(codec, body))
  {
  }

  lemma {:induction false} WrittenLocal(codec: Codec, payloads: seq<Payload>, more: seq<Payload>, n: nat)
    requires n <= |payloads| && payloads <= more
    ensures Written(codec, more, n) == Written(codec, payloads, n)
  {
    if n > 0 {
      WrittenLocal(codec, payloads, more, n - 1);
    }
  }

  lemma JournalAppend(codec: Codec, payloads: seq<Payload>, payload: Payload)
    ensures Journal(codec, payloads + [payload])
         == Journal(codec, payloads) + [NextBody(codec, Journal(codec, payloads), payload)]
  {
    WrittenLocal(codec, payloads, payloads + [payload], |payloads|);
  }

  ghost predicate WrittenUpTo(codec: Codec, bodies: seq<seq<byte>>, n: nat)
    requires n <= |bodies|
  {
    Written(codec, PayloadsOf(codec, bodies), n) == bodies[..n]
  }

  lemma WrittenNext(codec: Codec, bodies: seq<seq<byte>>, n: nat)
    requires n < |bodies| && WrittenUpTo(codec, bodies, n)
    requires bodies[n] == NextBody(codec, bodies[..n], PayloadOf(codec, bodies[n]))
    ensures WrittenUpTo(codec, bodies, n + 1)
  {
    assert PayloadsOf(codec, bodies)[n] == PayloadOf(codec, bodies[n]);
    assert bodies[..n + 1] == bodies[..n] + [bodies[n]];
  }

  lemma AcceptedBody(codec: Codec, bodies: seq<seq<byte>>, n: nat)
    requires Canonical(codec) && Accepted(JournalFormat(codec), bodies) && n < |bodies|
    ensures bodies[n] == NextBody(codec, bodies[..n], PayloadOf(codec, bodies[n]))
  {
    assert JournalFormat(codec).admits(bodies[..n], bodies[n]);
    AdmittedIsNextBody(codec, bodies[..n], bodies[n]);
  }

  /** Every body list the decoder accepts is what the writer produces for its own payloads:
      the bytes carry no freedom beyond the payload list. */
  lemma {:induction false} AcceptedIsWritten(codec: Codec, bodies: seq<seq<byte>>, n: nat)
    requires Canonical(codec) && Accepted(JournalFormat(codec), bodies) && n <= |bodies|
    ensures WrittenUpTo(codec, bodies, n)
  {
    if n > 0 {
      AcceptedIsWritten(codec, bodies, n - 1);
      AcceptedBody(codec, bodies, n - 1);
      WrittenNext(codec, bodies, n - 1);
    }
  }

  ghost predicate Fits(codec: Codec, payloads: seq<Payload>) {
    && |payloads| <= MAX_RECORDS
    && forall i :: 0 <= i < |payloads| ==> |Journal(codec, payloads)[i]| <= MAX_RECORD
  }

  lemma {:induction false} WrittenPrefix(codec: Codec, payloads: seq<Payload>, n: nat, m: nat)
    requires n <= m <= |payloads|
    ensures Written(codec, payloads, m)[..n] == Written(codec, payloads, n)
  {
    if n < m {
      WrittenPrefix(codec, payloads, n, m - 1);
      assert Written(codec, payloads, m)[..n] == Written(codec, payloads, m - 1)[..n];
    }
  }

  lemma BodyAt(codec: Codec, payloads: seq<Payload>, i: nat)
    requires i < |payloads|
    ensures Journal(codec, payloads)[i] == NextBody(codec, Written(codec, payloads, i), payloads[i])
  {
    WrittenPrefix(codec, payloads, i + 1, |payloads|);
    assert Journal(codec, payloads)[i] == Journal(codec, payloads)[..i + 1][i];
  }

  lemma WrittenIsAccepted(codec: Codec, payloads: seq<Payload>)
    requires Canonical(codec) && Fits(codec, payloads)
    ensures Accepted(JournalFormat(codec), Journal(codec, payloads))
    ensures PayloadsOf(codec, Journal(codec, payloads)) == payloads
  {
    var bodies := Journal(codec, payloads);
    JournalPayloads(codec, payloads);
    forall i | 0 <= i < |bodies|
      ensures Framable(JournalFormat(codec), bodies[i]) && Admits(codec, bodies[..i], bodies[i])
    {
      WrittenPrefix(codec, payloads, i, |bodies|);
      BodyAt(codec, payloads, i);
      NextBodyAdmitted(codec, bodies[..i], payloads[i]);
    }
  }

  lemma JournalPayloads(codec: Codec, payloads: seq<Payload>)
    requires Canonical(codec)
    ensures PayloadsOf(codec, Journal(codec, payloads)) == payloads
  {
    forall i | 0 <= i < |payloads|
      ensures PayloadsOf(codec, Journal(codec, payloads))[i] == payloads[i]
    {
      BodyAt(codec, payloads, i);
      NextBodyAdmitted(codec, Written(codec, payloads, i), payloads[i]);
    }
  }

  /** The reader finds a whole log, and these are its payloads. */
  ghost predicate ReadableAs(codec: Codec, raw: seq<byte>, payloads: seq<Payload>) {
    exists bodies :: ScanLog(JournalFormat(codec), raw) == Whole(bodies) && PayloadsOf(codec, bodies) == payloads
  }

  lemma WrittenIsReadable(codec: Codec, payloads: seq<Payload>)
    requires Canonical(codec) && Fits(codec, payloads)
    ensures ReadableAs(codec, Image(Journal(codec, payloads)), payloads)
  {
    var bodies := Journal(codec, payloads);
    WrittenIsAccepted(codec, payloads);
    WholeMeaning(JournalFormat(codec), Image(bodies), bodies);
  }

  lemma WholeIsWritten(codec: Codec, raw: seq<byte>, bodies: seq<seq<byte>>)
    requires Canonical(codec) && ScanLog(JournalFormat(codec), raw) == Whole(bodies)
    ensures Fits(codec, PayloadsOf(codec, bodies)) && raw == Image(Journal(codec, PayloadsOf(codec, bodies)))
  {
    WholeMeaning(JournalFormat(codec), raw, bodies);
    AcceptedIsWritten(codec, bodies, |bodies|);
    assert bodies[..|bodies|] == bodies;
    assert forall i :: 0 <= i < |bodies| ==> Framable(JournalFormat(codec), bodies[i]);
  }

  /** A journal file is readable without repair exactly when it is the image of some payload list
      within the caps, and that payload list is the one the reader returns. */
  lemma ReadableIffWritten(codec: Codec, raw: seq<byte>, payloads: seq<Payload>)
    requires Canonical(codec)
    ensures ReadableAs(codec, raw, payloads) <==> Fits(codec, payloads) && raw == Image(Journal(codec, payloads))
  {
    if Fits(codec, payloads) && raw == Image(Journal(codec, payloads)) {
      WrittenIsReadable(codec, payloads);
    }
    if ReadableAs(codec, raw, payloads) {
      var bodies :| ScanLog(JournalFormat(codec), raw) == Whole(bodies) && PayloadsOf(codec, bodies) == payloads;
      WholeIsWritten(codec, raw, bodies);
    }
  }

  // ---------------------------------------------------------------- crashes

  /** One append of a run, stopped after at most `bytes` bytes of its frame. */
  datatype Attempt = Attempt(payload: Payload, bytes: nat)

  ghost function AfterRun(codec: Codec, attempts: seq<Attempt>, n: nat): seq<byte>
    requires n <= |attempts|
  {
    if n == 0 then []
    else AfterAppend(codec, AfterRun(codec, attempts, n - 1), attempts[n - 1].payload, attempts[n - 1].bytes)
  }

  /** What the appender looks at before it writes a payload behind `earlier`: that the records can still
      be read, the record size and the file size. */
  ghost predicate Room(codec: Codec, earlier: seq<Payload>, payload: Payload) {
    && |earlier| <= MAX_RECORDS
    && |NextBody(codec, Journal(codec, earlier), payload)| <= MAX_RECORD
    && |Image(Journal(codec, earlier))| + 4 + |NextBody(codec, Journal(codec, earlier), payload)| <= MAX_BYTES
  }

  /** What an append does to a file, by the records on it: it writes the next record behind the whole ones
      exactly when that record is of legal size and fits, and each refusal has its one reason. */
  lemma PlanIff(codec: Codec, raw: seq<byte>, bodies: seq<seq<byte>>, payload: Payload)
    requires ReadsAs(JournalFormat(codec), raw, bodies) && |raw| <= MAX_BYTES
    ensures var plan, base, body := PlanOf(codec, raw, payload), Image(bodies), NextBody(codec, bodies, payload);
      && (plan == Write(base, body) <==> |body| <= 1_048_576 && |base| + 4 + |body| <= 67_108_864)
      && (plan == Stop(base, RecordOversize) <==> |body| > 1_048_576)
      && (plan == Stop(base, OversizeRecords) <==> |body| <= 1_048_576 && |base| + 4 + |body| > 67_108_864)
  {
  }

  /** A file that does not read as records, or is too long to be a journal, is refused untouched. */
  lemma UnreadablePlanIff(codec: Codec, raw: seq<byte>, payload: Payload)
    ensures var plan := PlanOf(codec, raw, payload);
      && (plan == Stop(raw, IdentityChanged) <==> |raw| > 67_108_864)
      && (plan == Stop(raw, CorruptRecords) <==> |raw| <= 67_108_864 && Damaged(JournalFormat(codec), raw))
      && (|raw| <= 67_108_864 && Overfull(JournalFormat(codec), raw) ==> plan == Stop(raw, OversizeRecords))
  {
    RefusalMeaning(JournalFormat(codec), raw);
  }

  /** The payloads on file after an attempt. */
  ghost function Later(codec: Codec, earlier: seq<Payload>, payload: Payload, bytes: nat): seq<Payload> {
    if Room(codec, earlier, payload) && bytes >= 4 + |NextBody(codec, Journal(codec, earlier), payload)|
    then earlier + [payload] else earlier
  }

  /** The payloads that had room and whose append wrote its whole frame. */
  ghost function Landed(codec: Codec, attempts: seq<Attempt>, n: nat): seq<Payload>
    requires n <= |attempts|
  {
    if n == 0 then [] else Later(codec, Landed(codec, attempts, n - 1), attempts[n - 1].payload, attempts[n - 1].bytes)
  }

  /** `raw` holds exactly the records of `payloads`, perhaps followed by a cut frame, and is not too long. */
  ghost predicate Tracks(codec: Codec, raw: seq<byte>, payloads: seq<Payload>) {
    && |raw| <= MAX_BYTES
    && Accepted(Uncapped(JournalFormat(codec)), Journal(codec, payloads))
    && ReadsAs(Uncapped(JournalFormat(codec)), raw, Journal(codec, payloads))
  }

  lemma EmptyTracks(codec: Codec)
    ensures Tracks(codec, [], [])
  {
  }

  /** The reader sees exactly the records on file, unless they are more than it takes. */
  lemma TracksReads(codec: Codec, raw: seq<byte>, payloads: seq<Payload>)
    requires Tracks(codec, raw, payloads)
    ensures |payloads| <= MAX_RECORDS ==> ReadsAs(JournalFormat(codec), raw, Journal(codec, payloads))
    ensures |payloads| > MAX_RECORDS ==> ScanLog(JournalFormat(codec), raw) == Oversize
  {
    CapDecides(JournalFormat(codec), raw, Journal(codec, payloads));
  }

  /** The plan of an append to a file that holds `earlier`. */
  lemma TracksPlans(codec: Codec, raw: seq<byte>, earlier: seq<Payload>, payload: Payload)
    requires Tracks(codec, raw, earlier)
    ensures var base, body := Image(Journal(codec, earlier)), NextBody(codec, Journal(codec, earlier), payload);
      PlanOf(codec, raw, payload)
      == if |earlier| > MAX_RECORDS then Stop(raw, OversizeRecords)
         else if |body| > MAX_RECORD then Stop(base, RecordOversize)
         else if |base| + 4 + |body| > MAX_BYTES then Stop(base, OversizeRecords)
         else Write(base, body)
  {
    TracksReads(codec, raw, earlier);
  }

  /** Without its torn tail the file holds the same records. */
  lemma ImageTracks(codec: Codec, raw: seq<byte>, payloads: seq<Payload>)
    requires Tracks(codec, raw, payloads)
    ensures Tracks(codec, Image(Journal(codec, payloads)), payloads)
  {
    var format, bodies := Uncapped(JournalFormat(codec)), Journal(codec, payloads);
    UncappedPrefix(JournalFormat(codec), raw, bodies);
    ScanOfImage(format, bodies, []);
    assert Image(bodies) + [] == Image(bodies);
  }

  lemma CutTracks(codec: Codec, earlier: seq<Payload>, payload: Payload, body: seq<byte>, cut: nat)
    requires Canonical(codec) && Accepted(Uncapped(JournalFormat(codec)), Journal(codec, earlier))
    requires Room(codec, earlier, payload)
    requires body == NextBody(codec, Journal(codec, earlier), payload) && cut <= 4 + |body|
    ensures Tracks(codec, CutAppend(Journal(codec, earlier), body, cut),
                   if cut == 4 + |body| then earlier + [payload] else earlier)
  {
    var format, bodies := Uncapped(JournalFormat(codec)), Journal(codec, earlier);
    NextBodyAdmitted(codec, bodies, payload);
    CutReadsAsOldOrNew(format, bodies, body, cut);
    JournalAppend(codec, earlier, payload);
    AcceptedExtend(format, bodies, body);
  }

  lemma AttemptStep(codec: Codec, earlier: seq<Payload>, raw: seq<byte>, payload: Payload, bytes: nat)
    requires Canonical(codec) && Tracks(codec, raw, earlier)
    ensures Tracks(codec, AfterAppend(codec, raw, payload, bytes), Later(codec, earlier, payload, bytes))
  {
    TracksPlans(codec, raw, earlier, payload);
    ImageTracks(codec, raw, earlier);
    if Room(codec, earlier, payload) {
      var body := NextBody(codec, Journal(codec, earlier), payload);
      CutTracks(codec, earlier, payload, body, CutOf(body, bytes));
    }
  }

  /** Over any run of appends, refused or stopped anywhere, the file holds exactly the payloads that
      landed, so the next append extends the same file a crash-free history would have left. */
  lemma {:induction false} RunReadsAsLanded(codec: Codec, attempts: seq<Attempt>, n: nat)
    requires Canonical(codec) && n <= |attempts|
    ensures Tracks(codec, AfterRun(codec, attempts, n), Landed(codec, attempts, n))
  {
    if n == 0 {
      EmptyTracks(codec);
    } else {
      RunReadsAsLanded(codec, attempts, n - 1);
      NextTracks(codec, attempts, n);
    }
  }

  lemma NextTracks(codec: Codec, attempts: seq<Attempt>, n: nat)
    requires Canonical(codec) && 0 < n <= |attempts|
    requires Tracks(codec, AfterRun(codec, attempts, n - 1), Landed(codec, attempts, n - 1))
    ensures Tracks(codec, AfterRun(codec, attempts, n), Landed(codec, attempts, n))
  {
    var attempt := attempts[n - 1];
    AttemptStep(codec, Landed(codec, attempts, n - 1), AfterRun(codec, attempts, n - 1), attempt.payload, attempt.bytes);
  }

  /** Stopping an append and then appending leaves the same bytes as appending without the stop. */
  lemma StoppedAppendForgotten(codec: Codec, raw: seq<byte>, earlier: seq<Payload>, stopped: Attempt, next: Attempt)
    requires Canonical(codec) && Tracks(codec, raw, earlier)
    requires Later(codec, earlier, stopped.payload, stopped.bytes) == earlier
    ensures AfterAppend(codec, AfterAppend(codec, raw, stopped.payload, stopped.bytes), next.payload, next.bytes)
         == AfterAppend(codec, raw, next.payload, next.bytes)
  {
    AttemptStep(codec, earlier, raw, stopped.payload, stopped.bytes);
    TracksPlans(codec, raw, earlier, stopped.payload);
    TracksPlans(codec, raw, earlier, next.payload);
    TracksPlans(codec, AfterAppend(codec, raw, stopped.payload, stopped.bytes), earlier, next.payload);
  }

  // ---------------------------------------------------------------- the record cap

  /** An append that writes its whole frame locks the journal exactly at the record cap: the appender
      does not look at it. */
  lemma AppendLocksIff(codec: Codec, raw: seq<byte>, earlier: seq<Payload>, payload: Payload, bytes: nat)
    requires Canonical(codec) && Tracks(codec, raw, earlier) && |earlier| <= MAX_RECORDS
    ensures ScanLog(JournalFormat(codec), AfterAppend(codec, raw, payload, bytes)).Oversize?
       <==> |earlier| == MAX_RECORDS && Later(codec, earlier, payload, bytes) != earlier
  {
    AttemptStep(codec, earlier, raw, payload, bytes);
    TracksReads(codec, AfterAppend(codec, raw, payload, bytes), Later(codec, earlier, payload, bytes));
  }

  /** A locked journal refuses every append and stays as it is. */
  lemma LockedStays(codec: Codec, raw: seq<byte>, payload: Payload, bytes: nat)
    requires ScanLog(JournalFormat(codec), raw).Oversize?
    ensures AfterAppend(codec, raw, payload, bytes) == raw && PlanOf(codec, raw, payload).Stop?
  {
  }

  // ---------------------------------------------------------------- the hash chain

  /** No collisions, and no record hashes to the genesis digest. */
  ghost predicate CollisionFree(codec: Codec) {
    && (forall i, d, p, i', d', p' ::
          codec.digest(i, d, p) == codec.digest(i', d', p') ==> i == i' && d == d' && p == p')
    && (forall i, d, p :: codec.digest(i, d, p) != codec.genesis)
  }

  ghost function Chain(codec: Codec, payloads: seq<Payload>, n: nat): Digest
    requires n <= |payloads|
  {
    if n == 0 then codec.genesis else codec.digest(n, Chain(codec, payloads, n - 1), payloads[n - 1])
  }

  lemma {:induction false} HeadIsChain(codec: Codec, payloads: seq<Payload>, n: nat)
    requires Canonical(codec) && n <= |payloads|
    ensures Head(codec, Written(codec, payloads, n)) == Chain(codec, payloads, n)
  {
    if n > 0 {
      HeadIsChain(codec, payloads, n - 1);
    }
  }

  /** What the records of a journal carry: their number, the digest of the record before them (or the
      genesis digest), their payload, and a digest over these three. */
  lemma RecordIsLinked(codec: Codec, payloads: seq<Payload>, i: nat)
    requires Canonical(codec) && i < |payloads|
    ensures codec.parse(Journal(codec, payloads)[i])
         == Some(Record(i + 1, Chain(codec, payloads, i), payloads[i], Chain(codec, payloads, i + 1)))
  {
    BodyAt(codec, payloads, i);
    HeadIsChain(codec, payloads, i);
  }

  /** The reader demands just this: a record is accepted behind `payloads` exactly when it is linked to them. */
  lemma AdmitsIffLinked(codec: Codec, payloads: seq<Payload>, body: seq<byte>, record: Record)
    requires Canonical(codec) && codec.parse(body) == Some(record)
    ensures Admits(codec, Journal(codec, payloads), body)
       <==> record == Record(|payloads| + 1, Chain(codec, payloads, |payloads|), record.payload,
                             Chain(codec, payloads + [record.payload], |payloads| + 1))
  {
    HeadIsChain(codec, payloads, |payloads|);
    ChainLocal(codec, payloads, payloads + [record.payload], |payloads|);
  }

  lemma {:induction false} ChainLocal(codec: Codec, payloads: seq<Payload>, more: seq<Payload>, n: nat)
    requires n <= |payloads| && payloads <= more
    ensures Chain(codec, more, n) == Chain(codec, payloads, n)
  {
    if n > 0 {
      ChainLocal(codec, payloads, more, n - 1);
    }
  }

  lemma {:induction false} ChainBindsPrefix(codec: Codec, left: seq<Payload>, n: nat, right: seq<Payload>, m: nat)
    requires CollisionFree(codec) && n <= |left| && m <= |right|
    requires Chain(codec, left, n) == Chain(codec, right, m)
    ensures left[..n] == right[..m]
  {
    if n > 0 && m > 0 {
      ChainBindsPrefix(codec, left, n - 1, right, m - 1);
      assert left[..n] == left[..n - 1] + [left[n - 1]] && right[..m] == right[..m - 1] + [right[m - 1]];
    }
  }

  /** The head digest binds the whole history: equal heads mean equal payload lists. */
  lemma HeadBindsHistory(codec: Codec, left: seq<Payload>, right: seq<Payload>)
    requires Canonical(codec) && CollisionFree(codec)
    requires Head(codec, Journal(codec, left)) == Head(codec, Journal(codec, right))
    ensures left == right
  {
    HeadIsChain(codec, left, |left|);
    HeadIsChain(codec, right, |right|);
    ChainBindsPrefix(codec, left, |left|, right, |right|);
    assert left[..|left|] == left && right[..|right|] == right;
  }
}
