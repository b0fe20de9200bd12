/** The installer's journal as bytes: what a stopped or refused append leaves, and what the next run reads. */
module InstallStorage {
  import opened Wrappers
  import opened Bytes
  import Device
  import opened FramedLog
  import opened InstallEvents
  import opened InstallJournal
  import opened InstallInvariant
  import opened TransitionJournal

  ghost predicate Holding(codec: Codec, raw: seq<byte>, payloads: seq<Payload>) {
    Canonical(codec) && Tracks(codec, raw, payloads)
  }

  /** The file holds exactly these payloads, perhaps followed by a cut frame.  The quantifier keeps the
      bytes out of the reasoning about the methods that carry this along. */
  ghost predicate OnFile(codec: Codec, raw: seq<byte>, payloads: seq<Payload>) {
    forall held :: held == payloads ==> Holding(codec, raw, held)
  }

  lemma OnFileHolds(codec: Codec, raw: seq<byte>, payloads: seq<Payload>)
    ensures OnFile(codec, raw, payloads) <==> Holding(codec, raw, payloads)
  {
  }

  /** The file holds the journal of this installer. */
  ghost predicate Stored(config: Config, d: Durable, codec: Codec, raw: seq<byte>) {
    Inv(config, d) && OnFile(codec, raw, d.journal)
  }

  /** The file is never too long; the reader takes it exactly while the journal is within the record cap, and what it reads are
      the segments the invariant is about. */
  ghost predicate ReadBack(config: Config, d: Durable, codec: Codec, raw: seq<byte>)
    requires Inv(config, d)
  {
    && |raw| <= MAX_BYTES
    && ((exists bodies :: ReadsAs(JournalFormat(codec), raw, bodies)) <==> |d.journal| <= MAX_RECORDS)
    && forall bodies :: ReadsAs(JournalFormat(codec), raw, bodies) ==>
         Parsed(PayloadsOf(codec, bodies)) == Ok(SegmentsOf(config, d))
  }

  lemma StoredJournalIsRead(config: Config, d: Durable, codec: Codec, raw: seq<byte>)
    requires Stored(config, d, codec, raw)
    ensures ReadBack(config, d, codec, raw)
  {
    OnFileHolds(codec, raw, d.journal);
    TracksReads(codec, raw, d.journal);
    JournalPayloads(codec, d.journal);
    AlwaysReadable(config, d);
    forall bodies | ReadsAs(JournalFormat(codec), raw, bodies)
      ensures bodies == Journal(codec, d.journal) && |d.journal| <= MAX_RECORDS
    {
    }
  }

  /** The device writes out any record. */
  predicate Finishes(counts: seq<nat>) {
    Device.Delivered(counts, 4 + MAX_RECORD).1.Finished?
  }

  /** What an append leaves on file: the payload is there exactly when the append reports it, and an
      append that has room is never refused. */
  lemma AppendOnFile(codec: Codec, raw: seq<byte>, earlier: seq<Payload>, payload: Payload, counts: seq<nat>,
                     after: seq<byte>, outcome: Appended, cut: nat)
    requires OnFile(codec, raw, earlier) && AppendResult(codec, raw, payload, counts, after, outcome, cut)
    ensures OnFile(codec, after, if outcome.Appended? then earlier + [payload] else earlier)
    ensures !Room(codec, earlier, payload) <==> outcome.Refused? && !outcome.error.ZeroWrite?
    ensures Finishes(counts) && Room(codec, earlier, payload) ==> outcome == Appended
  {
    OnFileHolds(codec, raw, earlier);
    AppendOutcome(codec, raw, earlier, payload, counts, after, outcome, cut);
    AttemptStep(codec, earlier, raw, payload, cut);
    OnFileHolds(codec, after, Later(codec, earlier, payload, cut));
  }

  lemma AppendOutcome(codec: Codec, raw: seq<byte>, earlier: seq<Payload>, payload: Payload, counts: seq<nat>,
                      after: seq<byte>, outcome: Appended, cut: nat)
    requires Tracks(codec, raw, earlier) && AppendResult(codec, raw, payload, counts, after, outcome, cut)
    ensures after == AfterAppend(codec, raw, payload, cut)
    ensures Later(codec, earlier, payload, cut) == if outcome.Appended? then earlier + [payload] else earlier
    ensures !Room(codec, earlier, payload) <==> outcome.Refused? && !outcome.error.ZeroWrite?
    ensures Finishes(counts) && Room(codec, earlier, payload) ==> outcome == Appended
  {
    TracksPlans(codec, raw, earlier, payload);
    if Room(codec, earlier, payload) && Finishes(counts) {
      Device.ShorterFinishes(counts, 4 + MAX_RECORD, 4 + |NextBody(codec, Journal(codec, earlier), payload)|);
    }
  }

  /** Without its torn tail the file holds the same journal, which is what a successful reading returns. */
  lemma ReadingOnFile(codec: Codec, raw: seq<byte>, payloads: seq<Payload>, bodies: seq<seq<byte>>)
    requires OnFile(codec, raw, payloads) && ReadsAs(JournalFormat(codec), raw, bodies)
    ensures bodies == Journal(codec, payloads) && OnFile(codec, Image(bodies), payloads)
  {
    OnFileHolds(codec, raw, payloads);
    TracksReads(codec, raw, payloads);
    ImageTracks(codec, raw, payloads);
    OnFileHolds(codec, Image(bodies), payloads);
  }

  lemma EmptyOnFile(codec: Codec)
    ensures OnFile(codec, [], []) <==> Canonical(codec)
  {
    EmptyTracks(codec);
    OnFileHolds(codec, [], []);
  }

  lemma StoredLater(config: Config, d: Durable, codec: Codec, raw: seq<byte>, payload: Payload, bytes: nat)
    requires Stored(config, d, codec, raw) && Inv(config, d.(journal := d.journal + [payload]))
    ensures Stored(config, d.(journal := Later(codec, d.journal, payload, bytes)), codec,
                   AfterAppend(codec, raw, payload, bytes))
  {
    OnFileHolds(codec, raw, d.journal);
    AttemptStep(codec, d.journal, raw, payload, bytes);
    OnFileHolds(codec, AfterAppend(codec, raw, payload, bytes), Later(codec, d.journal, payload, bytes));
  }

  /** Stopping the append of an event that keeps the open transaction sound, after any number of bytes,
      or having it refused, leaves the old journal or the extended one, and the invariant holds of
      whichever it is. */
  lemma StoppedAppendIsSound(config: Config, d: Durable, transaction: nat, segment: Segment, event: Event,
                             codec: Codec, raw: seq<byte>, bytes: nat)
    requires Stored(config, d, codec, raw)
    requires Open(config, d, transaction, segment) && !event.TransactionStart?
    requires Extendable(config, d, transaction, segment, event)
    ensures var payload := Payload(transaction, segment.binding, event);
            Stored(config, d.(journal := Later(codec, d.journal, payload, bytes)), codec,
                   AfterAppend(codec, raw, payload, bytes))
  {
    ExtendOpen(config, d, transaction, segment, event);
    StoredLater(config, d, codec, raw, Payload(transaction, segment.binding, event), bytes);
  }

  /** The same of the record that opens a transaction. */
  lemma StoppedStartIsSound(config: Config, d: Durable, binding: Binding, codec: Codec, raw: seq<byte>, bytes: nat)
    requires Stored(config, d, codec, raw)
    requires var segments := SegmentsOf(config, d);
             segments != [] ==> LastEvent(segments[|segments| - 1]).RecoveryComplete?
    ensures var payload := Payload(|SegmentsOf(config, d)| + 1, binding, TransactionStart);
            Stored(config, d.(journal := Later(codec, d.journal, payload, bytes)), codec,
                   AfterAppend(codec, raw, payload, bytes))
  {
    StartTransaction(config, d, binding);
    StoredLater(config, d, codec, raw, Payload(|SegmentsOf(config, d)| + 1, binding, TransactionStart), bytes);
  }
}
