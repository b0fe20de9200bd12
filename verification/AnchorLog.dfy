/** The protected anchor: a compare-and-swap register replayed from a hash-chained log. */
module AnchorLog {
  import opened Wrappers
  import opened Bytes
  import Device
  import opened FramedLog
  import opened Runs

  const MAX_RECORD: nat := 4_194_304

  type Digest = string

  datatype Receipt = Receipt(sequence: nat, previous: Digest, content: seq<byte>)

  datatype Head = Head(sequence: nat, receipt: Digest)

  datatype Anchor = Anchor(instance: string, revision: nat, heads: map<string, Head>)

  /** `Malformed` is a payload of an admitted kind whose fields are not those of that kind. */
  datatype Payload =
    | Genesis(anchor: Anchor)
    | Advance(expected: Digest, receiptHash: Digest, receipt: Receipt, anchor: Anchor)
    | Malformed(content: seq<byte>)

  datatype Record = Record(sequence: nat, previous: Digest, payload: Payload, digest: Digest)

  /** Digests, canonical JSON and receipt verification, taken as parameters. */
  datatype Rules = Rules(
    authority: string,
    genesisLink: Digest,
    genesisReceipt: Digest,
    pinnedGenesis: Digest,
    digest: Anchor -> Digest,
    receiptHash: Receipt -> Digest,
    recordDigest: (nat, Digest, Payload) -> Digest,
    verify: Receipt -> bool,
    encode: Record -> seq<byte>,
    parse: seq<byte> -> Option<Record>)

  ghost predicate Canonical(rules: Rules) {
    && (forall r :: rules.parse(rules.encode(r)) == Some(r))
    && (forall b, r :: rules.parse(b) == Some(r) ==> rules.encode(r) == b)
    && (forall r :: rules.encode(r) != [])
  }

  ghost predicate DistinctAnchors(rules: Rules) {
    forall a, b :: rules.digest(a) == rules.digest(b) ==> a == b
  }

  // ---------------------------------------------------------------- the register

  datatype ChainError = Regression | Gap | Fork

  /** Where the next receipt of an authority must stand: behind its head, or at the beginning. */
  function Expected(anchor: Anchor, authority: string, genesis: Digest): Head {
    if authority in anchor.heads
    then Head(anchor.heads[authority].sequence + 1, anchor.heads[authority].receipt)
    else Head(1, genesis)
  }

  /** One receipt moves the head of one authority by one, and the revision with it; the other heads stay.
      What is refused names the first thing that is wrong, sequence before link. */
  function Advanced(anchor: Anchor, authority: string, receipt: Receipt, hash: Digest, genesis: Digest)
    : (result: Result<Anchor, ChainError>)
    ensures result.Ok? <==> Head(receipt.sequence, receipt.previous) == Expected(anchor, authority, genesis)
    ensures result.Ok? ==>
              && result.value.instance == anchor.instance && result.value.revision == anchor.revision + 1
              && result.value.heads.Keys == anchor.heads.Keys + {authority}
              && result.value.heads[authority] == Head(receipt.sequence, hash)
              && (forall other :: other in anchor.heads && other != authority ==>
                    result.value.heads[other] == anchor.heads[other])
              && Expected(result.value, authority, genesis) == Head(receipt.sequence + 1, hash)
    ensures result == Err(Regression) <==> receipt.sequence < Expected(anchor, authority, genesis).sequence
    ensures result == Err(Gap) <==> receipt.sequence > Expected(anchor, authority, genesis).sequence
  {
    var known := authority in anchor.heads;
    var sequence := if known then anchor.heads[authority].sequence + 1 else 1;
    var previous := if known then anchor.heads[authority].receipt else genesis;
    if receipt.sequence < sequence then Err(Regression)
    else if receipt.sequence > sequence then Err(Gap)
    else if receipt.previous != previous then Err(Fork)
    else Ok(Anchor(anchor.instance, anchor.revision + 1, anchor.heads[authority := Head(receipt.sequence, hash)]))
  }

  function Derive(rules: Rules, anchor: Anchor, receipt: Receipt): Result<Anchor, ChainError> {
    Advanced(anchor, rules.authority, receipt, rules.receiptHash(receipt), rules.genesisReceipt)
  }

  // ---------------------------------------------------------------- reading the log

  datatype AnchorError =
    | GenesisMissing | GenesisMismatch | LogTorn | LogCorrupt
    | ReceiptRejected | CasMismatch | Chain(error: ChainError) | RecordTooLarge | WriteFailed

  function Link(rules: Rules, bodies: seq<seq<byte>>): Digest {
    if bodies == [] then rules.genesisLink
    else
      match rules.parse(bodies[|bodies| - 1])
      case Some(record) => record.digest
      case None => rules.genesisLink
  }

  predicate Admits(rules: Rules, earlier: seq<seq<byte>>, body: seq<byte>) {
    match rules.parse(body)
    case Some(record) =>
      && record.sequence == |earlier| + 1
      && record.previous == Link(rules, earlier)
      && record.digest == rules.recordDigest(record.sequence, record.previous, record.payload)
    case None => false
  }

  function LogFormat(rules: Rules): Format {
    Format(MAX_RECORD, Unlimited, (earlier, body) => Admits(rules, earlier, body))
  }

  function NextBody(rules: Rules, bodies: seq<seq<byte>>, payload: Payload): seq<byte> {
    var sequence, previous := |bodies| + 1, Link(rules, bodies);
    rules.encode(Record(sequence, previous, payload, rules.recordDigest(sequence, previous, payload)))
  }

  function PayloadOf(rules: Rules, body: seq<byte>): Payload {
    match rules.parse(body)
    case Some(record) => record.payload
    case None => Malformed([])
  }

  /** The replayed register: its anchor, and the digest the last advance was requested against. */
  datatype State = State(anchor: Anchor, last: Option<Digest>)

  function Begin(rules: Rules, payload: Payload): Result<State, AnchorError> {
    if !payload.Genesis? then Err(GenesisMissing)
    else if payload.anchor.revision != 0 || payload.anchor.heads != map[]
            || rules.digest(payload.anchor) != rules.pinnedGenesis then Err(GenesisMismatch)
    else Ok(State(payload.anchor, None))
  }

  function Replay(rules: Rules, state: State, payload: Payload): Result<State, AnchorError> {
    if !payload.Advance? then Err(LogCorrupt)
    else if payload.expected != rules.digest(state.anchor) then Err(LogCorrupt)
    else if !rules.verify(payload.receipt) then Err(LogCorrupt)
    else if payload.receiptHash != rules.receiptHash(payload.receipt) then Err(LogCorrupt)
    else
      match Derive(rules, state.anchor, payload.receipt)
      case Err(error) => Err(Chain(error))
      case Ok(derived) =>
        if rules.digest(payload.anchor) != rules.digest(derived) then Err(LogCorrupt)
        else Ok(State(payload.anchor, Some(payload.expected)))
  }

  ghost function RecoverTo(rules: Rules, bodies: seq<seq<byte>>, n: nat): Result<State, AnchorError>
    requires 0 < n <= |bodies|
  {
    if n == 1 then Begin(rules, PayloadOf(rules, bodies[0]))
    else
      match RecoverTo(rules, bodies, n - 1)
      case Err(error) => Err(error)
      case Ok(state) => Replay(rules, state, PayloadOf(rules, bodies[n - 1]))
  }

  /** What the service knows after reading the file: the record bodies and the register. */
  datatype Loaded = Loaded(bodies: seq<seq<byte>>, state: State)

  ghost function LoadOf(rules: Rules, raw: seq<byte>): (loaded: Result<Loaded, AnchorError>)
    ensures loaded.Ok? ==> loaded.value.bodies != []
  {
    if raw == [] then Err(GenesisMissing)
    else
      match ScanLog(LogFormat(rules), raw)
      case Torn(_, _) => Err(LogTorn)
      case Whole(bodies) =>
        if bodies == [] then Err(GenesisMissing)
        else
          (match RecoverTo(rules, bodies, |bodies|)
           case Err(error) => Err(error)
           case Ok(state) => Ok(Loaded(bodies, state)))
      case _ => Err(LogCorrupt)
  }

  datatype Status = AdvancedNow | Idempotent

  datatype Plan = Stop(answer: Result<(Status, Anchor), AnchorError>) | Write(body: seq<byte>, derived: Anchor)

  /** The decision of one request, before anything is written. */
  ghost function Decide(rules: Rules, loaded: Loaded, expected: Digest, receipt: Receipt): Plan {
    var State(current, last) := loaded.state;
    if !rules.verify(receipt) then Stop(Err(ReceiptRejected))
    else if rules.authority in current.heads
            && current.heads[rules.authority] == Head(receipt.sequence, rules.receiptHash(receipt)) then
      var original := if last.Some? then last.value else rules.digest(current);
      if expected != rules.digest(current) && expected != original then Stop(Err(CasMismatch))
      else Stop(Ok((Idempotent, current)))
    else if expected != rules.digest(current) then Stop(Err(CasMismatch))
    else
      match Derive(rules, current, receipt)
      case Err(error) => Stop(Err(Chain(error)))
      case Ok(derived) =>
        var body := NextBody(rules, loaded.bodies, Advance(expected, rules.receiptHash(receipt), receipt, derived));
        if |body| > MAX_RECORD then Stop(Err(RecordTooLarge)) else Write(body, derived)
  }

  ghost function PlanOf(rules: Rules, raw: seq<byte>, expected: Digest, receipt: Receipt): Plan {
    match LoadOf(rules, raw)
    case Err(error) => Stop(Err(error))
    case Ok(loaded) => Decide(rules, loaded, expected, receipt)
  }

  /** `Answered` reached its caller; `Interrupted` is a process that stopped before it could. */
  datatype Outcome = Answered(result: Result<(Status, Anchor), AnchorError>) | Interrupted

  function OutcomeOf(ended: Device.Ended, derived: Anchor): Outcome {
    match ended
    case Finished => Answered(Ok((AdvancedNow, derived)))
    case ZeroWrite => Answered(Err(WriteFailed))
    case Halted => Interrupted
  }

  class ProtectedAnchorService {
    const rules: Rules
    var raw: seq<byte>

    /** The installer's first bytes: a log of one genesis record. */
    constructor (rules: Rules, genesis: Anchor)
      ensures this.rules == rules
      ensures raw == Image([NextBody(rules, [], Genesis(genesis))])
    {
      this.rules := rules;
      var body := NextBody(rules, [], Genesis(genesis));
      raw := BigEndian(|body|, 4) + body;
      new;
      assert Image([body]) == ImageTo([body], 0) + Frame(body);
    }

    method Load() returns (loaded: Result<Loaded, AnchorError>)
      ensures loaded == LoadOf(rules, raw)
    {
      if raw == [] {
        return Err(GenesisMissing);
      }
      var scan := Decode(LogFormat(rules), raw);
      match scan {
        case Torn(_, _) =>
          return Err(LogTorn);
        case Corrupt =>
          return Err(LogCorrupt);
        case Oversize =>
          return Err(LogCorrupt);
        case Whole(bodies) =>
          if bodies == [] {
            return Err(GenesisMissing);
          }
          var state := Recover(bodies);
          return match state case Ok(found) => Ok(Loaded(bodies, found)) case Err(error) => Err(error);
      }
    }

    method Recover(bodies: seq<seq<byte>>) returns (result: Result<State, AnchorError>)
      requires bodies != []
      ensures result == RecoverTo(rules, bodies, |bodies|)
    {
      result := Begin(rules, PayloadOf(rules, bodies[0]));
      var n := 1;
      while n < |bodies| && result.Ok?
        invariant 1 <= n <= |bodies|
        invariant result == RecoverTo(rules, bodies, n)
      {
        result := Replay(rules, result.value, PayloadOf(rules, bodies[n]));
        n := n + 1;
      }
      if result.Err? {
        FailureStays(rules, bodies, n, |bodies|);
      }
    }

    /** One request.  `counts` are the byte counts of the successive writes. */
    method Advance(expected: Digest, receipt: Receipt, counts: seq<nat>) returns (outcome: Outcome, cut: nat)
      modifies this
      ensures match PlanOf(rules, old(raw), expected, receipt)
              case Stop(answer) => outcome == Answered(answer) && raw == old(raw)
              case Write(body, derived) =>
                && cut == Device.Delivered(counts, 4 + |body|).0
                && outcome == OutcomeOf(Device.Delivered(counts, 4 + |body|).1, derived)
                && raw == old(raw) + Frame(body)[..cut]
    {
      cut := 0;
      var load := Load();
      if load.Err? {
        return Answered(Err(load.error)), cut;
      }
      var Loaded(bodies, State(current, last)) := load.value;
      if !rules.verify(receipt) {
        return Answered(Err(ReceiptRejected)), cut;
      }
      var hash := rules.receiptHash(receipt);
      if rules.authority in current.heads && current.heads[rules.authority] == Head(receipt.sequence, hash) {
        var original := if last.Some? then last.value else rules.digest(current);
        if expected != rules.digest(current) && expected != original {
          return Answered(Err(CasMismatch)), cut;
        }
        return Answered(Ok((Idempotent, current))), cut;
      }
      if expected != rules.digest(current) {
        return Answered(Err(CasMismatch)), cut;
      }
      var derived := Derive(rules, current, receipt);
      if derived.Err? {
        return Answered(Err(Chain(derived.error))), cut;
      }
      var body := NextBody(rules, bodies, Payload.Advance(expected, hash, receipt, derived.value));
      if |body| > MAX_RECORD {
        return Answered(Err(RecordTooLarge)), cut;
      }
      var after, written, ended := Device.WriteAll(raw, BigEndian(|body|, 4) + body, counts);
      raw := after;
      return OutcomeOf(ended, derived.value), written;
    }
  }

  lemma {:induction false} FailureStays(rules: Rules, bodies: seq<seq<byte>>, n: nat, m: nat)
    requires 0 < n <= m <= |bodies| && RecoverTo(rules, bodies, n).Err?
    ensures RecoverTo(rules, bodies, m) == RecoverTo(rules, bodies, n)
  {
    if n < m {
      FailureStays(rules, bodies, n, m - 1);
    }
  }

  // ---------------------------------------------------------------- histories of the register

  /** The register after `n` receipts, in closed form. */
  ghost function AnchorAt(rules: Rules, genesis: Anchor, receipts: seq<Receipt>, n: nat): Anchor
    requires n <= |receipts|
  {
    Anchor(genesis.instance, n,
           if n == 0 then map[] else map[rules.authority := Head(n, rules.receiptHash(receipts[n - 1]))])
  }

  ghost predicate InOrder(rules: Rules, receipts: seq<Receipt>, i: nat)
    requires i < |receipts|
  {
    && rules.verify(receipts[i])
    && receipts[i].sequence == i + 1
    && receipts[i].previous == (if i == 0 then rules.genesisReceipt else rules.receiptHash(receipts[i - 1]))
  }

  ghost predicate InOrderTo(rules: Rules, receipts: seq<Receipt>, n: nat)
    requires n <= |receipts|
  {
    forall i :: 0 <= i < n ==> InOrder(rules, receipts, i)
  }

  /** Verified receipts numbered 1, 2, ... each naming the hash of the one before it. */
  ghost predicate History(rules: Rules, receipts: seq<Receipt>) {
    InOrderTo(rules, receipts, |receipts|)
  }

  ghost predicate Pinned(rules: Rules, genesis: Anchor) {
    genesis.revision == 0 && genesis.heads == map[] && rules.digest(genesis) == rules.pinnedGenesis
  }

  ghost function AdvancePayload(rules: Rules, genesis: Anchor, receipts: seq<Receipt>, i: nat): Payload
    requires i < |receipts|
  {
    Advance(rules.digest(AnchorAt(rules, genesis, receipts, i)), rules.receiptHash(receipts[i]), receipts[i],
            AnchorAt(rules, genesis, receipts, i + 1))
  }

  /** The log a service that never fails writes for a history. */
  ghost function LogTo(rules: Rules, genesis: Anchor, receipts: seq<Receipt>, n: nat): (bodies: seq<seq<byte>>)
    requires n <= |receipts|
    ensures |bodies| == n + 1
  {
    if n == 0 then [NextBody(rules, [], Genesis(genesis))]
    else
      var earlier := LogTo(rules, genesis, receipts, n - 1);
      earlier + [NextBody(rules, earlier, AdvancePayload(rules, genesis, receipts, n - 1))]
  }

  ghost function Log(rules: Rules, genesis: Anchor, receipts: seq<Receipt>): seq<seq<byte>> {
    LogTo(rules, genesis, receipts, |receipts|)
  }

  ghost function StateAt(rules: Rules, genesis: Anchor, receipts: seq<Receipt>, n: nat): State
    requires n <= |receipts|
  {
    State(AnchorAt(rules, genesis, receipts, n),
          if n == 0 then None else Some(rules.digest(AnchorAt(rules, genesis, receipts, n - 1))))
  }

  /** From the register after `n` receipts, a verified receipt is accepted exactly as the next of its history. */
  lemma DeriveIff(rules: Rules, genesis: Anchor, receipts: seq<Receipt>, n: nat)
    requires n < |receipts|
    ensures rules.verify(receipts[n]) && Derive(rules, AnchorAt(rules, genesis, receipts, n), receipts[n]).Ok?
       <==> InOrder(rules, receipts, n)
    ensures InOrder(rules, receipts, n) ==>
              Derive(rules, AnchorAt(rules, genesis, receipts, n), receipts[n])
              == Ok(AnchorAt(rules, genesis, receipts, n + 1))
  {
    var before := AnchorAt(rules, genesis, receipts, n);
    if InOrder(rules, receipts, n) {
      assert before.heads[rules.authority := Head(n + 1, rules.receiptHash(receipts[n]))]
          == map[rules.authority := Head(n + 1, rules.receiptHash(receipts[n]))];
    }
  }

  lemma NextBodyReads(rules: Rules, bodies: seq<seq<byte>>, payload: Payload)
    requires Canonical(rules)
    ensures Admits(rules, bodies, NextBody(rules, bodies, payload))
    ensures PayloadOf(rules, NextBody(rules, bodies, payload)) == payload
    ensures NextBody(rules, bodies, payload) != []
  {
  }

  lemma AdmittedIsNextBody(rules: Rules, bodies: seq<seq<byte>>, body: seq<byte>)
    requires Canonical(rules) && Admits(rules, bodies, body)
    ensures body == NextBody(rules, bodies, PayloadOf(rules, body))
  {
  }

  lemma {:induction false} RecoverLocal(rules: Rules, bodies: seq<seq<byte>>, more: seq<seq<byte>>, n: nat)
    requires 0 < n <= |bodies| && bodies <= more
    ensures RecoverTo(rules, more, n) == RecoverTo(rules, bodies, n)
  {
    if n > 1 {
      RecoverLocal(rules, bodies, more, n - 1);
    }
  }

  lemma {:induction false} LogPrefix(rules: Rules, genesis: Anchor, receipts: seq<Receipt>, n: nat, m: nat)
    requires n <= m <= |receipts|
    ensures LogTo(rules, genesis, receipts, m)[..n + 1] == LogTo(rules, genesis, receipts, n)
  {
    if n < m {
      LogPrefix(rules, genesis, receipts, n, m - 1);
      assert LogTo(rules, genesis, receipts, m)[..n + 1] == LogTo(rules, genesis, receipts, m - 1)[..n + 1];
    }
  }

  lemma {:induction false} LogLocal(rules: Rules, genesis: Anchor, receipts: seq<Receipt>, more: seq<Receipt>, n: nat)
    requires n <= |receipts| && receipts <= more
    ensures LogTo(rules, genesis, more, n) == LogTo(rules, genesis, receipts, n)
  {
    if n > 0 {
      LogLocal(rules, genesis, receipts, more, n - 1);
    }
  }

  lemma ReplayNext(rules: Rules, genesis: Anchor, receipts: seq<Receipt>, n: nat)
    requires n < |receipts| && InOrder(rules, receipts, n)
    ensures Replay(rules, StateAt(rules, genesis, receipts, n), AdvancePayload(rules, genesis, receipts, n))
         == Ok(StateAt(rules, genesis, receipts, n + 1))
  {
    DeriveIff(rules, genesis, receipts, n);
  }

  lemma RecoverOneMore(rules: Rules, bodies: seq<seq<byte>>, body: seq<byte>, state: State)
    requires bodies != [] && RecoverTo(rules, bodies, |bodies|) == Ok(state)
    ensures RecoverTo(rules, bodies + [body], |bodies| + 1) == Replay(rules, state, PayloadOf(rules, body))
  {
    RecoverLocal(rules, bodies, bodies + [body], |bodies|);
  }

  ghost predicate Recovers(rules: Rules, genesis: Anchor, receipts: seq<Receipt>, n: nat)
    requires n <= |receipts|
  {
    RecoverTo(rules, LogTo(rules, genesis, receipts, n), n + 1) == Ok(StateAt(rules, genesis, receipts, n))
  }

  lemma RecoverNextRecord(rules: Rules, genesis: Anchor, receipts: seq<Receipt>, n: nat)
    requires Canonical(rules) && n < |receipts| && InOrder(rules, receipts, n)
    requires Recovers(rules, genesis, receipts, n)
    ensures Recovers(rules, genesis, receipts, n + 1)
  {
    var earlier, payload := LogTo(rules, genesis, receipts, n), AdvancePayload(rules, genesis, receipts, n);
    RecoverOneMore(rules, earlier, NextBody(rules, earlier, payload), StateAt(rules, genesis, receipts, n));
    NextBodyReads(rules, earlier, payload);
    ReplayNext(rules, genesis, receipts, n);
  }

  lemma GenesisRecovers(rules: Rules, genesis: Anchor, receipts: seq<Receipt>)
    requires Canonical(rules) && Pinned(rules, genesis)
    ensures Recovers(rules, genesis, receipts, 0)
  {
    NextBodyReads(rules, [], Genesis(genesis));
  }

  /** Replaying the log of a history gives the register of that history. */
  lemma LogRecovers(rules: Rules, genesis: Anchor, receipts: seq<Receipt>, n: nat)
    requires Canonical(rules) && Pinned(rules, genesis) && History(rules, receipts) && n <= |receipts|
    ensures Recovers(rules, genesis, receipts, n)
  {
    GenesisRecovers(rules, genesis, receipts);
    forall k: nat | k < n && Recovers(rules, genesis, receipts, k)
      ensures Recovers(rules, genesis, receipts, k + 1)
    {
      assert InOrder(rules, receipts, k);
      RecoverNextRecord(rules, genesis, receipts, k);
    }
    Induction((k: nat) => k <= |receipts| && Recovers(rules, genesis, receipts, k), n);
  }

  ghost function GenesisOf(rules: Rules, bodies: seq<seq<byte>>): Anchor
    requires bodies != []
  {
    match PayloadOf(rules, bodies[0])
    case Genesis(anchor) => anchor
    case _ => Anchor("", 0, map[])
  }

  ghost function ReceiptAt(rules: Rules, body: seq<byte>): Receipt {
    match PayloadOf(rules, body)
    case Advance(_, _, receipt, _) => receipt
    case _ => Receipt(0, "", [])
  }

  ghost function ReceiptsOf(rules: Rules, bodies: seq<seq<byte>>): (receipts: seq<Receipt>)
    requires bodies != []
    ensures |receipts| == |bodies| - 1
  {
    seq(|bodies| - 1, i requires 0 <= i < |bodies| - 1 => ReceiptAt(rules, bodies[i + 1]))
  }

  /** The first `n` receipts form a history, the log recovers to its register, and is its log. */
  ghost predicate RecoveredAs(rules: Rules, bodies: seq<seq<byte>>, genesis: Anchor, receipts: seq<Receipt>, n: nat)
    requires n < |bodies| && n <= |receipts|
  {
    && Pinned(rules, genesis) && InOrderTo(rules, receipts, n)
    && RecoverTo(rules, bodies, n + 1) == Ok(StateAt(rules, genesis, receipts, n))
    && LogTo(rules, genesis, receipts, n) == bodies[..n + 1]
  }

  /** A log that recovers so far is the log of the history it contains.  The quantifier keeps the parts out
      of the induction. */
  ghost predicate Recovered(rules: Rules, bodies: seq<seq<byte>>, n: nat)
    requires n < |bodies|
  {
    forall m: nat :: m == n ==> RecoveredAs(rules, bodies, GenesisOf(rules, bodies), ReceiptsOf(rules, bodies), m)
  }

  lemma AcceptedBody(rules: Rules, bodies: seq<seq<byte>>, n: nat)
    requires Canonical(rules) && Accepted(LogFormat(rules), bodies) && n < |bodies|
    ensures bodies[n] == NextBody(rules, bodies[..n], PayloadOf(rules, bodies[n]))
    ensures bodies[..n + 1] == bodies[..n] + [bodies[n]]
  {
    assert LogFormat(rules).admits(bodies[..n], bodies[n]);
    AdmittedIsNextBody(rules, bodies[..n], bodies[n]);
  }

  lemma RecoveredFirst(rules: Rules, bodies: seq<seq<byte>>)
    requires bodies != [] && RecoverTo(rules, bodies, 1).Ok?
    requires bodies[0] == NextBody(rules, [], PayloadOf(rules, bodies[0]))
    ensures Recovered(rules, bodies, 0)
  {
    assert bodies[..1] == [bodies[0]];
  }

  lemma RecoverEarlier(rules: Rules, bodies: seq<seq<byte>>, n: nat, m: nat)
    requires 0 < n <= m <= |bodies| && RecoverTo(rules, bodies, m).Ok?
    ensures RecoverTo(rules, bodies, n).Ok?
  {
    if RecoverTo(rules, bodies, n).Err? {
      FailureStays(rules, bodies, n, m);
    }
  }

  /** The records of an accepted log, the first `n` + 1 of which recover. */
  ghost predicate Recoverable(rules: Rules, bodies: seq<seq<byte>>, n: nat) {
    && Canonical(rules) && DistinctAnchors(rules) && Accepted(LogFormat(rules), bodies)
    && n < |bodies| && RecoverTo(rules, bodies, n + 1).Ok?
  }

  lemma RecoveredStart(rules: Rules, bodies: seq<seq<byte>>, n: nat)
    requires Recoverable(rules, bodies, n)
    ensures Recovered(rules, bodies, 0)
  {
    AcceptedBody(rules, bodies, 0);
    assert bodies[..0] == [];
    RecoverEarlier(rules, bodies, 1, n + 1);
    RecoveredFirst(rules, bodies);
  }

  lemma RecoverableEarlier(rules: Rules, bodies: seq<seq<byte>>, n: nat, m: nat)
    requires Recoverable(rules, bodies, n) && m <= n
    ensures Recoverable(rules, bodies, m)
  {
    RecoverEarlier(rules, bodies, m + 1, n + 1);
  }

  lemma RecoveredIsHistory(rules: Rules, bodies: seq<seq<byte>>, n: nat)
    requires Recoverable(rules, bodies, n)
    ensures Recovered(rules, bodies, n)
  {
    RecoveredStart(rules, bodies, n);
    forall k: nat | k < n && Recovered(rules, bodies, k)
      ensures Recovered(rules, bodies, k + 1)
    {
      RecoverableEarlier(rules, bodies, n, k + 1);
      RecoveredStep(rules, bodies, k);
    }
    Induction((k: nat) => k < |bodies| && Recovered(rules, bodies, k), n);
  }

  lemma RecoveredStep(rules: Rules, bodies: seq<seq<byte>>, n: nat)
    requires Recoverable(rules, bodies, n + 1) && Recovered(rules, bodies, n)
    ensures Recovered(rules, bodies, n + 1)
  {
    AcceptedBody(rules, bodies, n + 1);
    RecoveredReplay(rules, bodies, n);
    RecoveredNext(rules, bodies, GenesisOf(rules, bodies), ReceiptsOf(rules, bodies), n);
  }

  lemma RecoveredReplay(rules: Rules, bodies: seq<seq<byte>>, n: nat)
    requires n + 1 < |bodies| && RecoverTo(rules, bodies, n + 2).Ok?
    ensures PayloadOf(rules, bodies[n + 1]).Advance?
    ensures ReceiptsOf(rules, bodies)[n] == PayloadOf(rules, bodies[n + 1]).receipt
  {
    assert RecoverTo(rules, bodies, n + 2)
        == Replay(rules, RecoverTo(rules, bodies, n + 1).value, PayloadOf(rules, bodies[n + 1]));
  }

  /** A payload that replays behind a history is the advance of the next receipt of that history. */
  lemma ReplayedPayload(rules: Rules, genesis: Anchor, receipts: seq<Receipt>, k: nat, payload: Payload)
    requires DistinctAnchors(rules) && k < |receipts|
    requires Replay(rules, StateAt(rules, genesis, receipts, k), payload).Ok? && receipts[k] == payload.receipt
    ensures InOrder(rules, receipts, k) && payload == AdvancePayload(rules, genesis, receipts, k)
  {
    DeriveIff(rules, genesis, receipts, k);
  }

  /** The register behind one more record. */
  lemma ReplayedRegister(rules: Rules, bodies: seq<seq<byte>>, genesis: Anchor, receipts: seq<Receipt>, n: nat)
    requires DistinctAnchors(rules) && n + 1 < |bodies| && n < |receipts| && RecoverTo(rules, bodies, n + 2).Ok?
    requires PayloadOf(rules, bodies[n + 1]).Advance? && receipts[n] == PayloadOf(rules, bodies[n + 1]).receipt
    requires RecoverTo(rules, bodies, n + 1) == Ok(StateAt(rules, genesis, receipts, n))
    ensures InOrder(rules, receipts, n)
    ensures PayloadOf(rules, bodies[n + 1]) == AdvancePayload(rules, genesis, receipts, n)
    ensures RecoverTo(rules, bodies, n + 2) == Ok(StateAt(rules, genesis, receipts, n + 1))
  {
    ReplayedPayload(rules, genesis, receipts, n, PayloadOf(rules, bodies[n + 1]));
    ReplayNext(rules, genesis, receipts, n);
  }

  /** The log of one more receipt. */
  lemma LogNext(rules: Rules, bodies: seq<seq<byte>>, genesis: Anchor, receipts: seq<Receipt>, n: nat)
    requires n + 1 < |bodies| && n < |receipts| && LogTo(rules, genesis, receipts, n) == bodies[..n + 1]
    requires bodies[n + 1] == NextBody(rules, bodies[..n + 1], AdvancePayload(rules, genesis, receipts, n))
    ensures LogTo(rules, genesis, receipts, n + 1) == bodies[..n + 2]
  {
    assert bodies[..n + 2] == bodies[..n + 1] + [bodies[n + 1]];
  }

  lemma RecoveredNext(rules: Rules, bodies: seq<seq<byte>>, genesis: Anchor, receipts: seq<Receipt>, n: nat)
    requires DistinctAnchors(rules) && n + 1 < |bodies| && n < |receipts| && RecoverTo(rules, bodies, n + 2).Ok?
    requires PayloadOf(rules, bodies[n + 1]).Advance? && receipts[n] == PayloadOf(rules, bodies[n + 1]).receipt
    requires bodies[n + 1] == NextBody(rules, bodies[..n + 1], PayloadOf(rules, bodies[n + 1]))
    requires RecoveredAs(rules, bodies, genesis, receipts, n)
    ensures RecoveredAs(rules, bodies, genesis, receipts, n + 1)
  {
    ReplayedRegister(rules, bodies, genesis, receipts, n);
    LogNext(rules, bodies, genesis, receipts, n);
    InOrderNext(rules, receipts, n);
  }

  lemma InOrderNext(rules: Rules, receipts: seq<Receipt>, n: nat)
    requires n < |receipts| && InOrderTo(rules, receipts, n) && InOrder(rules, receipts, n)
    ensures InOrderTo(rules, receipts, n + 1)
  {
  }

  // ---------------------------------------------------------------- the hash chain

  /** The payloads a history leaves in its log. */
  ghost function Payloads(rules: Rules, genesis: Anchor, receipts: seq<Receipt>): (payloads: seq<Payload>)
    ensures |payloads| == |receipts| + 1
  {
    seq(|receipts| + 1, i requires 0 <= i <= |receipts| =>
      if i == 0 then Genesis(genesis) else AdvancePayload(rules, genesis, receipts, i - 1))
  }

  /** The digest chain over payloads, from the genesis link on. */
  ghost function DigestChain(rules: Rules, payloads: seq<Payload>, n: nat): Digest
    requires n <= |payloads|
  {
    if n == 0 then rules.genesisLink
    else rules.recordDigest(n, DigestChain(rules, payloads, n - 1), payloads[n - 1])
  }

  lemma {:induction false} LinkIsChain(rules: Rules, genesis: Anchor, receipts: seq<Receipt>, n: nat)
    requires Canonical(rules) && n <= |receipts|
    ensures Link(rules, LogTo(rules, genesis, receipts, n)) == DigestChain(rules, Payloads(rules, genesis, receipts), n + 1)
  {
    var payloads := Payloads(rules, genesis, receipts);
    assert DigestChain(rules, payloads, 0) == rules.genesisLink;
    if n > 0 {
      LinkIsChain(rules, genesis, receipts, n - 1);
    }
  }

  /** The records before record `i` of a log. */
  ghost function Earlier(rules: Rules, genesis: Anchor, receipts: seq<Receipt>, i: nat): (bodies: seq<seq<byte>>)
    requires i <= |receipts|
    ensures |bodies| == i
  {
    if i == 0 then [] else LogTo(rules, genesis, receipts, i - 1)
  }

  lemma LogBody(rules: Rules, genesis: Anchor, receipts: seq<Receipt>, i: nat)
    requires i <= |receipts|
    ensures Log(rules, genesis, receipts)[i]
         == NextBody(rules, Earlier(rules, genesis, receipts, i), Payloads(rules, genesis, receipts)[i])
  {
    LogPrefix(rules, genesis, receipts, i, |receipts|);
    assert Log(rules, genesis, receipts)[i] == Log(rules, genesis, receipts)[..i + 1][i];
  }

  lemma EarlierIsChain(rules: Rules, genesis: Anchor, receipts: seq<Receipt>, i: nat)
    requires Canonical(rules) && i <= |receipts|
    ensures Link(rules, Earlier(rules, genesis, receipts, i)) == DigestChain(rules, Payloads(rules, genesis, receipts), i)
  {
    if i > 0 {
      LinkIsChain(rules, genesis, receipts, i - 1);
    }
  }

  lemma NextBodyParses(rules: Rules, bodies: seq<seq<byte>>, payload: Payload)
    requires Canonical(rules)
    ensures rules.parse(NextBody(rules, bodies, payload))
         == Some(Record(|bodies| + 1, Link(rules, bodies), payload,
                        rules.recordDigest(|bodies| + 1, Link(rules, bodies), payload)))
  {
  }

  /** What the records of a log carry: their number, the digest of the record before them (or the genesis
      link), their payload, and a digest over these three. */
  lemma RecordIsLinked(rules: Rules, genesis: Anchor, receipts: seq<Receipt>, i: nat)
    requires Canonical(rules) && i <= |receipts|
    ensures var payloads := Payloads(rules, genesis, receipts);
      rules.parse(Log(rules, genesis, receipts)[i])
      == Some(Record(i + 1, DigestChain(rules, payloads, i), payloads[i], DigestChain(rules, payloads, i + 1)))
  {
    LogBody(rules, genesis, receipts, i);
    EarlierIsChain(rules, genesis, receipts, i);
    NextBodyParses(rules, Earlier(rules, genesis, receipts, i), Payloads(rules, genesis, receipts)[i]);
  }

  /** The reader demands just this: behind a log, a record is accepted exactly when it is linked to it. */
  lemma AdmitsIffLinked(rules: Rules, genesis: Anchor, receipts: seq<Receipt>, body: seq<byte>, record: Record)
    requires Canonical(rules) && rules.parse(body) == Some(record)
    ensures var link := DigestChain(rules, Payloads(rules, genesis, receipts), |receipts| + 1);
      Admits(rules, Log(rules, genesis, receipts), body)
      <==> record == Record(|receipts| + 2, link, record.payload, rules.recordDigest(|receipts| + 2, link, record.payload))
  {
    LinkIsChain(rules, genesis, receipts, |receipts|);
  }

  /** No collisions, and no record hashes to the genesis link. */
  ghost predicate CollisionFree(rules: Rules) {
    && (forall i, d, p, i', d', p' ::
          rules.recordDigest(i, d, p) == rules.recordDigest(i', d', p') ==> i == i' && d == d' && p == p')
    && (forall i, d, p :: rules.recordDigest(i, d, p) != rules.genesisLink)
  }

  lemma {:induction false} ChainBindsPrefix(rules: Rules, left: seq<Payload>, n: nat, right: seq<Payload>, m: nat)
    requires CollisionFree(rules) && n <= |left| && m <= |right|
    requires DigestChain(rules, left, n) == DigestChain(rules, right, m)
    ensures left[..n] == right[..m]
  {
    if n > 0 && m > 0 {
      ChainBindsPrefix(rules, left, n - 1, right, m - 1);
      assert left[..n] == left[..n - 1] + [left[n - 1]] && right[..m] == right[..m - 1] + [right[m - 1]];
    }
  }

  lemma ChainBinds(rules: Rules, left: seq<Payload>, right: seq<Payload>)
    requires CollisionFree(rules)
    requires DigestChain(rules, left, |left|) == DigestChain(rules, right, |right|)
    ensures left == right
  {
    ChainBindsPrefix(rules, left, |left|, right, |right|);
    assert left[..|left|] == left && right[..|right|] == right;
  }

  /** The digest of the last record binds the whole history: equal links mean equal genesis and receipts. */
  lemma LinkBindsHistory(rules: Rules, genesis: Anchor, receipts: seq<Receipt>, other: Anchor, others: seq<Receipt>)
    requires Canonical(rules) && CollisionFree(rules)
    requires Link(rules, Log(rules, genesis, receipts)) == Link(rules, Log(rules, other, others))
    ensures genesis == other && receipts == others
  {
    LinkIsChain(rules, genesis, receipts, |receipts|);
    LinkIsChain(rules, other, others, |others|);
    ChainBinds(rules, Payloads(rules, genesis, receipts), Payloads(rules, other, others));
    PayloadsBindHistory(rules, genesis, receipts, other, others);
  }

  lemma PayloadsBindHistory(rules: Rules, genesis: Anchor, receipts: seq<Receipt>, other: Anchor, others: seq<Receipt>)
    requires Payloads(rules, genesis, receipts) == Payloads(rules, other, others)
    ensures genesis == other && receipts == others
  {
    var left, right := Payloads(rules, genesis, receipts), Payloads(rules, other, others);
    assert left[0] == Genesis(genesis) && right[0] == Genesis(other);
    assert |receipts| == |others|;
    forall i | 0 <= i < |receipts|
      ensures receipts[i] == others[i]
    {
      assert left[i + 1].receipt == receipts[i] && right[i + 1].receipt == others[i];
    }
  }

  ghost predicate LogFits(rules: Rules, genesis: Anchor, receipts: seq<Receipt>) {
    forall i :: 0 <= i <= |receipts| ==> |Log(rules, genesis, receipts)[i]| <= MAX_RECORD
  }

  lemma LogEntry(rules: Rules, genesis: Anchor, receipts: seq<Receipt>, i: nat)
    requires i < |receipts|
    ensures var bodies, earlier := Log(rules, genesis, receipts), LogTo(rules, genesis, receipts, i);
      && bodies[..i + 1] == earlier
      && bodies[i + 1] == NextBody(rules, earlier, AdvancePayload(rules, genesis, receipts, i))
  {
    LogPrefix(rules, genesis, receipts, i, |receipts|);
    LogPrefix(rules, genesis, receipts, i + 1, |receipts|);
    LastOfPrefix(Log(rules, genesis, receipts), LogTo(rules, genesis, receipts, i + 1), i + 1);
  }

  lemma LastOfPrefix(bodies: seq<seq<byte>>, prefix: seq<seq<byte>>, i: nat)
    requires i < |bodies| && bodies[..i + 1] == prefix
    ensures bodies[i] == prefix[i]
  {
  }

  lemma LogEntryAdmitted(rules: Rules, genesis: Anchor, receipts: seq<Receipt>, i: nat)
    requires Canonical(rules) && i <= |receipts|
    ensures var bodies := Log(rules, genesis, receipts);
            bodies[i] != [] && Admits(rules, bodies[..i], bodies[i])
  {
    if i == 0 {
      LogPrefix(rules, genesis, receipts, 0, |receipts|);
      LastOfPrefix(Log(rules, genesis, receipts), LogTo(rules, genesis, receipts, 0), 0);
      NextBodyReads(rules, [], Genesis(genesis));
      assert Log(rules, genesis, receipts)[..0] == [];
    } else {
      LogEntry(rules, genesis, receipts, i - 1);
      NextBodyReads(rules, LogTo(rules, genesis, receipts, i - 1), AdvancePayload(rules, genesis, receipts, i - 1));
    }
  }

  lemma LogIsAccepted(rules: Rules, genesis: Anchor, receipts: seq<Receipt>)
    requires Canonical(rules) && LogFits(rules, genesis, receipts)
    ensures Accepted(LogFormat(rules), Log(rules, genesis, receipts))
  {
    var bodies := Log(rules, genesis, receipts);
    forall i | 0 <= i < |bodies|
      ensures Framable(LogFormat(rules), bodies[i]) && LogFormat(rules).admits(bodies[..i], bodies[i])
    {
      LogEntryAdmitted(rules, genesis, receipts, i);
    }
  }

  /** `raw` is the file of a history: the image of its log. */
  ghost predicate IsLogOf(rules: Rules, raw: seq<byte>, genesis: Anchor, receipts: seq<Receipt>) {
    && Pinned(rules, genesis) && History(rules, receipts) && LogFits(rules, genesis, receipts)
    && raw == Image(Log(rules, genesis, receipts))
  }

  lemma HistoryLoads(rules: Rules, raw: seq<byte>, genesis: Anchor, receipts: seq<Receipt>)
    requires Canonical(rules) && IsLogOf(rules, raw, genesis, receipts)
    ensures LoadOf(rules, raw)
         == Ok(Loaded(Log(rules, genesis, receipts), StateAt(rules, genesis, receipts, |receipts|)))
  {
    var bodies := Log(rules, genesis, receipts);
    LogIsAccepted(rules, genesis, receipts);
    WholeMeaning(LogFormat(rules), raw, bodies);
    assert raw == ImageTo(bodies, |bodies| - 1) + Frame(bodies[|bodies| - 1]);
    LogRecovers(rules, genesis, receipts, |receipts|);
  }

  /** The service accepts a file exactly when it is the log of some history from the pinned genesis,
      and the anchor it then serves is the register of that history. */
  lemma AcceptedIffHistory(rules: Rules, raw: seq<byte>)
    requires Canonical(rules) && DistinctAnchors(rules)
    ensures LoadOf(rules, raw).Ok? <==> exists genesis, receipts :: IsLogOf(rules, raw, genesis, receipts)
  {
    if LoadOf(rules, raw).Ok? {
      var bodies := LoadOf(rules, raw).value.bodies;
      LoadedIsHistory(rules, raw);
      assert IsLogOf(rules, raw, GenesisOf(rules, bodies), ReceiptsOf(rules, bodies));
    }
    if genesis, receipts :| IsLogOf(rules, raw, genesis, receipts) {
      HistoryLoads(rules, raw, genesis, receipts);
    }
  }

  lemma LoadedIsHistory(rules: Rules, raw: seq<byte>)
    requires Canonical(rules) && DistinctAnchors(rules) && LoadOf(rules, raw).Ok?
    ensures var bodies := LoadOf(rules, raw).value.bodies;
            IsLogOf(rules, raw, GenesisOf(rules, bodies), ReceiptsOf(rules, bodies))
  {
    var bodies := LoadOf(rules, raw).value.bodies;
    WholeMeaning(LogFormat(rules), raw, bodies);
    RecoveredIsHistory(rules, bodies, |bodies| - 1);
    RecoveredLog(rules, bodies);
  }

  lemma RecoveredLog(rules: Rules, bodies: seq<seq<byte>>)
    requires bodies != [] && Recovered(rules, bodies, |bodies| - 1) && Accepted(LogFormat(rules), bodies)
    ensures IsLogOf(rules, Image(bodies), GenesisOf(rules, bodies), ReceiptsOf(rules, bodies))
  {
    assert bodies[..|bodies|] == bodies;
    assert RecoveredAs(rules, bodies, GenesisOf(rules, bodies), ReceiptsOf(rules, bodies), |bodies| - 1);
    assert Log(rules, GenesisOf(rules, bodies), ReceiptsOf(rules, bodies)) == bodies;
    assert forall i :: 0 <= i < |bodies| ==> Framable(LogFormat(rules), bodies[i]);
  }

  // ---------------------------------------------------------------- one request

  /** The request (expected digest, receipt) that moves the register of a history. */
  ghost predicate Moves(rules: Rules, genesis: Anchor, receipts: seq<Receipt>, expected: Digest, receipt: Receipt) {
    && expected == rules.digest(AnchorAt(rules, genesis, receipts, |receipts|))
    && InOrder(rules, receipts + [receipt], |receipts|)
  }

  /** The request that repeats the last move. */
  ghost predicate Repeats(rules: Rules, genesis: Anchor, receipts: seq<Receipt>, expected: Digest, receipt: Receipt) {
    && receipts != []
    && rules.verify(receipt)
    && receipt.sequence == |receipts|
    && rules.receiptHash(receipt) == rules.receiptHash(receipts[|receipts| - 1])
    && (|| expected == rules.digest(AnchorAt(rules, genesis, receipts, |receipts|))
        || expected == rules.digest(AnchorAt(rules, genesis, receipts, |receipts| - 1)))
  }

  lemma AnchorLocal(rules: Rules, genesis: Anchor, receipts: seq<Receipt>, more: seq<Receipt>, n: nat)
    requires n <= |receipts| && receipts <= more
    ensures AnchorAt(rules, genesis, more, n) == AnchorAt(rules, genesis, receipts, n)
  {
  }

  lemma LogExtends(rules: Rules, genesis: Anchor, receipts: seq<Receipt>, receipt: Receipt)
    ensures var expected := rules.digest(AnchorAt(rules, genesis, receipts, |receipts|));
            var derived := AnchorAt(rules, genesis, receipts + [receipt], |receipts| + 1);
            var payload := Advance(expected, rules.receiptHash(receipt), receipt, derived);
            Log(rules, genesis, receipts + [receipt])
            == Log(rules, genesis, receipts) + [NextBody(rules, Log(rules, genesis, receipts), payload)]
  {
    LogLocal(rules, genesis, receipts, receipts + [receipt], |receipts|);
    AnchorLocal(rules, genesis, receipts, receipts + [receipt], |receipts|);
  }

  ghost function NextRecord(rules: Rules, genesis: Anchor, receipts: seq<Receipt>, receipt: Receipt): seq<byte> {
    Log(rules, genesis, receipts + [receipt])[|receipts| + 1]
  }

  lemma DeriveFromHistory(rules: Rules, genesis: Anchor, receipts: seq<Receipt>, receipt: Receipt)
    ensures rules.verify(receipt) && Derive(rules, AnchorAt(rules, genesis, receipts, |receipts|), receipt).Ok?
       <==> InOrder(rules, receipts + [receipt], |receipts|)
    ensures InOrder(rules, receipts + [receipt], |receipts|) ==>
              Derive(rules, AnchorAt(rules, genesis, receipts, |receipts|), receipt)
              == Ok(AnchorAt(rules, genesis, receipts + [receipt], |receipts| + 1))
  {
    DeriveIff(rules, genesis, receipts + [receipt], |receipts|);
    AnchorLocal(rules, genesis, receipts, receipts + [receipt], |receipts|);
  }

  /** A request writes exactly when it moves the register (and its record fits), answers `Idempotent`
      exactly when it repeats the last move, and is refused otherwise. */
  lemma RequestTrichotomy(rules: Rules, raw: seq<byte>, genesis: Anchor, receipts: seq<Receipt>,
                          expected: Digest, receipt: Receipt)
    requires Canonical(rules) && IsLogOf(rules, raw, genesis, receipts)
    ensures var plan := PlanOf(rules, raw, expected, receipt);
      && (plan.Write? <==> Moves(rules, genesis, receipts, expected, receipt)
                           && |NextRecord(rules, genesis, receipts, receipt)| <= MAX_RECORD)
      && (plan.Write? ==> plan == Write(NextRecord(rules, genesis, receipts, receipt),
                                        AnchorAt(rules, genesis, receipts + [receipt], |receipts| + 1)))
      && (plan.Stop? && plan.answer.Ok? <==> Repeats(rules, genesis, receipts, expected, receipt))
      && (plan.Stop? && plan.answer.Ok? ==>
            plan.answer == Ok((Idempotent, AnchorAt(rules, genesis, receipts, |receipts|))))
  {
    HistoryLoads(rules, raw, genesis, receipts);
    LogExtends(rules, genesis, receipts, receipt);
    DeriveFromHistory(rules, genesis, receipts, receipt);
    DecideOnHistory(rules, genesis, receipts, expected, receipt);
  }

  lemma DecideOnHistory(rules: Rules, genesis: Anchor, receipts: seq<Receipt>, expected: Digest, receipt: Receipt)
    requires rules.verify(receipt) && Derive(rules, AnchorAt(rules, genesis, receipts, |receipts|), receipt).Ok?
        <==> InOrder(rules, receipts + [receipt], |receipts|)
    ensures var plan := Decide(rules, Loaded(Log(rules, genesis, receipts), StateAt(rules, genesis, receipts, |receipts|)),
                               expected, receipt);
      && (plan.Write? ==> Moves(rules, genesis, receipts, expected, receipt))
      && (Moves(rules, genesis, receipts, expected, receipt) && plan.Stop? ==> plan.answer == Err(RecordTooLarge))
      && (plan.Stop? && plan.answer.Ok? <==> Repeats(rules, genesis, receipts, expected, receipt))
  {
  }

  /** The head of the register already names this very receipt. */
  ghost predicate AtHead(rules: Rules, receipts: seq<Receipt>, receipt: Receipt) {
    receipts != [] && receipt.sequence == |receipts| && rules.receiptHash(receipt) == rules.receiptHash(receipts[|receipts| - 1])
  }

  ghost predicate Expects(rules: Rules, genesis: Anchor, receipts: seq<Receipt>, expected: Digest) {
    expected == rules.digest(AnchorAt(rules, genesis, receipts, |receipts|))
  }

  /** A new receipt, offered against the digest of the current register. */
  ghost predicate Offers(rules: Rules, genesis: Anchor, receipts: seq<Receipt>, expected: Digest, receipt: Receipt) {
    rules.verify(receipt) && !AtHead(rules, receipts, receipt) && Expects(rules, genesis, receipts, expected)
  }

  /** The hash that the next receipt has to name. */
  ghost function Top(rules: Rules, receipts: seq<Receipt>): Digest {
    if receipts == [] then rules.genesisReceipt else rules.receiptHash(receipts[|receipts| - 1])
  }

  /** Each refusal and its one reason: the receipt does not verify; the digest is neither that of the current
      register nor, for the receipt on top, the one it was moved from; the sequence is behind or ahead of the
      next; the next receipt names another hash; its record is too large. */
  lemma RefusalIff(rules: Rules, raw: seq<byte>, genesis: Anchor, receipts: seq<Receipt>, expected: Digest, receipt: Receipt)
    requires Canonical(rules) && IsLogOf(rules, raw, genesis, receipts)
    ensures var plan := PlanOf(rules, raw, expected, receipt);
      && (plan == Stop(Err(ReceiptRejected)) <==> !rules.verify(receipt))
      && (plan == Stop(Err(CasMismatch)) <==>
            && rules.verify(receipt) && !Expects(rules, genesis, receipts, expected)
            && (AtHead(rules, receipts, receipt) ==>
                  expected != rules.digest(AnchorAt(rules, genesis, receipts, |receipts| - 1))))
      && (plan == Stop(Err(Chain(Regression))) <==>
            Offers(rules, genesis, receipts, expected, receipt) && receipt.sequence <= |receipts|)
      && (plan == Stop(Err(Chain(Gap))) <==>
            Offers(rules, genesis, receipts, expected, receipt) && receipt.sequence > |receipts| + 1)
      && (plan == Stop(Err(Chain(Fork))) <==>
            Offers(rules, genesis, receipts, expected, receipt) && receipt.sequence == |receipts| + 1
            && receipt.previous != Top(rules, receipts))
      && (plan == Stop(Err(RecordTooLarge)) <==>
            Offers(rules, genesis, receipts, expected, receipt) && receipt.sequence == |receipts| + 1
            && receipt.previous == Top(rules, receipts) && |NextRecord(rules, genesis, receipts, receipt)| > MAX_RECORD)
  {
    HistoryLoads(rules, raw, genesis, receipts);
    LogExtends(rules, genesis, receipts, receipt);
    if Offers(rules, genesis, receipts, expected, receipt) && receipt.sequence == |receipts| + 1
       && receipt.previous == Top(rules, receipts) {
      DeriveFromHistory(rules, genesis, receipts, receipt);
      assert InOrder(rules, receipts + [receipt], |receipts|);
    }
  }

  /** Why a log is not served: it is empty or holds no genesis first; another genesis; a cut frame; bytes that
      do not frame chained records, or a record that does not replay. */
  lemma LoadIff(rules: Rules, raw: seq<byte>)
    ensures raw == [] ==> LoadOf(rules, raw) == Err(GenesisMissing)
    ensures LoadOf(rules, raw) == Err(LogTorn)
       <==> exists bodies, at :: ScanLog(LogFormat(rules), raw) == Torn(bodies, at)
    ensures Damaged(LogFormat(rules), raw) ==> LoadOf(rules, raw) == Err(LogCorrupt)
    ensures forall bodies :: bodies != [] && ScanLog(LogFormat(rules), raw) == Whole(bodies) ==>
              && (LoadOf(rules, raw) == Err(GenesisMissing) <==> !PayloadOf(rules, bodies[0]).Genesis?)
              && (LoadOf(rules, raw) == Err(GenesisMismatch) <==>
                    PayloadOf(rules, bodies[0]).Genesis? && !Pinned(rules, PayloadOf(rules, bodies[0]).anchor))
  {
    RefusalMeaning(LogFormat(rules), raw);
    if raw != [] {
      forall bodies | bodies != [] && ScanLog(LogFormat(rules), raw) == Whole(bodies)
        ensures LoadOf(rules, raw) == Err(GenesisMissing) <==> !PayloadOf(rules, bodies[0]).Genesis?
        ensures LoadOf(rules, raw) == Err(GenesisMismatch) <==>
                  PayloadOf(rules, bodies[0]).Genesis? && !Pinned(rules, PayloadOf(rules, bodies[0]).anchor)
        ensures LoadOf(rules, raw) != Err(LogTorn)
      {
        RecoverErrors(rules, bodies, |bodies|);
      }
    }
  }

  lemma {:induction false} RecoverErrors(rules: Rules, bodies: seq<seq<byte>>, n: nat)
    requires 0 < n <= |bodies|
    ensures RecoverTo(rules, bodies, n) == Err(GenesisMissing) <==> !PayloadOf(rules, bodies[0]).Genesis?
    ensures RecoverTo(rules, bodies, n) == Err(GenesisMismatch) <==>
              PayloadOf(rules, bodies[0]).Genesis? && !Pinned(rules, PayloadOf(rules, bodies[0]).anchor)
    ensures RecoverTo(rules, bodies, n) != Err(LogTorn)
  {
    if n > 1 {
      RecoverErrors(rules, bodies, n - 1);
    }
  }

  lemma HistoryExtends(rules: Rules, genesis: Anchor, receipts: seq<Receipt>, receipt: Receipt)
    requires History(rules, receipts) && LogFits(rules, genesis, receipts)
    requires InOrder(rules, receipts + [receipt], |receipts|)
    requires |NextRecord(rules, genesis, receipts, receipt)| <= MAX_RECORD
    ensures History(rules, receipts + [receipt]) && LogFits(rules, genesis, receipts + [receipt])
  {
    var longer := receipts + [receipt];
    LogExtends(rules, genesis, receipts, receipt);
    forall i | 0 <= i < |longer|
      ensures InOrder(rules, longer, i)
    {
      assert i < |receipts| ==> InOrder(rules, receipts, i);
    }
  }

  /** A written request leaves the log of the longer history, and reading it back serves the anchor
      that was returned to the caller. */
  lemma AdvanceReadsBack(rules: Rules, raw: seq<byte>, genesis: Anchor, receipts: seq<Receipt>,
                         expected: Digest, receipt: Receipt)
    requires Canonical(rules) && IsLogOf(rules, raw, genesis, receipts)
    requires PlanOf(rules, raw, expected, receipt).Write?
    ensures var plan := PlanOf(rules, raw, expected, receipt);
      && IsLogOf(rules, raw + Frame(plan.body), genesis, receipts + [receipt])
      && LoadOf(rules, raw + Frame(plan.body)).Ok?
      && LoadOf(rules, raw + Frame(plan.body)).value.state == State(plan.derived, Some(expected))
  {
    var plan := PlanOf(rules, raw, expected, receipt);
    RequestTrichotomy(rules, raw, genesis, receipts, expected, receipt);
    HistoryExtends(rules, genesis, receipts, receipt);
    LogExtends(rules, genesis, receipts, receipt);
    ImageAppend(Log(rules, genesis, receipts), plan.body);
    HistoryLoads(rules, raw + Frame(plan.body), genesis, receipts + [receipt]);
    AnchorLocal(rules, genesis, receipts, receipts + [receipt], |receipts|);
  }

  /** A write that stopped inside its frame leaves a file every later request refuses, unchanged:
      the service does not repair a torn log. */
  lemma TornLogRefuses(rules: Rules, raw: seq<byte>, genesis: Anchor, receipts: seq<Receipt>,
                       expected: Digest, receipt: Receipt, cut: nat)
    requires Canonical(rules) && IsLogOf(rules, raw, genesis, receipts)
    requires PlanOf(rules, raw, expected, receipt).Write?
    requires cut <= 4 + |PlanOf(rules, raw, expected, receipt).body|
    ensures LoadOf(rules, raw + Frame(PlanOf(rules, raw, expected, receipt).body)[..cut]) == Err(LogTorn)
       <==> 0 < cut < 4 + |PlanOf(rules, raw, expected, receipt).body|
  {
    var plan := PlanOf(rules, raw, expected, receipt);
    var bodies := Log(rules, genesis, receipts);
    RequestTrichotomy(rules, raw, genesis, receipts, expected, receipt);
    LogExtends(rules, genesis, receipts, receipt);
    LogIsAccepted(rules, genesis, receipts);
    NextBodyReads(rules, bodies, Advance(expected, rules.receiptHash(receipt), receipt, plan.derived));
    CutReadsAsOldOrNew(LogFormat(rules), bodies, plan.body, cut);
    if cut == 4 + |plan.body| {
      assert Frame(plan.body)[..cut] == Frame(plan.body);
      AdvanceReadsBack(rules, raw, genesis, receipts, expected, receipt);
    } else if cut == 0 {
      assert raw + Frame(plan.body)[..cut] == raw;
      HistoryLoads(rules, raw, genesis, receipts);
    }
  }

  // ---------------------------------------------------------------- whole runs

  datatype Request = Request(expected: Digest, receipt: Receipt)

  /** The abstract machine: a history, and the requests it lets in. */
  ghost predicate Enters(rules: Rules, genesis: Anchor, receipts: seq<Receipt>, request: Request) {
    && Moves(rules, genesis, receipts, request.expected, request.receipt)
    && |NextRecord(rules, genesis, receipts, request.receipt)| <= MAX_RECORD
  }

  ghost function Enter(rules: Rules, genesis: Anchor, receipts: seq<Receipt>, request: Request): seq<Receipt> {
    if Enters(rules, genesis, receipts, request) then receipts + [request.receipt] else receipts
  }

  ghost function HistoryAfter(rules: Rules, genesis: Anchor, receipts: seq<Receipt>, requests: seq<Request>, n: nat)
    : seq<Receipt>
    requires n <= |requests|
  {
    Run((history, request) => Enter(rules, genesis, history, request), receipts, requests, n)
  }

  /** The file after one completed request, and after a run of them. */
  ghost function AfterRequest(rules: Rules, raw: seq<byte>, request: Request): seq<byte> {
    match PlanOf(rules, raw, request.expected, request.receipt)
    case Stop(_) => raw
    case Write(body, _) => raw + Frame(body)
  }

  ghost function AfterRun(rules: Rules, raw: seq<byte>, requests: seq<Request>, n: nat): seq<byte>
    requires n <= |requests|
  {
    Run((file, request) => AfterRequest(rules, file, request), raw, requests, n)
  }

  lemma RequestRefines(rules: Rules, raw: seq<byte>, genesis: Anchor, receipts: seq<Receipt>, request: Request)
    requires Canonical(rules) && IsLogOf(rules, raw, genesis, receipts)
    ensures IsLogOf(rules, AfterRequest(rules, raw, request), genesis, Enter(rules, genesis, receipts, request))
  {
    RequestTrichotomy(rules, raw, genesis, receipts, request.expected, request.receipt);
    if PlanOf(rules, raw, request.expected, request.receipt).Write? {
      AdvanceReadsBack(rules, raw, genesis, receipts, request.expected, request.receipt);
    }
  }

  /** The log refines the abstract machine: after any requests the file is the log of the history
      that the machine has reached. */
  lemma RunRefines(rules: Rules, raw: seq<byte>, genesis: Anchor, receipts: seq<Receipt>,
                   requests: seq<Request>, n: nat)
    requires Canonical(rules) && IsLogOf(rules, raw, genesis, receipts) && n <= |requests|
    ensures IsLogOf(rules, AfterRun(rules, raw, requests, n), genesis,
                    HistoryAfter(rules, genesis, receipts, requests, n))
  {
    var related := (file, history) => IsLogOf(rules, file, genesis, history);
    var concrete := (file, request) => AfterRequest(rules, file, request);
    var machine := (history, request) => Enter(rules, genesis, history, request);
    forall file, history, request | related(file, history)
      ensures related(concrete(file, request), machine(history, request))
    {
      RequestRefines(rules, file, genesis, history, request);
    }
    Simulation(related, concrete, machine, raw, receipts, requests, n);
  }

  // ---------------------------------------------------------------- whole runs with stops

  /** A request whose write, if it comes to one, is stopped after at most `bytes` bytes. */
  datatype Attempt = Attempt(request: Request, bytes: nat)

  /** How far the register has come, and what a stopped write has left behind its log. */
  datatype Progress = Progress(receipts: seq<Receipt>, rest: seq<byte>)

  ghost function AfterAttempt(rules: Rules, raw: seq<byte>, attempt: Attempt): seq<byte> {
    match PlanOf(rules, raw, attempt.request.expected, attempt.request.receipt)
    case Stop(_) => raw
    case Write(body, _) => raw + Frame(body)[..CutOf(body, attempt.bytes)]
  }

  ghost function AfterAttempts(rules: Rules, raw: seq<byte>, attempts: seq<Attempt>, n: nat): seq<byte>
    requires n <= |attempts|
  {
    Run((file, attempt) => AfterAttempt(rules, file, attempt), raw, attempts, n)
  }

  /** The abstract machine with stops: the first write that is stopped inside its frame freezes it. */
  ghost function Proceed(rules: Rules, genesis: Anchor, progress: Progress, attempt: Attempt): Progress {
    var Progress(receipts, rest) := progress;
    if rest != [] || !Enters(rules, genesis, receipts, attempt.request) then progress
    else
      var body := NextRecord(rules, genesis, receipts, attempt.request.receipt);
      if attempt.bytes < 4 + |body| then Progress(receipts, Frame(body)[..attempt.bytes])
      else Progress(receipts + [attempt.request.receipt], [])
  }

  ghost function ProgressAfter(rules: Rules, genesis: Anchor, progress: Progress, attempts: seq<Attempt>, n: nat): Progress
    requires n <= |attempts|
  {
    Run((reached, attempt) => Proceed(rules, genesis, reached, attempt), progress, attempts, n)
  }

  /** The file is the log of the receipts so far, followed by the rest; with a rest it is refused as torn. */
  ghost predicate IsFileOf(rules: Rules, raw: seq<byte>, genesis: Anchor, progress: Progress) {
    && IsLogOf(rules, Image(Log(rules, genesis, progress.receipts)), genesis, progress.receipts)
    && raw == Image(Log(rules, genesis, progress.receipts)) + progress.rest
    && (progress.rest != [] ==> LoadOf(rules, raw) == Err(LogTorn))
  }

  lemma AttemptRefines(rules: Rules, raw: seq<byte>, genesis: Anchor, progress: Progress, attempt: Attempt)
    requires Canonical(rules) && IsFileOf(rules, raw, genesis, progress)
    ensures IsFileOf(rules, AfterAttempt(rules, raw, attempt), genesis, Proceed(rules, genesis, progress, attempt))
  {
    if progress.rest == [] {
      assert raw == Image(Log(rules, genesis, progress.receipts));
      RequestTrichotomy(rules, raw, genesis, progress.receipts, attempt.request.expected, attempt.request.receipt);
      if PlanOf(rules, raw, attempt.request.expected, attempt.request.receipt).Write? {
        WriteRefines(rules, raw, genesis, progress.receipts, attempt);
      }
    }
  }

  lemma WriteRefines(rules: Rules, raw: seq<byte>, genesis: Anchor, receipts: seq<Receipt>, attempt: Attempt)
    requires Canonical(rules) && IsLogOf(rules, raw, genesis, receipts)
    requires Enters(rules, genesis, receipts, attempt.request)
    requires var plan := PlanOf(rules, raw, attempt.request.expected, attempt.request.receipt);
             plan.Write? && plan.body == NextRecord(rules, genesis, receipts, attempt.request.receipt)
    ensures IsFileOf(rules, AfterAttempt(rules, raw, attempt), genesis,
                     Proceed(rules, genesis, Progress(receipts, []), attempt))
  {
    var request, body := attempt.request, NextRecord(rules, genesis, receipts, attempt.request.receipt);
    var cut := CutOf(body, attempt.bytes);
    TornLogRefuses(rules, raw, genesis, receipts, request.expected, request.receipt, cut);
    if cut == 4 + |body| {
      AdvanceReadsBack(rules, raw, genesis, receipts, request.expected, request.receipt);
      assert Frame(body)[..cut] == Frame(body);
      assert raw + Frame(body) + [] == raw + Frame(body);
    }
  }

  /** Over any run of requests, each stopped after any number of bytes, the file follows the machine with
      stops; once a write has stopped inside its frame, every later request is refused and the file
      never changes again. */
  lemma StoppedRunRefines(rules: Rules, raw: seq<byte>, genesis: Anchor, receipts: seq<Receipt>,
                          attempts: seq<Attempt>, n: nat)
    requires Canonical(rules) && IsLogOf(rules, raw, genesis, receipts) && n <= |attempts|
    ensures IsFileOf(rules, AfterAttempts(rules, raw, attempts, n), genesis,
                     ProgressAfter(rules, genesis, Progress(receipts, []), attempts, n))
  {
    var related := (file, progress) => IsFileOf(rules, file, genesis, progress);
    var concrete := (file, attempt) => AfterAttempt(rules, file, attempt);
    var machine := (progress, attempt) => Proceed(rules, genesis, progress, attempt);
    forall file, progress, attempt | related(file, progress)
      ensures related(concrete(file, attempt), machine(progress, attempt))
    {
      AttemptRefines(rules, file, genesis, progress, attempt);
    }
    assert raw + [] == raw;
    Simulation(related, concrete, machine, raw, Progress(receipts, []), attempts, n);
  }

  /** A torn log stays torn: from the first stop inside a frame on, the file is the same and every
      request is answered with the same refusal. */
  lemma {:induction false} TornStays(rules: Rules, raw: seq<byte>, attempts: seq<Attempt>, n: nat)
    requires LoadOf(rules, raw) == Err(LogTorn) && n <= |attempts|
    ensures AfterAttempts(rules, raw, attempts, n) == raw
    ensures n < |attempts| ==>
              PlanOf(rules, AfterAttempts(rules, raw, attempts, n), attempts[n].request.expected, attempts[n].request.receipt)
              == Stop(Err(LogTorn))
  {
    if n > 0 {
      TornStays(rules, raw, attempts, n - 1);
    }
  }

  lemma {:induction false} HistoryGrows(rules: Rules, genesis: Anchor, receipts: seq<Receipt>,
                                        requests: seq<Request>, i: nat, j: nat)
    requires i <= j <= |requests|
    ensures HistoryAfter(rules, genesis, receipts, requests, i) <= HistoryAfter(rules, genesis, receipts, requests, j)
  {
    if i < j {
      HistoryGrows(rules, genesis, receipts, requests, i, j - 1);
    }
  }

  ghost predicate EntersAt(rules: Rules, genesis: Anchor, receipts: seq<Receipt>, requests: seq<Request>, i: nat)
    requires i < |requests|
  {
    Enters(rules, genesis, HistoryAfter(rules, genesis, receipts, requests, i), requests[i])
  }

  /** Compare-and-swap: in any run, at most one receipt is ever advanced from one expected digest. */
  lemma OneAdvancePerDigest(rules: Rules, genesis: Anchor, receipts: seq<Receipt>,
                            requests: seq<Request>, i: nat, j: nat)
    requires DistinctAnchors(rules) && i < j < |requests|
    requires EntersAt(rules, genesis, receipts, requests, i) && EntersAt(rules, genesis, receipts, requests, j)
    ensures requests[i].expected != requests[j].expected
  {
    HistoryGrows(rules, genesis, receipts, requests, i + 1, j);
    RevisionsDiffer(rules, genesis, HistoryAfter(rules, genesis, receipts, requests, i),
                    HistoryAfter(rules, genesis, receipts, requests, j));
  }

  lemma RevisionsDiffer(rules: Rules, genesis: Anchor, left: seq<Receipt>, right: seq<Receipt>)
    requires DistinctAnchors(rules) && |left| != |right|
    ensures rules.digest(AnchorAt(rules, genesis, left, |left|)) != rules.digest(AnchorAt(rules, genesis, right, |right|))
  {
    assert AnchorAt(rules, genesis, left, |left|).revision != AnchorAt(rules, genesis, right, |right|).revision;
  }

  /** Repeating the request that just advanced, any number of times, answers the same anchor and
      leaves the file as it is. */
  lemma RetryIsIdempotent(rules: Rules, raw: seq<byte>, genesis: Anchor, receipts: seq<Receipt>,
                          request: Request, requests: seq<Request>, n: nat)
    requires Canonical(rules) && IsLogOf(rules, raw, genesis, receipts)
    requires PlanOf(rules, raw, request.expected, request.receipt).Write?
    requires n <= |requests| && forall i :: 0 <= i < |requests| ==> requests[i] == request
    ensures var plan := PlanOf(rules, raw, request.expected, request.receipt);
      && AfterRun(rules, AfterRequest(rules, raw, request), requests, n) == AfterRequest(rules, raw, request)
      && PlanOf(rules, AfterRequest(rules, raw, request), request.expected, request.receipt)
         == Stop(Ok((Idempotent, plan.derived)))
  {
    RetryAnswers(rules, raw, genesis, receipts, request);
    RefusedRunStays(rules, AfterRequest(rules, raw, request), request, requests, n);
  }

  lemma {:induction false} RefusedRunStays(rules: Rules, raw: seq<byte>, request: Request, requests: seq<Request>, n: nat)
    requires PlanOf(rules, raw, request.expected, request.receipt).Stop?
    requires n <= |requests| && forall i :: 0 <= i < |requests| ==> requests[i] == request
    ensures AfterRun(rules, raw, requests, n) == raw
  {
    if n > 0 {
      RefusedRunStays(rules, raw, request, requests, n - 1);
    }
  }

  lemma RetryAnswers(rules: Rules, raw: seq<byte>, genesis: Anchor, receipts: seq<Receipt>, request: Request)
    requires Canonical(rules) && IsLogOf(rules, raw, genesis, receipts)
    requires PlanOf(rules, raw, request.expected, request.receipt).Write?
    ensures var plan := PlanOf(rules, raw, request.expected, request.receipt);
      PlanOf(rules, raw + Frame(plan.body), request.expected, request.receipt) == Stop(Ok((Idempotent, plan.derived)))
  {
    var plan := PlanOf(rules, raw, request.expected, request.receipt);
    var longer := receipts + [request.receipt];
    RequestTrichotomy(rules, raw, genesis, receipts, request.expected, request.receipt);
    AdvanceReadsBack(rules, raw, genesis, receipts, request.expected, request.receipt);
    AnchorLocal(rules, genesis, receipts, longer, |receipts|);
    assert InOrder(rules, longer, |receipts|);
    assert Repeats(rules, genesis, longer, request.expected, request.receipt);
    RequestTrichotomy(rules, raw + Frame(plan.body), genesis, longer, request.expected, request.receipt);
  }

  /** A request that advanced earlier, but not last, is refused ever after. */
  lemma OverwrittenRequestRefused(rules: Rules, raw: seq<byte>, genesis: Anchor, receipts: seq<Receipt>, k: nat)
    requires Canonical(rules) && DistinctAnchors(rules) && IsLogOf(rules, raw, genesis, receipts)
    requires k + 1 < |receipts|
    ensures PlanOf(rules, raw, rules.digest(AnchorAt(rules, genesis, receipts, k)), receipts[k]) == Stop(Err(CasMismatch))
  {
    HistoryLoads(rules, raw, genesis, receipts);
    assert InOrder(rules, receipts, k);
    assert AnchorAt(rules, genesis, receipts, k).revision < AnchorAt(rules, genesis, receipts, |receipts|).revision;
  }
}
