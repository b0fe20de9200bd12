/** The native launcher's result record: a strict decoder that leaves the payload no freedom. */
module NativeResult {
  import opened Wrappers
  import opened Bytes

  const RESULT_MAGIC: seq<byte> := [0x4D, 0x31, 0x57, 0x33, 0x52, 0x45, 0x53, 0x00]
  const CLEANUP_MAGIC: seq<byte> := [0x4D, 0x31, 0x57, 0x33, 0x43, 0x4C, 0x4E, 0x00]
  const VERSION: nat := 1
  const HEADER: nat := 36
  const CLEANUP: nat := 72
  const MAX_STDOUT: nat := 3_145_728
  const MAX_STDERR: nat := 1_044_480

  /** `ids` are the six peer, launcher and runner identities of the cleanup record. */
  datatype Native = Native(flags: nat, waitKind: nat, waitValue: nat, stdout: seq<byte>, stderr: seq<byte>, ids: seq<nat>)

  datatype NativeError =
    | Truncated | BadMagic | BadVersion | BadFlags | BadLength | BadCleanupLength | OutputCap | CleanupDigest
    | CleanupMagic | CleanupVersion | CrossBinding | Incomplete | CleanupFlags | Residual | Boundary
    | WaitFlags | WaitKind | WaitValue

  // ---------------------------------------------------------------- big-endian words

  predicate Words32(words: seq<nat>) {
    forall i :: 0 <= i < |words| ==> words[i] < U32_LIMIT
  }

  function PackWords(words: seq<nat>): (data: seq<byte>)
    requires Words32(words)
    ensures |data| == 4 * |words|
  {
    if words == [] then [] else Be32(words[0]) + PackWords(words[1..])
  }

  function UnpackWords(data: seq<byte>): (words: seq<nat>)
    requires |data| % 4 == 0
    ensures 4 * |words| == |data| && Words32(words)
    decreases |data|
  {
    if data == [] then [] else [FromBe32(data[..4])] + UnpackWords(data[4..])
  }

  lemma {:induction false} PackOfUnpack(data: seq<byte>)
    requires |data| % 4 == 0
    ensures PackWords(UnpackWords(data)) == data
    decreases |data|
  {
    if data != [] {
      PackOfUnpack(data[4..]);
      FromBe32RoundTrip(data[..4]);
      assert UnpackWords(data)[1..] == UnpackWords(data[4..]);
      assert data == data[..4] + data[4..];
    }
  }

  lemma {:induction false} UnpackOfPack(words: seq<nat>)
    requires Words32(words)
    ensures UnpackWords(PackWords(words)) == words
    decreases |words|
  {
    if words != [] {
      UnpackOfPack(words[1..]);
      Be32RoundTrip(words[0]);
      assert PackWords(words)[..4] == Be32(words[0]) && PackWords(words)[4..] == PackWords(words[1..]);
      assert words == [words[0]] + words[1..];
    }
  }

  // ---------------------------------------------------------------- flags

  /** Bit `k` of a flag word, as the word divided by 2^k. */
  predicate Bit(flags: nat, power: nat)
    requires power > 0
  {
    flags / power % 2 == 1
  }

  /** The flag checks, and the checks of the wait status, in the decoder's order. */
  function CheckFlags(flags: nat): Option<NativeError> {
    if Bit(flags, 4) || Bit(flags, 8) then Some(Incomplete)
    else if !Bit(flags, 16) || !Bit(flags, 32) || !Bit(flags, 64) then Some(CleanupFlags)
    else None
  }

  function CheckTerminal(flags: nat, kind: nat, value: nat): Option<NativeError> {
    if Bit(flags, 1) == Bit(flags, 2) then Some(WaitFlags)
    else if kind != (if Bit(flags, 1) then 1 else 2) then Some(WaitKind)
    else if (kind == 1 && value > 255) || (kind == 2 && !(1 <= value <= 127)) then Some(WaitValue)
    else None
  }

  /** A finished child: it exited with a code, or a signal ended it; nothing was left behind. */
  predicate Finished(flags: nat, kind: nat, value: nat) {
    || (flags == 0x71 && kind == 1 && value <= 255)
    || (flags == 0x72 && kind == 2 && 1 <= value <= 127)
  }

  lemma HighBits(flags: nat)
    requires flags < 128
    ensures Bit(flags, 16) && Bit(flags, 32) && Bit(flags, 64) <==> flags >= 112
  {
    var q := flags / 16;
    assert flags / 32 == q / 2 && flags / 64 == q / 4 && q < 8;
    assert q == 0 || q == 1 || q == 2 || q == 3 || q == 4 || q == 5 || q == 6 || q == 7;
  }

  lemma LowBits(flags: nat)
    requires 112 <= flags < 128
    ensures !Bit(flags, 4) && !Bit(flags, 8) && Bit(flags, 1) != Bit(flags, 2) <==> flags == 0x71 || flags == 0x72
    ensures Bit(flags, 1) <==> flags % 2 == 1
  {
    assert flags == 112 || flags == 113 || flags == 114 || flags == 115 || flags == 116 || flags == 117
        || flags == 118 || flags == 119 || flags == 120 || flags == 121 || flags == 122 || flags == 123
        || flags == 124 || flags == 125 || flags == 126 || flags == 127;
  }

  lemma FlagsOfFinished(flags: nat, kind: nat, value: nat)
    requires flags < 128
    ensures CheckFlags(flags).None? && CheckTerminal(flags, kind, value).None?
       <==> Finished(flags, kind, value)
  {
    HighBits(flags);
    if flags >= 112 {
      LowBits(flags);
    }
  }

  // ---------------------------------------------------------------- the record

  function HeaderWords(r: Native): seq<nat> {
    [VERSION, r.flags, r.waitKind, r.waitValue, |r.stdout|, |r.stderr|, CLEANUP]
  }

  function CleanupWords(r: Native): seq<nat>
    requires |r.ids| == 6
  {
    [VERSION, r.flags, 0, 0, 0, r.waitKind, r.waitValue, |r.stdout|, |r.stderr|,
     r.ids[0], r.ids[1], r.ids[2], r.ids[3], r.ids[4], r.ids[5], 1]
  }

  predicate Acceptable(r: Native) {
    && Finished(r.flags, r.waitKind, r.waitValue)
    && |r.stdout| <= MAX_STDOUT && |r.stderr| <= MAX_STDERR
    && |r.ids| == 6 && Words32(r.ids)
  }

  function CleanupRecord(r: Native): seq<byte>
    requires Acceptable(r)
  {
    CLEANUP_MAGIC + PackWords(CleanupWords(r))
  }

  /** The one payload that carries a result. */
  function Build(r: Native): seq<byte>
    requires Acceptable(r)
  {
    RESULT_MAGIC + PackWords(HeaderWords(r)) + r.stdout + r.stderr + CleanupRecord(r)
  }

  function CheckHeader(magic: seq<byte>, head: seq<nat>, size: nat): Option<NativeError>
    requires |head| == 7
  {
    if magic != RESULT_MAGIC then Some(BadMagic)
    else if head[0] != VERSION then Some(BadVersion)
    else if head[1] >= 128 then Some(BadFlags)
    else if HEADER + head[4] + head[5] + head[6] != size then Some(BadLength)
    else if head[6] != CLEANUP then Some(BadCleanupLength)
    else if head[4] > MAX_STDOUT || head[5] > MAX_STDERR then Some(OutputCap)
    else None
  }

  function CheckCleanup(magic: seq<byte>, head: seq<nat>, words: seq<nat>): Option<NativeError>
    requires |head| == 7 && |words| == 16
  {
    if magic != CLEANUP_MAGIC then Some(CleanupMagic)
    else if words[0] != VERSION then Some(CleanupVersion)
    else if words[1] != head[1] || words[5] != head[2] || words[6] != head[3] || words[7] != head[4] || words[8] != head[5]
    then Some(CrossBinding)
    else if CheckFlags(head[1]).Some? then CheckFlags(head[1])
    else if words[2] != 0 || words[3] != 0 || words[4] != 0 then Some(Residual)
    else if words[15] != 1 then Some(Boundary)
    else CheckTerminal(head[1], head[2], head[3])
  }

  /** The digest of the cleanup record, taken as a parameter. */
  type Hash = seq<byte> -> string

  function Decode(hash: Hash, payload: seq<byte>, cleanupDigest: string): Result<Native, NativeError> {
    if |payload| < HEADER + CLEANUP then Err(Truncated)
    else
      var head := UnpackWords(payload[8..HEADER]);
      match CheckHeader(payload[..8], head, |payload|)
      case Some(error) => Err(error)
      case None => DecodeBody(hash, payload, head, cleanupDigest)
  }

  /** The part behind an accepted header: two outputs and the cleanup record. */
  function DecodeBody(hash: Hash, payload: seq<byte>, head: seq<nat>, cleanupDigest: string): Result<Native, NativeError>
    requires |head| == 7 && |payload| == HEADER + head[4] + head[5] + CLEANUP
  {
    var errAt, cleanupAt := HEADER + head[4], HEADER + head[4] + head[5];
    var cleanup := payload[cleanupAt..];
    if hash(cleanup) != cleanupDigest then Err(CleanupDigest)
    else
      var words := UnpackWords(cleanup[8..]);
      match CheckCleanup(cleanup[..8], head, words)
      case Some(error) => Err(error)
      case None =>
        Ok(Native(head[1], head[2], head[3], payload[HEADER..errAt], payload[errAt..cleanupAt], words[9..15]))
  }

  lemma Seven(words: seq<nat>, other: seq<nat>)
    requires |words| == |other| == 7
    requires words[0] == other[0] && words[1] == other[1] && words[2] == other[2] && words[3] == other[3]
    requires words[4] == other[4] && words[5] == other[5] && words[6] == other[6]
    ensures words == other
  {
  }

  lemma Sixteen(words: seq<nat>, r: Native)
    requires |words| == 16 && |r.ids| == 6 && words[9..15] == r.ids
    requires words[0] == VERSION && words[1] == r.flags && words[2] == 0 && words[3] == 0 && words[4] == 0
    requires words[5] == r.waitKind && words[6] == r.waitValue && words[7] == |r.stdout| && words[8] == |r.stderr|
    requires words[15] == 1
    ensures words == CleanupWords(r)
  {
    var ids := words[9..15];
    assert ids[0] == words[9] && ids[1] == words[10] && ids[2] == words[11];
    assert ids[3] == words[12] && ids[4] == words[13] && ids[5] == words[14];
  }

  lemma DecodedHead(hash: Hash, payload: seq<byte>, digest: string, r: Native)
    requires Decode(hash, payload, digest) == Ok(r)
    ensures Acceptable(r) && payload[..HEADER] == RESULT_MAGIC + PackWords(HeaderWords(r))
  {
    var head := UnpackWords(payload[8..HEADER]);
    PackOfUnpack(payload[8..HEADER]);
    FlagsOfFinished(head[1], head[2], head[3]);
    Seven(head, HeaderWords(r));
    assert payload[..HEADER] == payload[..8] + payload[8..HEADER];
  }

  lemma DecodedCleanup(hash: Hash, payload: seq<byte>, digest: string, r: Native)
    requires Decode(hash, payload, digest) == Ok(r) && Acceptable(r)
    ensures |payload| == HEADER + |r.stdout| + |r.stderr| + CLEANUP
    ensures payload[HEADER + |r.stdout| + |r.stderr|..] == CleanupRecord(r)
    ensures hash(CleanupRecord(r)) == digest
  {
    var cleanup := payload[HEADER + |r.stdout| + |r.stderr|..];
    PackOfUnpack(cleanup[8..]);
    Sixteen(UnpackWords(cleanup[8..]), r);
    assert cleanup == cleanup[..8] + cleanup[8..];
  }

  lemma FourParts(payload: seq<byte>, a: nat, b: nat, c: nat)
    requires a <= b <= c <= |payload|
    ensures payload == payload[..a] + payload[a..b] + payload[b..c] + payload[c..]
  {
  }

  lemma DecodedOutputs(hash: Hash, payload: seq<byte>, digest: string, r: Native)
    requires Decode(hash, payload, digest) == Ok(r) && |payload| == HEADER + |r.stdout| + |r.stderr| + CLEANUP
    ensures payload[HEADER..HEADER + |r.stdout|] == r.stdout
    ensures payload[HEADER + |r.stdout|..HEADER + |r.stdout| + |r.stderr|] == r.stderr
  {
  }

  lemma DecodedIsBuilt(hash: Hash, payload: seq<byte>, digest: string, r: Native)
    requires Decode(hash, payload, digest) == Ok(r)
    ensures Acceptable(r) && payload == Build(r) && hash(CleanupRecord(r)) == digest
  {
    DecodedHead(hash, payload, digest, r);
    DecodedCleanup(hash, payload, digest, r);
    DecodedOutputs(hash, payload, digest, r);
    FourParts(payload, HEADER, HEADER + |r.stdout|, HEADER + |r.stdout| + |r.stderr|);
  }

  lemma FiveParts(a: seq<byte>, b: seq<byte>, c: seq<byte>, d: seq<byte>, e: seq<byte>)
    ensures var all := a + b + c + d + e; var ab := |a| + |b|; var abc := ab + |c|; var abcd := abc + |d|;
      && |all| == abcd + |e|
      && all[..|a|] == a && all[|a|..ab] == b && all[ab..abc] == c && all[abc..abcd] == d && all[abcd..] == e
  {
  }

  /** The payload falls into the parts of a result. */
  ghost predicate Sliced(payload: seq<byte>, r: Native)
    requires Acceptable(r)
  {
    var errAt := HEADER + |r.stdout|;
    var cleanupAt := errAt + |r.stderr|;
    && |payload| == cleanupAt + CLEANUP
    && payload[..8] == RESULT_MAGIC && payload[8..HEADER] == PackWords(HeaderWords(r))
    && payload[HEADER..errAt] == r.stdout && payload[errAt..cleanupAt] == r.stderr
    && payload[cleanupAt..] == CleanupRecord(r)
  }

  lemma BuiltSlices(r: Native)
    requires Acceptable(r)
    ensures Sliced(Build(r), r)
  {
    FiveParts(RESULT_MAGIC, PackWords(HeaderWords(r)), r.stdout, r.stderr, CleanupRecord(r));
  }

  lemma CleanupSlices(r: Native)
    requires Acceptable(r)
    ensures CleanupRecord(r)[..8] == CLEANUP_MAGIC && CleanupRecord(r)[8..] == PackWords(CleanupWords(r))
  {
  }

  lemma BuiltPasses(r: Native)
    requires Acceptable(r)
    ensures CheckHeader(RESULT_MAGIC, HeaderWords(r), HEADER + |r.stdout| + |r.stderr| + CLEANUP).None?
    ensures CheckCleanup(CLEANUP_MAGIC, HeaderWords(r), CleanupWords(r)).None?
    ensures CleanupWords(r)[9..15] == r.ids
  {
    FlagsOfFinished(r.flags, r.waitKind, r.waitValue);
  }

  lemma BuiltDecodes(hash: Hash, r: Native)
    requires Acceptable(r)
    ensures Decode(hash, Build(r), hash(CleanupRecord(r))) == Ok(r)
  {
    BuiltSlices(r);
    SlicedDecodes(hash, Build(r), r);
  }

  /** Reading the body once its header words and its cleanup words are known. */
  lemma BodyReads(hash: Hash, payload: seq<byte>, head: seq<nat>, words: seq<nat>, r: Native)
    requires Acceptable(r) && Sliced(payload, r) && |head| == 7 && |words| == 16
    requires head[1] == r.flags && head[2] == r.waitKind && head[3] == r.waitValue
    requires head[4] == |r.stdout| && head[5] == |r.stderr|
    requires UnpackWords(CleanupRecord(r)[8..]) == words && words[9..15] == r.ids
    requires CheckCleanup(CleanupRecord(r)[..8], head, words).None?
    ensures DecodeBody(hash, payload, head, hash(CleanupRecord(r))) == Ok(r)
  {
  }

  lemma SlicedBody(hash: Hash, payload: seq<byte>, r: Native)
    requires Acceptable(r) && Sliced(payload, r)
    ensures DecodeBody(hash, payload, HeaderWords(r), hash(CleanupRecord(r))) == Ok(r)
  {
    CleanupSlices(r);
    UnpackOfPack(CleanupWords(r));
    BuiltPasses(r);
    BodyReads(hash, payload, HeaderWords(r), CleanupWords(r), r);
  }

  lemma SlicedDecodes(hash: Hash, payload: seq<byte>, r: Native)
    requires Acceptable(r) && Sliced(payload, r)
    ensures Decode(hash, payload, hash(CleanupRecord(r))) == Ok(r)
  {
    UnpackOfPack(HeaderWords(r));
    BuiltPasses(r);
    SlicedBody(hash, payload, r);
  }

  /** A payload is accepted as a result exactly when it is that result's one encoding and its cleanup
      record has the announced digest: outputs, lengths, flags and cleanup record bind each other. */
  lemma DecodeIff(hash: Hash, payload: seq<byte>, digest: string, r: Native)
    ensures Decode(hash, payload, digest) == Ok(r)
       <==> Acceptable(r) && payload == Build(r) && hash(CleanupRecord(r)) == digest
  {
    if Decode(hash, payload, digest) == Ok(r) {
      DecodedIsBuilt(hash, payload, digest, r);
    }
    if Acceptable(r) && payload == Build(r) && hash(CleanupRecord(r)) == digest {
      BuiltDecodes(hash, r);
    }
  }

  // ---------------------------------------------------------------- the bytes of a result

  function Word(data: seq<byte>, at: nat): nat
    requires at + 4 <= |data|
  {
    FromBe32(data[at..at + 4])
  }

  lemma SliceOfSlice(data: seq<byte>, from: nat, to: nat, at: nat, end: nat)
    requires from <= to <= |data| && at <= end <= to - from
    ensures data[from..to][at..end] == data[from + at..from + end]
  {
    var inner, outer := data[from..to][at..end], data[from + at..from + end];
    assert forall i :: 0 <= i < |inner| ==> inner[i] == data[from + at + i] == outer[i];
  }

  lemma {:induction false} PackedAt(words: seq<nat>, k: nat, at: nat)
    requires Words32(words) && k < |words| && at == 4 * k
    ensures Word(PackWords(words), at) == words[k]
    decreases k
  {
    var data, rest := PackWords(words), PackWords(words[1..]);
    assert data == Be32(words[0]) + rest;
    if k > 0 {
      PackedAt(words[1..], k - 1, at - 4);
      assert data[4..|data|] == rest;
      SliceOfSlice(data, 4, |data|, at - 4, at);
    } else {
      Be32RoundTrip(words[0]);
      assert data[0..4] == Be32(words[0]);
    }
  }

  lemma WordInside(payload: seq<byte>, from: nat, to: nat, part: seq<byte>, inside: nat, at: nat)
    requires from <= to <= |payload| && payload[from..to] == part && inside + 4 <= |part| && at == from + inside
    ensures at + 4 <= to && Word(payload, at) == Word(part, inside)
  {
    SliceOfSlice(payload, from, to, inside, inside + 4);
  }

  /** A word of a packed part that starts at `from`. */
  lemma PackedWord(payload: seq<byte>, from: nat, to: nat, words: seq<nat>, k: nat, at: nat)
    requires from <= to <= |payload| && Words32(words) && payload[from..to] == PackWords(words)
    requires k < |words| && at == from + 4 * k
    ensures at + 4 <= to && Word(payload, at) == words[k]
  {
    PackedAt(words, k, 4 * k);
    WordInside(payload, from, to, PackWords(words), 4 * k, at);
  }

  ghost predicate HeaderLaidOut(payload: seq<byte>, r: Native)
    requires |payload| >= 36
  {
    && payload[..8] == [0x4D, 0x31, 0x57, 0x33, 0x52, 0x45, 0x53, 0x00]
    && Word(payload, 8) == 1 && Word(payload, 12) == r.flags
    && Word(payload, 16) == r.waitKind && Word(payload, 20) == r.waitValue
    && Word(payload, 24) == |r.stdout| && Word(payload, 28) == |r.stderr| && Word(payload, 32) == 72
  }

  /** The cleanup record at byte `c`. */
  ghost predicate CleanupLaidOut(payload: seq<byte>, c: nat, r: Native)
    requires |payload| == c + 72
  {
    && payload[c..c + 8] == [0x4D, 0x31, 0x57, 0x33, 0x43, 0x4C, 0x4E, 0x00]
    && Word(payload, c + 8) == 1 && Word(payload, c + 12) == r.flags
    && Word(payload, c + 16) == 0 && Word(payload, c + 20) == 0 && Word(payload, c + 24) == 0
    && Word(payload, c + 28) == r.waitKind && Word(payload, c + 32) == r.waitValue
    && Word(payload, c + 36) == |r.stdout| && Word(payload, c + 40) == |r.stderr|
    && r.ids == [Word(payload, c + 44), Word(payload, c + 48), Word(payload, c + 52),
                 Word(payload, c + 56), Word(payload, c + 60), Word(payload, c + 64)]
    && Word(payload, c + 68) == 1
  }

  lemma HeaderBytes(payload: seq<byte>, r: Native)
    requires Acceptable(r) && Sliced(payload, r)
    ensures HeaderLaidOut(payload, r)
  {
    PackedWord(payload, 8, HEADER, HeaderWords(r), 0, 8);
    PackedWord(payload, 8, HEADER, HeaderWords(r), 1, 12);
    PackedWord(payload, 8, HEADER, HeaderWords(r), 2, 16);
    PackedWord(payload, 8, HEADER, HeaderWords(r), 3, 20);
    PackedWord(payload, 8, HEADER, HeaderWords(r), 4, 24);
    PackedWord(payload, 8, HEADER, HeaderWords(r), 5, 28);
    PackedWord(payload, 8, HEADER, HeaderWords(r), 6, 32);
  }

  lemma CleanupWord(payload: seq<byte>, c: nat, r: Native, k: nat, at: nat)
    requires Acceptable(r) && |payload| == c + 72 && payload[c..] == CleanupRecord(r) && k < 16 && at == c + 8 + 4 * k
    ensures at + 4 <= |payload| && Word(payload, at) == CleanupWords(r)[k]
  {
    CleanupSlices(r);
    CleanupTail(payload, c);
    PackedWord(payload, c + 8, |payload|, CleanupWords(r), k, at);
  }

  lemma CleanupTail(payload: seq<byte>, c: nat)
    requires |payload| == c + 72
    ensures payload[c + 8..|payload|] == payload[c..][8..] && payload[c..c + 8] == payload[c..][..8]
  {
  }

  lemma CleanupBytes(payload: seq<byte>, c: nat, r: Native)
    requires Acceptable(r) && |payload| == c + 72 && payload[c..] == CleanupRecord(r)
    ensures CleanupLaidOut(payload, c, r)
  {
    CleanupSlices(r);
    CleanupTail(payload, c);
    CleanupIds(payload, c, r);
    CleanupWord(payload, c, r, 0, c + 8);
    CleanupWord(payload, c, r, 1, c + 12);
    CleanupWord(payload, c, r, 2, c + 16);
    CleanupWord(payload, c, r, 3, c + 20);
    CleanupWord(payload, c, r, 4, c + 24);
    CleanupWord(payload, c, r, 5, c + 28);
    CleanupWord(payload, c, r, 6, c + 32);
    CleanupWord(payload, c, r, 7, c + 36);
    CleanupWord(payload, c, r, 8, c + 40);
    CleanupWord(payload, c, r, 15, c + 68);
  }

  lemma CleanupIds(payload: seq<byte>, c: nat, r: Native)
    requires Acceptable(r) && |payload| == c + 72 && payload[c..] == CleanupRecord(r)
    ensures r.ids == [Word(payload, c + 44), Word(payload, c + 48), Word(payload, c + 52),
                      Word(payload, c + 56), Word(payload, c + 60), Word(payload, c + 64)]
  {
    CleanupWord(payload, c, r, 9, c + 44);
    CleanupWord(payload, c, r, 10, c + 48);
    CleanupWord(payload, c, r, 11, c + 52);
    CleanupWord(payload, c, r, 12, c + 56);
    CleanupWord(payload, c, r, 13, c + 60);
    CleanupWord(payload, c, r, 14, c + 64);
  }

  ghost predicate LaidOut(payload: seq<byte>, r: Native) {
    var errAt := 36 + |r.stdout|;
    var c := errAt + |r.stderr|;
    && |payload| == c + 72
    && HeaderLaidOut(payload, r)
    && payload[36..errAt] == r.stdout && payload[errAt..c] == r.stderr
    && CleanupLaidOut(payload, c, r)
  }

  lemma SlicedIsLaidOut(payload: seq<byte>, r: Native)
    requires Acceptable(r) && Sliced(payload, r)
    ensures LaidOut(payload, r)
  {
    HeaderBytes(payload, r);
    CleanupBytes(payload, 36 + |r.stdout| + |r.stderr|, r);
  }

  /** Where each part of an accepted result lies, byte by byte. */
  lemma ResultLayout(hash: Hash, payload: seq<byte>, digest: string, r: Native)
    requires Decode(hash, payload, digest) == Ok(r)
    ensures LaidOut(payload, r) && hash(payload[36 + |r.stdout| + |r.stderr|..]) == digest
  {
    DecodedIsBuilt(hash, payload, digest, r);
    BuiltSlices(r);
    SlicedIsLaidOut(payload, r);
  }
}
