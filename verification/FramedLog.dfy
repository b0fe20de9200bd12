/** Length-prefixed append-only logs: one scanner, what it accepts, and what a cut leaves behind.

    The install transition journal, the protected anchor log and the public receipt journal all
    store a record as a 4-byte big-endian length followed by its body, and all three decode with
    the same loop.  They differ in the bounds and in which bodies they admit. */
module FramedLog {
  import opened Bytes

  /** `admits(earlier, body)` is the per-record check of a component: may `body` follow `earlier`? */
  datatype Format = Format(maxBody: nat, maxRecords: Cap, admits: (seq<seq<byte>>, seq<byte>) -> bool)

  datatype Cap = Unlimited | AtMost(records: nat)

  datatype Scan =
    | Whole(bodies: seq<seq<byte>>)
    | Torn(bodies: seq<seq<byte>>, offset: nat)
    | Corrupt
    | Oversize

  predicate Within(cap: Cap, records: nat) {
    cap.AtMost? ==> records <= cap.records
  }

  function Frame(body: seq<byte>): (frame: seq<byte>)
    ensures |frame| == 4 + |body|
  {
    BigEndian(|body|, 4) + body
  }

  predicate Framable(format: Format, body: seq<byte>) {
    0 < |body| <= format.maxBody < U32_LIMIT
  }

  /** The record bodies that a log of this format may hold, independent of any byte layout. */
  ghost predicate Accepted(format: Format, bodies: seq<seq<byte>>) {
    && format.maxBody < U32_LIMIT
    && Within(format.maxRecords, |bodies|)
    && forall i :: 0 <= i < |bodies| ==> Framable(format, bodies[i]) && format.admits(bodies[..i], bodies[i])
  }

  ghost function ImageTo(bodies: seq<seq<byte>>, n: nat): seq<byte>
    requires n <= |bodies|
  {
    if n == 0 then [] else ImageTo(bodies, n - 1) + Frame(bodies[n - 1])
  }

  ghost function Image(bodies: seq<seq<byte>>): seq<byte> {
    ImageTo(bodies, |bodies|)
  }

  /** A non-empty remainder that some cut of a frame could have left. */
  ghost predicate TornTail(format: Format, rest: seq<byte>) {
    && 0 < |rest|
    && (|rest| >= 4 ==> 0 < FromBe32(rest[..4]) <= format.maxBody && |rest| - 4 < FromBe32(rest[..4]))
  }

  ghost function ScanFrom(format: Format, raw: seq<byte>, offset: nat, bodies: seq<seq<byte>>): Scan
    requires offset <= |raw|
    decreases |raw| - offset
  {
    if offset == |raw| then Whole(bodies)
    else if |raw| - offset < 4 then Torn(bodies, offset)
    else
      var length := FromBe32(raw[offset..offset + 4]);
      if length == 0 || length > format.maxBody then Corrupt
      else if |raw| - offset - 4 < length then Torn(bodies, offset)
      else
        var body := raw[offset + 4..offset + 4 + length];
        if !format.admits(bodies, body) then Corrupt
        else if !Within(format.maxRecords, |bodies| + 1) then Oversize
        else ScanFrom(format, raw, offset + 4 + length, bodies + [body])
  }

  ghost function ScanLog(format: Format, raw: seq<byte>): Scan {
    ScanFrom(format, raw, 0, [])
  }

  /** The decoding loop. */
  method Decode(format: Format, raw: seq<byte>) returns (scan: Scan)
    ensures scan == ScanLog(format, raw)
  {
    var offset, bodies := 0, [];
    while offset < |raw|
      invariant offset <= |raw|
      invariant ScanFrom(format, raw, offset, bodies) == ScanLog(format, raw)
    {
      var start := offset;
      if |raw| - offset < 4 {
        return Torn(bodies, start);
      }
      var length := FromBe32(raw[offset..offset + 4]);
      offset := offset + 4;
      if length == 0 || length > format.maxBody {
        return Corrupt;
      }
      if |raw| - offset < length {
        return Torn(bodies, start);
      }
      var body := raw[offset..offset + length];
      offset := offset + length;
      if !format.admits(bodies, body) {
        return Corrupt;
      }
      bodies := bodies + [body];
      if !Within(format.maxRecords, |bodies|) {
        return Oversize;
      }
    }
    return Whole(bodies);
  }

  // ---------------------------------------------------------------- what the scanner accepts

  lemma {:induction false} ImageToAgrees(bodies: seq<seq<byte>>, more: seq<seq<byte>>, n: nat)
    requires n <= |bodies| && n <= |more| && forall i :: 0 <= i < n ==> bodies[i] == more[i]
    ensures ImageTo(more, n) == ImageTo(bodies, n)
  {
    if n > 0 {
      ImageToAgrees(bodies, more, n - 1);
    }
  }

  lemma ImageToLocal(bodies: seq<seq<byte>>, more: seq<seq<byte>>, n: nat)
    requires n <= |bodies| && bodies <= more
    ensures ImageTo(more, n) == ImageTo(bodies, n)
  {
    ImageToAgrees(bodies, more, n);
  }

  lemma ImageAppend(bodies: seq<seq<byte>>, body: seq<byte>)
    ensures Image(bodies + [body]) == Image(bodies) + Frame(body)
  {
    ImageToLocal(bodies, bodies + [body], |bodies|);
  }

  lemma PrefixOfPrefix(left: seq<byte>, right: seq<byte>, whole: seq<byte>)
    requires left + right <= whole
    ensures left <= whole
  {
    assert left == (left + right)[..|left|] == whole[..|left + right|][..|left|];
  }

  lemma {:induction false} ImageToPrefix(bodies: seq<seq<byte>>, n: nat)
    requires n <= |bodies|
    ensures ImageTo(bodies, n) <= Image(bodies)
    decreases |bodies| - n
  {
    if n < |bodies| {
      ImageToPrefix(bodies, n + 1);
      PrefixOfPrefix(ImageTo(bodies, n), Frame(bodies[n]), Image(bodies));
    }
  }

  lemma AcceptedExtend(format: Format, bodies: seq<seq<byte>>, body: seq<byte>)
    requires Accepted(format, bodies) && Framable(format, body)
    requires format.admits(bodies, body) && Within(format.maxRecords, |bodies| + 1)
    ensures Accepted(format, bodies + [body])
  {
    var longer := bodies + [body];
    forall i | 0 <= i < |longer|
      ensures Framable(format, longer[i]) && format.admits(longer[..i], longer[i])
    {
      assert longer[..i] == bodies[..i];
    }
  }

  lemma FrameFields(body: seq<byte>)
    requires |body| < U32_LIMIT
    ensures FromBe32(Frame(body)[..4]) == |body| && Frame(body)[4..] == body
  {
    assert Frame(body)[..4] == Be32(|body|);
    Be32RoundTrip(|body|);
  }

  lemma SliceOfPrefix(whole: seq<byte>, left: seq<byte>, right: seq<byte>)
    requires left + right <= whole
    ensures whole[|left|..|left| + |right|] == right
  {
    assert whole[..|left + right|] == left + right;
    assert whole[|left|..|left| + |right|] == whole[..|left + right|][|left|..];
  }

  /** One frame in front of the cursor takes the scanner to the end of that frame. */
  lemma ScanFrame(format: Format, raw: seq<byte>, at: nat, earlier: seq<seq<byte>>, body: seq<byte>)
    requires Framable(format, body) && at + 4 + |body| <= |raw|
    requires raw[at..at + 4 + |body|] == Frame(body)
    ensures ScanFrom(format, raw, at, earlier)
         == if !format.admits(earlier, body) then Corrupt
            else if !Within(format.maxRecords, |earlier| + 1) then Oversize
            else ScanFrom(format, raw, at + 4 + |body|, earlier + [body])
  {
    FrameFields(body);
    assert raw[at..at + 4] == raw[at..at + 4 + |body|][..4];
    assert raw[at + 4..at + 4 + |body|] == raw[at..at + 4 + |body|][4..];
  }

  /** Scanning the image of accepted bodies, followed by anything, arrives behind that image. */
  lemma {:induction false} ScanSkipsImage(format: Format, bodies: seq<seq<byte>>, raw: seq<byte>, n: nat)
    requires Accepted(format, bodies) && n <= |bodies| && Image(bodies) <= raw
    ensures |ImageTo(bodies, n)| <= |Image(bodies)| <= |raw|
    ensures ScanFrom(format, raw, |ImageTo(bodies, n)|, bodies[..n])
         == ScanFrom(format, raw, |Image(bodies)|, bodies)
    decreases |bodies| - n
  {
    ImageToPrefix(bodies, n);
    if n == |bodies| {
      assert bodies[..n] == bodies;
    } else {
      ImageToPrefix(bodies, n + 1);
      assert ImageTo(bodies, n + 1) <= raw;
      ScanNext(format, bodies, raw, n);
      ScanSkipsImage(format, bodies, raw, n + 1);
    }
  }

  lemma ScanNext(format: Format, bodies: seq<seq<byte>>, raw: seq<byte>, n: nat)
    requires Accepted(format, bodies) && n < |bodies| && ImageTo(bodies, n + 1) <= raw
    ensures |ImageTo(bodies, n)| <= |raw|
    ensures ScanFrom(format, raw, |ImageTo(bodies, n)|, bodies[..n])
         == ScanFrom(format, raw, |ImageTo(bodies, n + 1)|, bodies[..n + 1])
  {
    SliceOfPrefix(raw, ImageTo(bodies, n), Frame(bodies[n]));
    ScanFrame(format, raw, |ImageTo(bodies, n)|, bodies[..n], bodies[n]);
    assert bodies[..n] + [bodies[n]] == bodies[..n + 1];
  }

  lemma ScanPastImage(format: Format, bodies: seq<seq<byte>>, raw: seq<byte>)
    requires Accepted(format, bodies) && Image(bodies) <= raw
    ensures ScanLog(format, raw) == ScanFrom(format, raw, |Image(bodies)|, bodies)
  {
    ScanSkipsImage(format, bodies, raw, 0);
    assert bodies[..0] == [];
  }

  lemma ScanOfImage(format: Format, bodies: seq<seq<byte>>, rest: seq<byte>)
    requires Accepted(format, bodies)
    ensures rest == [] ==> ScanLog(format, Image(bodies) + rest) == Whole(bodies)
    ensures TornTail(format, rest) ==> ScanLog(format, Image(bodies) + rest) == Torn(bodies, |Image(bodies)|)
  {
    var raw := Image(bodies) + rest;
    ScanPastImage(format, bodies, raw);
    if |rest| >= 4 {
      assert raw[|Image(bodies)|..|Image(bodies)| + 4] == rest[..4];
    }
  }

  /** What a scan result says about the scanned bytes. */
  ghost predicate Describes(format: Format, scan: Scan, raw: seq<byte>) {
    match scan
    case Whole(all) => Accepted(format, all) && raw == Image(all)
    case Torn(all, at) =>
      Accepted(format, all) && at <= |raw| && raw[..at] == Image(all) && TornTail(format, raw[at..])
    case _ => true
  }

  /** A complete frame in front of the cursor: its bytes are the frame of the body they announce. */
  lemma FrameAt(raw: seq<byte>, at: nat, body: seq<byte>)
    requires |body| < U32_LIMIT && at + 4 + |body| <= |raw|
    requires FromBe32(raw[at..at + 4]) == |body| && raw[at + 4..at + 4 + |body|] == body
    ensures raw[..at + 4 + |body|] == raw[..at] + Frame(body)
  {
    FromBe32RoundTrip(raw[at..at + 4]);
    assert raw[..at + 4 + |body|] == raw[..at] + raw[at..at + 4] + raw[at + 4..at + 4 + |body|];
  }

  lemma {:induction false} ScanFromSound(format: Format, raw: seq<byte>, offset: nat, bodies: seq<seq<byte>>)
    requires offset <= |raw| && Accepted(format, bodies) && Image(bodies) == raw[..offset]
    ensures Describes(format, ScanFrom(format, raw, offset, bodies), raw)
    decreases |raw| - offset
  {
    if offset == |raw| {
      assert raw[..offset] == raw;
    } else if |raw| - offset >= 4 {
      assert raw[offset..][..4] == raw[offset..offset + 4];
      var length := FromBe32(raw[offset..offset + 4]);
      if 0 < length <= format.maxBody && length <= |raw| - offset - 4 {
        var body := raw[offset + 4..offset + 4 + length];
        if format.admits(bodies, body) && Within(format.maxRecords, |bodies| + 1) {
          FrameAt(raw, offset, body);
          AcceptedExtend(format, bodies, body);
          ImageAppend(bodies, body);
          ScanFromSound(format, raw, offset + 4 + length, bodies + [body]);
        }
      }
    }
  }

  /** The scanner reports a whole log exactly for the images of accepted bodies. */
  lemma WholeMeaning(format: Format, raw: seq<byte>, bodies: seq<seq<byte>>)
    requires format.maxBody < U32_LIMIT
    ensures ScanLog(format, raw) == Whole(bodies) <==> Accepted(format, bodies) && raw == Image(bodies)
  {
    ScanFromSound(format, raw, 0, []);
    if Accepted(format, bodies) && raw == Image(bodies) {
      ScanOfImage(format, bodies, []);
      assert raw + [] == raw;
    }
  }

  /** It reports a torn log exactly for an accepted image followed by a cut frame. */
  lemma TornMeaning(format: Format, raw: seq<byte>, bodies: seq<seq<byte>>, at: nat)
    requires format.maxBody < U32_LIMIT
    ensures ScanLog(format, raw) == Torn(bodies, at)
       <==> at <= |raw| && Accepted(format, bodies) && raw[..at] == Image(bodies) && TornTail(format, raw[at..])
  {
    ScanFromSound(format, raw, 0, []);
    if at <= |raw| && Accepted(format, bodies) && raw[..at] == Image(bodies) && TornTail(format, raw[at..]) {
      ScanOfImage(format, bodies, raw[at..]);
      assert raw == raw[..at] + raw[at..];
    }
  }

  /** Behind these whole records stands a length out of bounds, or a record that may not follow them. */
  ghost predicate DamagedBehind(format: Format, raw: seq<byte>, bodies: seq<seq<byte>>) {
    && Accepted(format, bodies) && Image(bodies) <= raw
    && var rest := raw[|Image(bodies)|..];
    && |rest| >= 4
    && var length := FromBe32(rest[..4]);
       length == 0 || length > format.maxBody
       || (length <= |rest| - 4 && !format.admits(bodies, rest[4..4 + length]))
  }

  /** Behind these whole records stands one more that may follow them, past the cap. */
  ghost predicate FullBefore(format: Format, raw: seq<byte>, bodies: seq<seq<byte>>, body: seq<byte>) {
    && Accepted(format, bodies) && Framable(format, body) && format.admits(bodies, body)
    && !Within(format.maxRecords, |bodies| + 1) && Image(bodies) + Frame(body) <= raw
  }

  ghost predicate Damaged(format: Format, raw: seq<byte>) {
    exists bodies :: DamagedBehind(format, raw, bodies)
  }

  ghost predicate Overfull(format: Format, raw: seq<byte>) {
    exists bodies, body :: FullBefore(format, raw, bodies, body)
  }

  lemma RestFields(raw: seq<byte>, at: nat, length: nat)
    requires at + 4 <= |raw|
    ensures raw[at..][..4] == raw[at..at + 4]
    ensures at + 4 + length <= |raw| ==> raw[at..][4..4 + length] == raw[at + 4..at + 4 + length]
  {
  }

  lemma {:induction false} RefusalFound(format: Format, raw: seq<byte>, offset: nat, bodies: seq<seq<byte>>)
    requires offset <= |raw| && Accepted(format, bodies) && Image(bodies) == raw[..offset]
    ensures ScanFrom(format, raw, offset, bodies).Corrupt? ==> Damaged(format, raw)
    ensures ScanFrom(format, raw, offset, bodies).Oversize? ==> Overfull(format, raw)
    decreases |raw| - offset
  {
    if |raw| - offset >= 4 {
      var length := FromBe32(raw[offset..offset + 4]);
      RestFields(raw, offset, length);
      if length == 0 || length > format.maxBody {
        assert DamagedBehind(format, raw, bodies);
      } else if length <= |raw| - offset - 4 {
        var body := raw[offset + 4..offset + 4 + length];
        FrameAt(raw, offset, body);
        if !format.admits(bodies, body) {
          assert DamagedBehind(format, raw, bodies);
        } else if !Within(format.maxRecords, |bodies| + 1) {
          assert FullBefore(format, raw, bodies, body);
        } else {
          AcceptedExtend(format, bodies, body);
          ImageAppend(bodies, body);
          RefusalFound(format, raw, offset + 4 + length, bodies + [body]);
        }
      }
    }
  }

  lemma DamageIsCorrupt(format: Format, raw: seq<byte>, bodies: seq<seq<byte>>)
    requires DamagedBehind(format, raw, bodies)
    ensures ScanLog(format, raw).Corrupt?
  {
    var at := |Image(bodies)|;
    ScanPastImage(format, bodies, raw);
    RestFields(raw, at, FromBe32(raw[at..][..4]));
  }

  lemma FullIsOversize(format: Format, raw: seq<byte>, bodies: seq<seq<byte>>, body: seq<byte>)
    requires FullBefore(format, raw, bodies, body)
    ensures ScanLog(format, raw).Oversize?
  {
    PrefixOfPrefix(Image(bodies), Frame(body), raw);
    ScanPastImage(format, bodies, raw);
    SliceOfPrefix(raw, Image(bodies), Frame(body));
    ScanFrame(format, raw, |Image(bodies)|, bodies, body);
  }

  /** The scanner refuses a log as corrupt exactly when its first bad frame has a length out of bounds or
      a record that may not stand there, and as oversize exactly when one record too many is whole. */
  lemma RefusalMeaning(format: Format, raw: seq<byte>)
    requires format.maxBody < U32_LIMIT
    ensures ScanLog(format, raw).Corrupt? <==> Damaged(format, raw)
    ensures ScanLog(format, raw).Oversize? <==> Overfull(format, raw)
  {
    if Within(format.maxRecords, 0) {
      RefusalFound(format, raw, 0, []);
    }
    if bodies :| DamagedBehind(format, raw, bodies) {
      DamageIsCorrupt(format, raw, bodies);
    }
    if bodies, body :| FullBefore(format, raw, bodies, body) {
      FullIsOversize(format, raw, bodies, body);
    }
  }

  // ---------------------------------------------------------------- cutting an append

  /** How many bytes of a frame are out when at most `bytes` are written. */
  function CutOf(body: seq<byte>, bytes: nat): (cut: nat)
    ensures cut <= 4 + |body|
  {
    if bytes < 4 + |body| then bytes else 4 + |body|
  }

  /** Where an append that wrote only the first `cut` bytes of its frame leaves the log. */
  ghost function CutAppend(bodies: seq<seq<byte>>, body: seq<byte>, cut: nat): seq<byte>
    requires cut <= 4 + |body|
  {
    Image(bodies) + Frame(body)[..cut]
  }

  /** The records a reader that drops a torn tail sees. */
  ghost predicate ReadsAs(format: Format, raw: seq<byte>, bodies: seq<seq<byte>>) {
    match ScanLog(format, raw)
    case Whole(found) => found == bodies
    case Torn(found, at) => found == bodies
    case _ => false
  }

  /** Every cut of an append reads as exactly the old or exactly the new records. */
  lemma CutReadsAsOldOrNew(format: Format, bodies: seq<seq<byte>>, body: seq<byte>, cut: nat)
    requires Accepted(format, bodies) && Framable(format, body) && cut <= 4 + |body|
    requires format.admits(bodies, body) && Within(format.maxRecords, |bodies| + 1)
    ensures ReadsAs(format, CutAppend(bodies, body, cut), if cut == 4 + |body| then bodies + [body] else bodies)
    ensures ScanLog(format, CutAppend(bodies, body, cut)).Torn? <==> 0 < cut < 4 + |body|
  {
    var rest := Frame(body)[..cut];
    if cut == 4 + |body| {
      AcceptedExtend(format, bodies, body);
      ImageAppend(bodies, body);
      assert rest == Frame(body);
      ScanOfImage(format, bodies + [body], []);
      assert Image(bodies + [body]) + [] == CutAppend(bodies, body, cut);
    } else {
      FrameFields(body);
      assert cut >= 4 ==> rest[..4] == Frame(body)[..4];
      ScanOfImage(format, bodies, rest);
    }
  }

  /** A complete append of an admissible record stays readable exactly while the record cap has room. */
  lemma AppendReadableIff(format: Format, bodies: seq<seq<byte>>, body: seq<byte>)
    requires Accepted(format, bodies) && Framable(format, body) && format.admits(bodies, body)
    ensures ScanLog(format, Image(bodies) + Frame(body)) == Whole(bodies + [body])
       <==> Within(format.maxRecords, |bodies| + 1)
    ensures !Within(format.maxRecords, |bodies| + 1)
        ==> ScanLog(format, Image(bodies) + Frame(body)) == Oversize
  {
    var raw := Image(bodies) + Frame(body);
    ScanPastImage(format, bodies, raw);
    SliceOfPrefix(raw, Image(bodies), Frame(body));
    ScanFrame(format, raw, |Image(bodies)|, bodies, body);
  }

  // ---------------------------------------------------------------- the record cap

  function Uncapped(format: Format): Format {
    format.(maxRecords := Unlimited)
  }

  /** A file that an uncapped reader reads is read alike by the capped one up to the cap, and refused as
      oversize beyond it. */
  lemma CapDecides(format: Format, raw: seq<byte>, bodies: seq<seq<byte>>)
    requires format.maxRecords.AtMost? && Accepted(Uncapped(format), bodies) && ReadsAs(Uncapped(format), raw, bodies)
    ensures |bodies| <= format.maxRecords.records ==> ScanLog(format, raw) == ScanLog(Uncapped(format), raw)
    ensures |bodies| > format.maxRecords.records ==> ScanLog(format, raw) == Oversize
  {
    UncappedPrefix(format, raw, bodies);
    if |bodies| <= format.maxRecords.records {
      match ScanLog(Uncapped(format), raw) {
        case Whole(_) =>
          WholeMeaning(Uncapped(format), raw, bodies);
          WholeMeaning(format, raw, bodies);
        case Torn(_, at) =>
          TornMeaning(Uncapped(format), raw, bodies, at);
          TornMeaning(format, raw, bodies, at);
      }
    } else {
      PastCap(format, raw, bodies);
    }
  }

  lemma UncappedPrefix(format: Format, raw: seq<byte>, bodies: seq<seq<byte>>)
    requires Accepted(Uncapped(format), bodies) && ReadsAs(Uncapped(format), raw, bodies)
    ensures Image(bodies) <= raw
  {
    ScanFromSound(Uncapped(format), raw, 0, []);
  }

  lemma PastCap(format: Format, raw: seq<byte>, bodies: seq<seq<byte>>)
    requires format.maxRecords.AtMost? && format.maxRecords.records < |bodies|
    requires Accepted(Uncapped(format), bodies) && Image(bodies) <= raw
    ensures ScanLog(format, raw) == Oversize
  {
    var n := format.maxRecords.records;
    var kept := bodies[..n];
    assert Accepted(format, kept) by {
      assert forall i :: 0 <= i < n ==> kept[..i] == bodies[..i];
    }
    ImageToLocal(kept, bodies, n);
    ImageToPrefix(bodies, n);
    ImageToPrefix(bodies, n + 1);
    ScanPastImage(format, kept, raw);
    SliceOfPrefix(raw, Image(kept), Frame(bodies[n]));
    ScanFrame(format, raw, |Image(kept)|, kept, bodies[n]);
  }

  /** Records of at least, or at most, `size` bytes. */
  lemma {:induction false} ImageAtLeast(bodies: seq<seq<byte>>, n: nat, size: nat)
    requires n <= |bodies| && forall i :: 0 <= i < n ==> |bodies[i]| >= size
    ensures |ImageTo(bodies, n)| >= n * (4 + size)
  {
    if n > 0 {
      ImageAtLeast(bodies, n - 1, size);
      assert n * (4 + size) == (n - 1) * (4 + size) + (4 + size);
    }
  }

  lemma {:induction false} ImageAtMost(bodies: seq<seq<byte>>, n: nat, size: nat)
    requires n <= |bodies| && forall i :: 0 <= i < n ==> |bodies[i]| <= size
    ensures |ImageTo(bodies, n)| <= n * (4 + size)
  {
    if n > 0 {
      ImageAtMost(bodies, n - 1, size);
      assert n * (4 + size) == (n - 1) * (4 + size) + (4 + size);
    }
  }
}
