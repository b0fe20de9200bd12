/** Launcher request and response frames and the service envelope: codecs and chunked readers. */
module Frames {
  import opened Wrappers
  import opened Bytes
  import opened Numerals
  import opened Fields
  import opened Streams

  const MAGIC: seq<byte> := [0x4D, 0x31, 0x57, 0x33, 0x4C, 0x43, 0x48, 0x00]
  const VERSION: nat := 1
  const MAX_PAYLOAD: nat := 4_194_304
  const REQUEST_WIDTHS: seq<nat> := [8, 4, 4, 32, 32, 32, 32]
  const RESPONSE_WIDTHS: seq<nat> := [8, 4, 4, 4, 32, 32, 32]
  const REQUEST_HEADER: nat := 144
  const RESPONSE_HEADER: nat := 116
  const MAX_LAUNCHER_RESPONSE: nat := RESPONSE_HEADER + MAX_PAYLOAD
  const PREFIX := "sha256:"

  datatype Request = Request(payload: seq<byte>, request: string, authority: string, release: string, nonce: string)

  datatype Response = Response(payload: seq<byte>, status: nat, request: string, nonce: string, cleanup: string)

  datatype FrameError =
    | BadDigest | BadNonce | BadStatus | EmptyPayload | Oversize
    | TruncatedHeader | BadMagic | BadVersion | TruncatedPayload | TrailingBytes | TruncatedStream

  lemma HeaderSizes()
    ensures Sum(REQUEST_WIDTHS) == REQUEST_HEADER && Sum(RESPONSE_WIDTHS) == RESPONSE_HEADER
  {
    assert Sum([32]) == 32 && Sum([32, 32]) == 64 && Sum([32, 32, 32]) == 96;
    assert Sum([32, 32, 32, 32]) == 128;
    assert Sum([4, 32, 32, 32, 32]) == 132 && Sum([4, 32, 32, 32]) == 100;
    assert Sum([4, 4, 32, 32, 32, 32]) == 136 && Sum([4, 4, 32, 32, 32]) == 104;
    assert Sum([4, 4, 4, 32, 32, 32]) == 108;
  }

  // ---------------------------------------------------------------- digest and nonce slots

  predicate IsNonce(text: string) {
    |text| == 64 && HexText(text)
  }

  predicate IsDigest(text: string) {
    PREFIX <= text && IsNonce(text[|PREFIX|..])
  }

  function NonceSlot(nonce: string): (slot: seq<byte>)
    requires IsNonce(nonce)
    ensures |slot| == 32
  {
    HexOfUnhex(nonce);
    Unhex(nonce)
  }

  function SlotNonce(slot: seq<byte>): string {
    Hex(slot)
  }

  function DigestSlot(digest: string): (slot: seq<byte>)
    requires IsDigest(digest)
    ensures |slot| == 32
  {
    NonceSlot(digest[|PREFIX|..])
  }

  function SlotDigest(slot: seq<byte>): string {
    PREFIX + Hex(slot)
  }

  lemma NonceRoundTrip(nonce: string)
    requires IsNonce(nonce)
    ensures SlotNonce(NonceSlot(nonce)) == nonce
  {
    HexOfUnhex(nonce);
  }

  lemma NonceOfSlot(slot: seq<byte>)
    requires |slot| == 32
    ensures IsNonce(SlotNonce(slot)) && NonceSlot(SlotNonce(slot)) == slot
  {
    UnhexOfHex(slot);
  }

  lemma DigestRoundTrip(digest: string)
    requires IsDigest(digest)
    ensures SlotDigest(DigestSlot(digest)) == digest
  {
    HexOfUnhex(digest[|PREFIX|..]);
  }

  lemma DigestOfSlot(slot: seq<byte>)
    requires |slot| == 32
    ensures IsDigest(SlotDigest(slot)) && DigestSlot(SlotDigest(slot)) == slot
  {
    UnhexOfHex(slot);
    assert SlotDigest(slot)[|PREFIX|..] == Hex(slot);
  }

  // ---------------------------------------------------------------- request frames

  function RequestParts(f: Request): seq<seq<byte>>
    requires |f.payload| < U32_LIMIT && IsDigest(f.request) && IsDigest(f.authority) && IsDigest(f.release)
    requires IsNonce(f.nonce)
  {
    [MAGIC, Be32(VERSION), Be32(|f.payload|),
     DigestSlot(f.request), DigestSlot(f.authority), DigestSlot(f.release), NonceSlot(f.nonce), f.payload]
  }

  function EncodeRequest(f: Request): Result<seq<byte>, FrameError> {
    if f.payload == [] then Err(EmptyPayload)
    else if |f.payload| > MAX_PAYLOAD then Err(Oversize)
    else if !IsDigest(f.request) || !IsDigest(f.authority) || !IsDigest(f.release) then Err(BadDigest)
    else if !IsNonce(f.nonce) then Err(BadNonce)
    else Ok(Glue(RequestParts(f)))
  }

  /** The checks that both the decoder and the stream reader make on the head of a frame. */
  function CheckHead(magic: seq<byte>, version: nat, length: nat): Option<FrameError> {
    if magic != MAGIC then Some(BadMagic)
    else if version != VERSION then Some(BadVersion)
    else if length == 0 then Some(EmptyPayload)
    else if length > MAX_PAYLOAD then Some(Oversize)
    else None
  }

  function RequestOf(parts: seq<seq<byte>>): Result<Request, FrameError>
    requires Fit(parts, REQUEST_WIDTHS)
  {
    var length := FromBe32(parts[2]);
    match CheckHead(parts[0], FromBe32(parts[1]), length)
    case Some(error) => Err(error)
    case None =>
      if |parts[7]| < length then Err(TruncatedPayload)
      else if |parts[7]| > length then Err(TrailingBytes)
      else Ok(Request(parts[7], SlotDigest(parts[3]), SlotDigest(parts[4]), SlotDigest(parts[5]), SlotNonce(parts[6])))
  }

  function DecodeRequest(data: seq<byte>): Result<Request, FrameError> {
    HeaderSizes();
    if |data| < REQUEST_HEADER then Err(TruncatedHeader)
    else
      GlueOfCut(data, REQUEST_WIDTHS);
      RequestOf(Cut(data, REQUEST_WIDTHS))
  }

  lemma RequestPartsFit(f: Request)
    requires EncodeRequest(f).Ok?
    ensures Fit(RequestParts(f), REQUEST_WIDTHS)
  {
    var parts := RequestParts(f);
    assert |parts[0]| == 8 && |parts[1]| == 4 && |parts[2]| == 4;
    assert |parts[3]| == 32 && |parts[4]| == 32 && |parts[5]| == 32 && |parts[6]| == 32;
  }

  lemma RequestWritten(f: Request)
    requires EncodeRequest(f).Ok?
    ensures DecodeRequest(EncodeRequest(f).value) == Ok(f)
  {
    HeaderSizes();
    RequestPartsRead(f);
    CutOfGlue(RequestParts(f), REQUEST_WIDTHS);
  }

  lemma RequestPartsRead(f: Request)
    requires EncodeRequest(f).Ok?
    ensures Fit(RequestParts(f), REQUEST_WIDTHS) && RequestOf(RequestParts(f)) == Ok(f)
  {
    RequestPartsFit(f);
    Be32RoundTrip(VERSION);
    Be32RoundTrip(|f.payload|);
    DigestRoundTrip(f.request);
    DigestRoundTrip(f.authority);
    DigestRoundTrip(f.release);
    NonceRoundTrip(f.nonce);
  }

  lemma RequestPartsBack(parts: seq<seq<byte>>)
    requires Fit(parts, REQUEST_WIDTHS) && RequestOf(parts).Ok?
    ensures EncodeRequest(RequestOf(parts).value) == Ok(Glue(parts))
  {
    var f := RequestOf(parts).value;
    FromBe32RoundTrip(parts[1]);
    FromBe32RoundTrip(parts[2]);
    DigestOfSlot(parts[3]);
    DigestOfSlot(parts[4]);
    DigestOfSlot(parts[5]);
    NonceOfSlot(parts[6]);
    assert parts == RequestParts(f);
  }

  /** Encoding and decoding requests are inverse: a buffer decodes to a frame exactly when it is that
      frame's encoding. */
  lemma RequestIff(data: seq<byte>, f: Request)
    ensures DecodeRequest(data) == Ok(f) <==> EncodeRequest(f) == Ok(data)
  {
    if DecodeRequest(data) == Ok(f) {
      HeaderSizes();
      GlueOfCut(data, REQUEST_WIDTHS);
      RequestPartsBack(Cut(data, REQUEST_WIDTHS));
    }
    if EncodeRequest(f) == Ok(data) {
      RequestWritten(f);
    }
  }

  // ---------------------------------------------------------------- response frames

  function ResponseParts(f: Response): seq<seq<byte>>
    requires |f.payload| < U32_LIMIT && f.status < U32_LIMIT && IsDigest(f.request) && IsDigest(f.cleanup)
    requires IsNonce(f.nonce)
  {
    [MAGIC, Be32(VERSION), Be32(f.status), Be32(|f.payload|),
     DigestSlot(f.request), NonceSlot(f.nonce), DigestSlot(f.cleanup), f.payload]
  }

  function EncodeResponse(f: Response): Result<seq<byte>, FrameError> {
    if f.payload == [] then Err(EmptyPayload)
    else if |f.payload| > MAX_PAYLOAD then Err(Oversize)
    else if f.status >= U32_LIMIT then Err(BadStatus)
    else if !IsDigest(f.request) then Err(BadDigest)
    else if !IsNonce(f.nonce) then Err(BadNonce)
    else if !IsDigest(f.cleanup) then Err(BadDigest)
    else Ok(Glue(ResponseParts(f)))
  }

  function ResponseOf(parts: seq<seq<byte>>): Result<Response, FrameError>
    requires Fit(parts, RESPONSE_WIDTHS)
  {
    var length := FromBe32(parts[3]);
    match CheckHead(parts[0], FromBe32(parts[1]), length)
    case Some(error) => Err(error)
    case None =>
      if |parts[7]| < length then Err(TruncatedPayload)
      else if |parts[7]| > length then Err(TrailingBytes)
      else Ok(Response(parts[7], FromBe32(parts[2]), SlotDigest(parts[4]), SlotNonce(parts[5]), SlotDigest(parts[6])))
  }

  function DecodeResponse(data: seq<byte>): Result<Response, FrameError> {
    HeaderSizes();
    if |data| < RESPONSE_HEADER then Err(TruncatedHeader)
    else
      GlueOfCut(data, RESPONSE_WIDTHS);
      ResponseOf(Cut(data, RESPONSE_WIDTHS))
  }

  lemma ResponsePartsFit(f: Response)
    requires EncodeResponse(f).Ok?
    ensures Fit(ResponseParts(f), RESPONSE_WIDTHS)
  {
    var parts := ResponseParts(f);
    assert |parts[0]| == 8 && |parts[1]| == 4 && |parts[2]| == 4 && |parts[3]| == 4;
    assert |parts[4]| == 32 && |parts[5]| == 32 && |parts[6]| == 32;
  }

  lemma ResponseWritten(f: Response)
    requires EncodeResponse(f).Ok?
    ensures DecodeResponse(EncodeResponse(f).value) == Ok(f)
  {
    HeaderSizes();
    ResponsePartsRead(f);
    CutOfGlue(ResponseParts(f), RESPONSE_WIDTHS);
  }

  lemma ResponsePartsRead(f: Response)
    requires EncodeResponse(f).Ok?
    ensures Fit(ResponseParts(f), RESPONSE_WIDTHS) && ResponseOf(ResponseParts(f)) == Ok(f)
  {
    ResponsePartsFit(f);
    Be32RoundTrip(VERSION);
    Be32RoundTrip(f.status);
    Be32RoundTrip(|f.payload|);
    DigestRoundTrip(f.request);
    DigestRoundTrip(f.cleanup);
    NonceRoundTrip(f.nonce);
  }

  lemma ResponsePartsBack(parts: seq<seq<byte>>)
    requires Fit(parts, RESPONSE_WIDTHS) && ResponseOf(parts).Ok?
    ensures EncodeResponse(ResponseOf(parts).value) == Ok(Glue(parts))
  {
    var f := ResponseOf(parts).value;
    FromBe32RoundTrip(parts[1]);
    FromBe32RoundTrip(parts[2]);
    FromBe32RoundTrip(parts[3]);
    DigestOfSlot(parts[4]);
    NonceOfSlot(parts[5]);
    DigestOfSlot(parts[6]);
    assert parts == ResponseParts(f);
  }

  lemma ResponseIff(data: seq<byte>, f: Response)
    ensures DecodeResponse(data) == Ok(f) <==> EncodeResponse(f) == Ok(data)
  {
    if DecodeResponse(data) == Ok(f) {
      HeaderSizes();
      GlueOfCut(data, RESPONSE_WIDTHS);
      ResponsePartsBack(Cut(data, RESPONSE_WIDTHS));
    }
    if EncodeResponse(f) == Ok(data) {
      ResponseWritten(f);
    }
  }

  // ---------------------------------------------------------------- the bytes of a frame

  /** Where the parts of a request lie, and where those of a response. */
  lemma RequestOffsets()
    ensures Offset(REQUEST_WIDTHS, 0) == 0 && Offset(REQUEST_WIDTHS, 1) == 8 && Offset(REQUEST_WIDTHS, 2) == 12
    ensures Offset(REQUEST_WIDTHS, 3) == 16 && Offset(REQUEST_WIDTHS, 4) == 48 && Offset(REQUEST_WIDTHS, 5) == 80
    ensures Offset(REQUEST_WIDTHS, 6) == 112 && Offset(REQUEST_WIDTHS, 7) == 144
  {
    OffsetAtMost(REQUEST_WIDTHS, 0);
    OffsetAtMost(REQUEST_WIDTHS, 1);
    OffsetAtMost(REQUEST_WIDTHS, 2);
    OffsetAtMost(REQUEST_WIDTHS, 3);
    OffsetAtMost(REQUEST_WIDTHS, 4);
    OffsetAtMost(REQUEST_WIDTHS, 5);
    OffsetAtMost(REQUEST_WIDTHS, 6);
  }

  lemma ResponseOffsets()
    ensures Offset(RESPONSE_WIDTHS, 0) == 0 && Offset(RESPONSE_WIDTHS, 1) == 8 && Offset(RESPONSE_WIDTHS, 2) == 12
    ensures Offset(RESPONSE_WIDTHS, 3) == 16 && Offset(RESPONSE_WIDTHS, 4) == 20 && Offset(RESPONSE_WIDTHS, 5) == 52
    ensures Offset(RESPONSE_WIDTHS, 6) == 84 && Offset(RESPONSE_WIDTHS, 7) == 116
  {
    OffsetAtMost(RESPONSE_WIDTHS, 0);
    OffsetAtMost(RESPONSE_WIDTHS, 1);
    OffsetAtMost(RESPONSE_WIDTHS, 2);
    OffsetAtMost(RESPONSE_WIDTHS, 3);
    OffsetAtMost(RESPONSE_WIDTHS, 4);
    OffsetAtMost(RESPONSE_WIDTHS, 5);
    OffsetAtMost(RESPONSE_WIDTHS, 6);
  }

  /** The first fault of a frame with a header of `size` bytes whose length field stands at `lengthAt`. */
  function Fault(data: seq<byte>, size: nat, lengthAt: nat): Option<FrameError>
    requires 16 <= lengthAt + 4 <= size
  {
    if |data| < size then Some(TruncatedHeader)
    else if data[..8] != [0x4D, 0x31, 0x57, 0x33, 0x4C, 0x43, 0x48, 0x00] then Some(BadMagic)
    else if data[8..12] != [0, 0, 0, 1] then Some(BadVersion)
    else
      var length := FromBe32(data[lengthAt..lengthAt + 4]);
      if length == 0 then Some(EmptyPayload)
      else if length > 4_194_304 then Some(Oversize)
      else if |data| < size + length then Some(TruncatedPayload)
      else if |data| > size + length then Some(TrailingBytes)
      else None
  }

  lemma VersionOne(field: seq<byte>)
    requires |field| == 4
    ensures FromBe32(field) == 1 <==> field == [0, 0, 0, 1]
  {
    FromBe32Bytes(field);
  }

  /** What a request says and where each part of it lies, byte by byte; or the first fault it has. */
  lemma RequestLayout(data: seq<byte>)
    ensures DecodeRequest(data)
         == match Fault(data, 144, 12)
            case Some(fault) => Err(fault)
            case None =>
              Ok(Request(data[144..], "sha256:" + Hex(data[16..48]), "sha256:" + Hex(data[48..80]),
                         "sha256:" + Hex(data[80..112]), Hex(data[112..144])))
  {
    HeaderSizes();
    if |data| >= REQUEST_HEADER {
      RequestOffsets();
      RequestSlices(data);
      VersionOne(data[8..12]);
    }
  }

  lemma RequestSlices(data: seq<byte>)
    requires |data| >= 144 == Sum(REQUEST_WIDTHS)
    ensures var parts := Cut(data, REQUEST_WIDTHS);
      && parts[0] == data[..8] && parts[1] == data[8..12] && parts[2] == data[12..16]
      && parts[3] == data[16..48] && parts[4] == data[48..80] && parts[5] == data[80..112]
      && parts[6] == data[112..144] && parts[7] == data[144..]
  {
    RequestOffsets();
    CutAt(data, REQUEST_WIDTHS, 0);
    CutAt(data, REQUEST_WIDTHS, 1);
    CutAt(data, REQUEST_WIDTHS, 2);
    CutAt(data, REQUEST_WIDTHS, 3);
    CutAt(data, REQUEST_WIDTHS, 4);
    CutAt(data, REQUEST_WIDTHS, 5);
    CutAt(data, REQUEST_WIDTHS, 6);
    CutAt(data, REQUEST_WIDTHS, 7);
  }

  lemma ResponseSlices(data: seq<byte>)
    requires |data| >= 116 == Sum(RESPONSE_WIDTHS)
    ensures var parts := Cut(data, RESPONSE_WIDTHS);
      && parts[0] == data[..8] && parts[1] == data[8..12] && parts[2] == data[12..16]
      && parts[3] == data[16..20] && parts[4] == data[20..52] && parts[5] == data[52..84]
      && parts[6] == data[84..116] && parts[7] == data[116..]
  {
    ResponseOffsets();
    CutAt(data, RESPONSE_WIDTHS, 0);
    CutAt(data, RESPONSE_WIDTHS, 1);
    CutAt(data, RESPONSE_WIDTHS, 2);
    CutAt(data, RESPONSE_WIDTHS, 3);
    CutAt(data, RESPONSE_WIDTHS, 4);
    CutAt(data, RESPONSE_WIDTHS, 5);
    CutAt(data, RESPONSE_WIDTHS, 6);
    CutAt(data, RESPONSE_WIDTHS, 7);
  }

  lemma ResponseLayout(data: seq<byte>)
    ensures DecodeResponse(data)
         == match Fault(data, 116, 16)
            case Some(fault) => Err(fault)
            case None =>
              Ok(Response(data[116..], FromBe32(data[12..16]), "sha256:" + Hex(data[20..52]), Hex(data[52..84]),
                          "sha256:" + Hex(data[84..116])))
  {
    HeaderSizes();
    if |data| >= RESPONSE_HEADER {
      ResponseOffsets();
      ResponseSlices(data);
      VersionOne(data[8..12]);
    }
  }

  // ---------------------------------------------------------------- readers

  /** The head of a buffer that holds at least a request header. */
  lemma RequestHead(header: seq<byte>, more: seq<byte>)
    requires |header| == REQUEST_HEADER
    ensures |header| >= Sum(REQUEST_WIDTHS)
    ensures var head, parts := Cut(header, REQUEST_WIDTHS), Cut(header + more, REQUEST_WIDTHS);
      && Fit(head, REQUEST_WIDTHS) && Fit(parts, REQUEST_WIDTHS)
      && parts[0] == head[0] && parts[1] == head[1] && parts[2] == head[2] && parts[7] == more
  {
    HeaderSizes();
    var head, parts := Cut(header, REQUEST_WIDTHS), Cut(header + more, REQUEST_WIDTHS);
    GlueOfCut(header, REQUEST_WIDTHS);
    GlueOfCut(header + more, REQUEST_WIDTHS);
    RequestSlices(header);
    RequestSlices(header + more);
  }

  function HeadError(header: seq<byte>): Option<FrameError>
    requires |header| == REQUEST_HEADER
  {
    HeaderSizes();
    GlueOfCut(header, REQUEST_WIDTHS);
    var head := Cut(header, REQUEST_WIDTHS);
    CheckHead(head[0], FromBe32(head[1]), FromBe32(head[2]))
  }

  function HeadLength(header: seq<byte>): nat
    requires |header| == REQUEST_HEADER
  {
    HeaderSizes();
    GlueOfCut(header, REQUEST_WIDTHS);
    FromBe32(Cut(header, REQUEST_WIDTHS)[2])
  }

  /** A stream cannot tell a short header from a short payload. */
  function OnStream(decoded: Result<Request, FrameError>): Result<Request, FrameError> {
    if decoded == Err(TruncatedHeader) || decoded == Err(TruncatedPayload) then Err(TruncatedStream) else decoded
  }

  /** What decoding says about a buffer, by its head and by what is behind the header. */
  lemma DecodeByHead(header: seq<byte>, more: seq<byte>)
    requires |header| == REQUEST_HEADER
    ensures HeadError(header).Some? ==> OnStream(DecodeRequest(header + more)) == Err(HeadError(header).value)
    ensures HeadError(header).None? && |more| < HeadLength(header) ==> DecodeRequest(header + more) == Err(TruncatedPayload)
    ensures HeadError(header).None? && |more| > HeadLength(header) ==> DecodeRequest(header + more) == Err(TrailingBytes)
    ensures HeadError(header).None? && |more| == HeadLength(header) ==> DecodeRequest(header + more).Ok?
  {
    RequestHead(header, more);
  }

  /** Read one request frame and require the stream to end behind it.  For every way the stream may
      split its bytes, the outcome is that of decoding the whole content, frame or error. */
  method ReadRequestFrame(stream: Stream) returns (result: Result<Request, FrameError>)
    modifies stream
    ensures result == OnStream(DecodeRequest(old(stream.rest)))
    ensures result.Ok? ==> stream.rest == []
  {
    ghost var content := stream.rest;
    var header := stream.ReadExact(REQUEST_HEADER);
    if header == None {
      return Err(TruncatedStream);
    }
    DecodeByHead(header.value, stream.rest);
    assert content == header.value + stream.rest;
    var bad := HeadError(header.value);
    if bad.Some? {
      return Err(bad.value);
    }
    result := ReadBehindHeader(stream, header.value, HeadLength(header.value));
  }

  method ReadBehindHeader(stream: Stream, header: seq<byte>, length: nat) returns (result: Result<Request, FrameError>)
    requires |stream.rest| < length ==> DecodeRequest(header + stream.rest) == Err(TruncatedPayload)
    requires |stream.rest| > length ==> DecodeRequest(header + stream.rest) == Err(TrailingBytes)
    requires |stream.rest| == length ==> DecodeRequest(header + stream.rest).Ok?
    modifies stream
    ensures result == OnStream(DecodeRequest(header + old(stream.rest)))
    ensures result.Ok? ==> stream.rest == []
  {
    ghost var body := stream.rest;
    var payload := stream.ReadExact(length);
    if payload == None {
      return Err(TruncatedStream);
    }
    var trailing := stream.Read(1);
    if trailing != [] {
      return Err(TrailingBytes);
    }
    assert payload.value == body;
    return DecodeRequest(header + payload.value);
  }

  function EncodeEnvelope(payload: seq<byte>): Result<seq<byte>, FrameError> {
    if payload == [] then Err(EmptyPayload)
    else if |payload| > MAX_PAYLOAD then Err(Oversize)
    else Ok(Be32(|payload|) + payload)
  }

  /** What a whole stream says as an envelope: its payload, or the first fault of its four length bytes
      and of what follows them. */
  function DecodeEnvelope(data: seq<byte>): Result<seq<byte>, FrameError> {
    if |data| < 4 then Err(TruncatedStream)
    else
      var length := FromBe32(data[..4]);
      if length == 0 then Err(EmptyPayload)
      else if length > MAX_PAYLOAD then Err(Oversize)
      else if |data| < 4 + length then Err(TruncatedStream)
      else if |data| > 4 + length then Err(TrailingBytes)
      else Ok(data[4..])
  }

  /** Read one service envelope: for every chunking, success with a payload means that the whole stream
      was exactly that payload's envelope. */
  method ReadEnvelope(stream: Stream) returns (result: Result<seq<byte>, FrameError>)
    modifies stream
    ensures result == DecodeEnvelope(old(stream.rest))
    ensures result.Ok? ==> EncodeEnvelope(result.value) == Ok(old(stream.rest))
    ensures result.Err? ==> forall payload :: EncodeEnvelope(payload) != Ok(old(stream.rest))
  {
    ghost var content := stream.rest;
    EnvelopeHead(content);
    var prefix := stream.ReadExact(4);
    if prefix == None {
      return Err(TruncatedStream);
    }
    var length := FromBe32(prefix.value);
    if length == 0 {
      return Err(EmptyPayload);
    }
    if length > MAX_PAYLOAD {
      return Err(Oversize);
    }
    var payload := stream.ReadExact(length);
    if payload == None {
      return Err(TruncatedStream);
    }
    var trailing := stream.Read(1);
    if trailing != [] {
      return Err(TrailingBytes);
    }
    FromBe32RoundTrip(prefix.value);
    assert content == prefix.value + payload.value;
    return Ok(payload.value);
  }

  lemma EnvelopeHead(content: seq<byte>)
    ensures forall payload :: EncodeEnvelope(payload) == Ok(content) ==>
              |content| == 4 + |payload| && FromBe32(content[..4]) == |payload| && 0 < |payload| <= MAX_PAYLOAD
  {
    forall payload | EncodeEnvelope(payload) == Ok(content)
      ensures |content| == 4 + |payload| && FromBe32(content[..4]) == |payload| && 0 < |payload| <= MAX_PAYLOAD
    {
      assert content[..4] == Be32(|payload|);
      Be32RoundTrip(|payload|);
    }
  }

  /** The launcher's answer is read to the end of the stream, or refused when it is over the bound; a
      response that decodes always fits. */
  method ReceiveLauncherResponse(stream: Stream) returns (result: Option<seq<byte>>)
    modifies stream
    ensures result == if |old(stream.rest)| <= MAX_LAUNCHER_RESPONSE then Some(old(stream.rest)) else None
    ensures DecodeResponse(old(stream.rest)).Ok? ==> result == Some(old(stream.rest))
  {
    if DecodeResponse(stream.rest).Ok? {
      ResponseFits(stream.rest);
    }
    result := stream.ReadBounded(MAX_LAUNCHER_RESPONSE);
  }

  lemma ResponseFits(data: seq<byte>)
    requires DecodeResponse(data).Ok?
    ensures |data| <= MAX_LAUNCHER_RESPONSE
  {
    HeaderSizes();
    GlueOfCut(data, RESPONSE_WIDTHS);
  }
}
