/** Events of the mux protocol: the eight-byte head and the typed bodies (snova/mux/mux_event.{h,cc}). */
module MuxEvents {
  import opened Wire

  const HEAD_SIZE: nat := 8

  const ERR_NEED_MORE_INPUT_DATA: int := -1000
  const ERR_NEED_MORE_OUTPUT_BUFFER: int := -1001
  const ERR_INVALID_EVENT: int := -1002
  const ERR_TOO_LARGE_EVENT_ENCODE_CONTENT: int := -1003
  const ERR_READ_EOF: int := -1005
  const ERR_TOO_SMALL_EVENT_DECODE_CONTENT: int := -1006
  const ERR_PB_ENCODE: int := -1007
  const ERR_PB_DECODE: int := -1008
  const ERR_CIPHER_HEADER_DECRYPT: int := -1011
  const ERR_CIPHER_BODY_ENCRYPT: int := -1012
  const ERR_CIPHER_BODY_DECRYPT: int := -1013

  // ---- Head ----

  /** One bit `body_no_encrypt` and seven reserved bits. */
  datatype Flags = Flags(bodyNoEncrypt: bool, reserved: Reserved)
  type Reserved = x: int | 0 <= x < 128

  datatype Head = Head(sid: U32, len: U16, kind: Byte, flags: Flags)

  function FlagsByte(f: Flags): Byte {
    (if f.bodyNoEncrypt then 1 else 0) + 2 * f.reserved
  }

  function FlagsOf(b: Byte): Flags {
    Flags(b % 2 == 1, b / 2)
  }

  function EncodeHead(h: Head): (b: Bytes)
    ensures |b| == HEAD_SIZE
  {
    BigEndian(h.sid, 4) + BigEndian(h.len, 2) + [h.kind] + [FlagsByte(h.flags)]
  }

  function DecodeHead(b: Bytes): Head
    requires |b| >= HEAD_SIZE
  {
    FromBigEndianRoundTrip(b[..4]);
    FromBigEndianRoundTrip(b[4..6]);
    Pow256Values();
    Head(FromBigEndian(b[..4]), FromBigEndian(b[4..6]), b[6], FlagsOf(b[7]))
  }

  lemma HeadRoundTrip(h: Head, rest: Bytes)
    ensures DecodeHead(EncodeHead(h) + rest) == h
  {
    var b := EncodeHead(h) + rest;
    Pow256Values();
    BigEndianRoundTrip(h.sid, 4);
    BigEndianRoundTrip(h.len, 2);
    assert b[..4] == BigEndian(h.sid, 4);
    assert b[4..6] == BigEndian(h.len, 2);
  }

  lemma HeadRoundTripBack(b: Bytes)
    requires |b| >= HEAD_SIZE
    ensures EncodeHead(DecodeHead(b)) == b[..HEAD_SIZE]
  {
    FromBigEndianRoundTrip(b[..4]);
    FromBigEndianRoundTrip(b[4..6]);
    assert b[..HEAD_SIZE] == b[..4] + b[4..6] + [b[6]] + [b[7]];
  }

  /** The layout of a head: the stream id and the body length with their high bytes first, the type, and the flags with the
      "body not encrypted" bit lowest. */
  lemma HeadBytes(h: Head)
    ensures EncodeHead(h) ==
            [h.sid / 256 / 256 / 256, h.sid / 256 / 256 % 256, h.sid / 256 % 256, h.sid % 256, h.len / 256, h.len % 256, h.kind,
             (if h.flags.bodyNoEncrypt then 1 else 0) + 2 * h.flags.reserved]
  {
    hide BigEndian, Digit;
    DigitValues(h.sid);
    DigitValues(h.len);
    BigEndianAt(h.sid, 4, 0);
    BigEndianAt(h.sid, 4, 1);
    BigEndianAt(h.sid, 4, 2);
    BigEndianAt(h.sid, 4, 3);
    BigEndianAt(h.len, 2, 0);
    BigEndianAt(h.len, 2, 1);
  }

  // ---- Bodies ----

  datatype Body =
    | AuthRequest(user: string, clientId: U64, isEntry: bool, isExit: bool, isMiddle: bool)
    | AuthResponse(success: bool, iv: U64)
    | StreamOpen(remoteHost: string, remotePort: U32, isTcp: bool, isTls: bool)
    | StreamClose
    | StreamChunk(data: Bytes)
    | RetireConn
    | TunnelOpenRequest(localHost: string, localPort: U32, tunnelPort: U32, tunnelTcp: bool)
    | TunnelOpenResponse(accepted: bool, tunnelId: U64, errc: int)
    | TunnelCloseRequest(closeId: U64)
    | CommonResponse(ok: bool, code: int, reason: string)
  {
    function Kind(): Byte {
      match this
      case AuthRequest(_, _, _, _, _) => 1
      case AuthResponse(_, _) => 2
      case StreamOpen(_, _, _, _) => 3
      case StreamClose => 4
      case StreamChunk(_) => 5
      case RetireConn => 6
      case TunnelOpenRequest(_, _, _, _) => 7
      case TunnelOpenResponse(_, _, _) => 8
      case TunnelCloseRequest(_) => 9
      case CommonResponse(_, _, _) => 100
    }

    /** The bodies whose bytes are written and read by nanopb. */
    predicate Protobuf() {
      !StreamClose? && !StreamChunk? && !RetireConn?
    }
  }

  /** The body of a freshly constructed event of the given type; None for an unknown type. */
  function NewBody(kind: Byte): (b: Option<Body>)
    ensures b.Some? <==> 1 <= kind <= 9 || kind == 100
    ensures b.Some? ==> b.value.Kind() == kind
  {
    match kind
    case 1 => Some(AuthRequest("", 0, false, false, false))
    case 2 => Some(AuthResponse(false, 0))
    case 3 => Some(StreamOpen("", 0, false, false))
    case 4 => Some(StreamClose)
    case 5 => Some(StreamChunk([]))
    case 6 => Some(RetireConn)
    case 7 => Some(TunnelOpenRequest("", 0, 0, false))
    case 8 => Some(TunnelOpenResponse(false, 0, 0))
    case 9 => Some(TunnelCloseRequest(0))
    case 100 => Some(CommonResponse(false, 0, ""))
    case _ => None
  }

  /** The type numbers of the protocol. */
  lemma TypeNumbers(b: Body)
    ensures b.Kind() == 1 <==> b.AuthRequest?
    ensures b.Kind() == 2 <==> b.AuthResponse?
    ensures b.Kind() == 3 <==> b.StreamOpen?
    ensures b.Kind() == 4 <==> b.StreamClose?
    ensures b.Kind() == 5 <==> b.StreamChunk?
    ensures b.Kind() == 6 <==> b.RetireConn?
    ensures b.Kind() == 7 <==> b.TunnelOpenRequest?
    ensures b.Kind() == 8 <==> b.TunnelOpenResponse?
    ensures b.Kind() == 9 <==> b.TunnelCloseRequest?
    ensures b.Kind() == 100 <==> b.CommonResponse?
  {
  }

  datatype Event = Event(head: Head, body: Body) {
    /** The type in the head names the class of the event. */
    predicate Typed() {
      head.kind == body.Kind()
    }
  }

  // ---- The protobuf codec ----

  const MAX_PB: nat := 530

  /** `pb_encode_delimited` and `pb_decode_delimited`; decoding is told which message to expect. */
  datatype CodecFunctions = CodecFunctions(encode: Body -> Option<Bytes>, decode: (Byte, Bytes) -> Option<Body>)

  /** Encoding can fail. A delimited message has at least its length prefix and at most 528 + 2 bytes, and
      decoding it gives the message back. */
  ghost predicate CodecLaws(c: CodecFunctions) {
    && (forall b: Body :: b.Protobuf() && c.encode(b).Some? ==>
          && 1 <= |c.encode(b).value| <= MAX_PB
          && c.decode(b.Kind(), c.encode(b).value) == Some(b))
    && (forall k: Byte, bs: Bytes :: c.decode(k, bs).Some? ==> c.decode(k, bs).value.Kind() == k)
  }

  type Codec = c: CodecFunctions | CodecLaws(c) ghost witness TinyCodec()

  /** The laws are satisfiable by a codec that knows a single message. */
  ghost function TinyCodec(): (c: CodecFunctions)
    ensures CodecLaws(c)
  {
    CodecFunctions(
      (b: Body) => if b == TunnelCloseRequest(0) then Some([0]) else None,
      (k: Byte, bs: Bytes) => if k == 9 then Some(TunnelCloseRequest(0)) else None)
  }

  datatype Encoded = EncodedBytes(bytes: Bytes) | EncodeError(code: int)
  datatype Decoded = DecodedBody(body: Body) | DecodeError(code: int)

  /** `MuxEvent::Encode` into a buffer of `room` bytes. */
  function EncodeBody(pb: Codec, body: Body, room: nat): (r: Encoded)
    ensures r.EncodedBytes? ==> |r.bytes| <= room
    ensures r.EncodedBytes? && body.Protobuf() ==> 1 <= |r.bytes| <= MAX_PB
  {
    match body
    case StreamClose => EncodedBytes([])
    case RetireConn => EncodedBytes([])
    case StreamChunk(data) =>
      if room < |data| then EncodeError(ERR_TOO_LARGE_EVENT_ENCODE_CONTENT) else EncodedBytes(data)
    case _ =>
      var bs := pb.encode(body);
      if bs.None? || |bs.value| > room then EncodeError(ERR_PB_ENCODE) else EncodedBytes(bs.value)
  }

  /** `MuxEvent::Decode` of an event that `NewEvent` built from `head`. */
  function DecodeBody(pb: Codec, head: Head, bytes: Bytes): (r: Decoded)
    requires NewBody(head.kind).Some?
    ensures r.DecodedBody? ==> r.body.Kind() == head.kind
  {
    match NewBody(head.kind).value
    case StreamClose => DecodedBody(StreamClose)
    case RetireConn => DecodedBody(RetireConn)
    case StreamChunk(_) =>
      if head.len > 2 * MAX_CHUNK then DecodeError(ERR_INVALID_EVENT)
      else if |bytes| < head.len then DecodeError(ERR_TOO_SMALL_EVENT_DECODE_CONTENT)
      else DecodedBody(StreamChunk(bytes[..head.len]))
    case _ =>
      var b := pb.decode(head.kind, bytes);
      if b.None? then DecodeError(ERR_PB_DECODE) else DecodedBody(b.value)
  }

  /** Decoding undoes encoding, for an event whose head carries the length of its encoding. */
  lemma BodyRoundTrip(pb: Codec, e: Event, room: nat)
    requires e.Typed()
    requires EncodeBody(pb, e.body, room).EncodedBytes?
    requires e.head.len == |EncodeBody(pb, e.body, room).bytes| <= 2 * MAX_CHUNK
    ensures DecodeBody(pb, e.head, EncodeBody(pb, e.body, room).bytes) == DecodedBody(e.body)
  {
    if e.body.StreamChunk? {
      assert e.body.data[..e.head.len] == e.body.data;
    }
  }
}
