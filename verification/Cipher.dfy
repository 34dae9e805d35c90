/** Sealing an event into a frame and opening a frame back into an event, under a counter nonce
    (snova/mux/cipher_context.cc, the AEAD branch). */
module Cipher {
  import opened Wire
  import opened MuxEvents

  /** The counter every connection starts from. */
  const DEFAULT_IV: U64 := 102477889876

  const SEALED_HEAD: nat := HEAD_SIZE + TAG_LEN
  /** The size of the connection's write buffer and of the cipher's encode buffer. */
  const OUT_SIZE: nat := MAX_CHUNK + HEAD_SIZE + RESERVED_BUFFER
  const ENCODE_SIZE: nat := MAX_CHUNK + HEAD_SIZE + RESERVED_BUFFER
  const DECODE_SIZE: nat := MAX_CHUNK + RESERVED_BUFFER
  /** The longest body `Decrypt` accepts. */
  const MAX_BODY: nat := MAX_CHUNK + 128
  /** No accepted frame is longer than this. */
  const MAX_FRAME: nat := SEALED_HEAD + MAX_BODY + TAG_LEN

  // ---- What Encrypt and Decrypt compute ----

  datatype Sealed = SealedFrame(frame: Bytes, event: Event) | SealError(code: int, event: Event)
  datatype Opened = OpenedEvent(event: Event, len: nat) | NeedMore | OpenError(code: int)

  function FrameBytes(aead: Aead, iv: U64, head: Head, body: Bytes): (f: Bytes)
    ensures |f| == FrameLen(head.flags.bodyNoEncrypt, |body|)
  {
    aead.seal(iv, EncodeHead(head)) +
    if |body| > 0 && !head.flags.bodyNoEncrypt then aead.seal(iv, body) else body
  }

  function FrameLen(noEncrypt: bool, bodyLen: nat): nat {
    SEALED_HEAD + bodyLen + if !noEncrypt && bodyLen > 0 then TAG_LEN else 0
  }

  /** The room `Encrypt` gives to the body: behind the head in the output, or in the encode buffer. */
  function BodyRoom(e: Event, outSize: nat): nat
    requires outSize >= SEALED_HEAD
  {
    if e.head.flags.bodyNoEncrypt then outSize - SEALED_HEAD else ENCODE_SIZE - HEAD_SIZE
  }

  /** `Encrypt` with an output span of `outSize` bytes; the event comes back with its length field set. */
  function Seal(aead: Aead, pb: Codec, iv: U64, e: Event, outSize: nat): Sealed {
    if outSize < HEAD_SIZE + MAX_CHUNK + 2 * TAG_LEN then SealError(ERR_NEED_MORE_OUTPUT_BUFFER, e)
    else
      var enc := EncodeBody(pb, e.body, BodyRoom(e, outSize));
      if enc.EncodeError? then SealError(enc.code, e)
      else
        var e' := e.(head := e.head.(len := |enc.bytes| % 0x1_0000));
        if |enc.bytes| > 0 && !e.head.flags.bodyNoEncrypt && |enc.bytes| + TAG_LEN > outSize - SEALED_HEAD then
          SealError(ERR_CIPHER_BODY_ENCRYPT, e')
        else
          SealedFrame(FrameBytes(aead, iv, e'.head, enc.bytes), e')
  }

  /** `Decrypt` of the bytes at hand. */
  function Open(aead: Aead, pb: Codec, iv: U64, input: Bytes): (r: Opened)
    ensures r.NeedMore? ==> |input| < 8360 == MAX_FRAME
    ensures r.OpenedEvent? ==> 24 == SEALED_HEAD <= r.len <= |input| && r.len <= 8360 && r.event.Typed()
  {
    if |input| < SEALED_HEAD then NeedMore
    else
      var plain := aead.open(iv, input[..SEALED_HEAD]);
      if plain.None? then OpenError(ERR_CIPHER_HEADER_DECRYPT)
      else
        var head := DecodeHead(plain.value);
        if head.len > MAX_BODY then OpenError(ERR_INVALID_EVENT)
        else if |input| < FrameLen(head.flags.bodyNoEncrypt, head.len) then NeedMore
        else if NewBody(head.kind).None? then OpenError(ERR_INVALID_EVENT)
        else if head.len == 0 then OpenedEvent(Event(head, NewBody(head.kind).value), SEALED_HEAD)
        else OpenBody(aead, pb, iv, head, input)
  }

  /** The last part of `Decrypt`: the body of a complete frame. */
  function OpenBody(aead: Aead, pb: Codec, iv: U64, head: Head, input: Bytes): (r: Opened)
    requires NewBody(head.kind).Some?
    requires |input| >= FrameLen(head.flags.bodyNoEncrypt, head.len)
    ensures r.OpenedEvent? ==> r.len == FrameLen(head.flags.bodyNoEncrypt, head.len)
    ensures r.OpenedEvent? ==> r.event.head == head && r.event.Typed()
    ensures !r.NeedMore?
  {
    var total := FrameLen(head.flags.bodyNoEncrypt, head.len);
    var body :=
      if head.flags.bodyNoEncrypt || head.len == 0 then Some(input[SEALED_HEAD..total])
      else aead.open(iv, input[SEALED_HEAD..total]);
    if body.None? then OpenError(ERR_CIPHER_BODY_DECRYPT)
    else
      match DecodeBody(pb, head, body.value)
      case DecodeError(code) => OpenError(code)
      case DecodedBody(b) => OpenedEvent(Event(head, b), total)
  }

  /** The body bytes of an event that was sealed into the write buffer. */
  function BodyOf(pb: Codec, e: Event): Bytes {
    match EncodeBody(pb, e.body, BodyRoom(e, OUT_SIZE))
    case EncodedBytes(bytes) => bytes
    case EncodeError(_) => []
  }

  // ---- Exactly which events can be sealed, and which of those the peer accepts ----

  /** Into the write buffer, `Encrypt` succeeds exactly when the body encodes and fits behind the head. */
  lemma SealSucceedsExactlyWhen(aead: Aead, pb: Codec, iv: U64, e: Event)
    ensures Seal(aead, pb, iv, e, OUT_SIZE).SealedFrame? <==>
            match e.body
            case StreamChunk(data) => |data| <= if e.head.flags.bodyNoEncrypt then 8432 else 8416
            case StreamClose => true
            case RetireConn => true
            case _ => pb.encode(e.body).Some?
    ensures var s := Seal(aead, pb, iv, e, OUT_SIZE);
            s.SealedFrame? ==>
              && s.event == e.(head := e.head.(len := |BodyOf(pb, e)|))
              && s.frame == FrameBytes(aead, iv, s.event.head, BodyOf(pb, e))
              && |s.frame| <= OUT_SIZE
  {
    hide FrameBytes;
    assert |BodyOf(pb, e)| < 0x1_0000;
  }

  /** The head of a sealed frame opens to the head that was sealed, in any context. */
  lemma SealedHeadOpens(aead: Aead, iv: U64, head: Head, body: Bytes, rest: Bytes)
    ensures var input := FrameBytes(aead, iv, head, body) + rest;
            var plain := aead.open(iv, input[..SEALED_HEAD]);
            plain.Some? && |plain.value| >= HEAD_SIZE && DecodeHead(plain.value) == head
  {
    var input := FrameBytes(aead, iv, head, body) + rest;
    assert input[..SEALED_HEAD] == aead.seal(iv, EncodeHead(head));
    HeadRoundTrip(head, []);
    assert EncodeHead(head) + [] == EncodeHead(head);
  }

  /** Decrypt undoes Encrypt, whatever follows the frame, for both body modes. */
  lemma SealThenOpen(aead: Aead, pb: Codec, iv: U64, e: Event, rest: Bytes)
    requires e.Typed()
    requires Seal(aead, pb, iv, e, OUT_SIZE).SealedFrame?
    requires |BodyOf(pb, e)| <= MAX_BODY
    ensures var s := Seal(aead, pb, iv, e, OUT_SIZE);
            Open(aead, pb, iv, s.frame + rest) == OpenedEvent(s.event, |s.frame|)
  {
    var s := Seal(aead, pb, iv, e, OUT_SIZE);
    SealSucceedsExactlyWhen(aead, pb, iv, e);
    var body := BodyOf(pb, e);
    var input := s.frame + rest;
    SealedHeadOpens(aead, iv, s.event.head, body, rest);
    if |body| > 0 {
      BodyRoundTrip(pb, s.event, BodyRoom(e, OUT_SIZE));
      assert input[SEALED_HEAD..|s.frame|] ==
             if e.head.flags.bodyNoEncrypt then body else aead.seal(iv, body);
    }
  }

  /** A longer body than the peer's limit is sealed without complaint and then refused by the peer: the round
      trip holds exactly for bodies of at most 8320 bytes. */
  lemma RoundTripExactlyWhen(aead: Aead, pb: Codec, iv: U64, e: Event, rest: Bytes)
    requires e.Typed()
    requires Seal(aead, pb, iv, e, OUT_SIZE).SealedFrame?
    ensures var s := Seal(aead, pb, iv, e, OUT_SIZE);
            && (Open(aead, pb, iv, s.frame + rest) == OpenedEvent(s.event, |s.frame|) <==> |BodyOf(pb, e)| <= MAX_BODY)
            && (|BodyOf(pb, e)| > MAX_BODY ==> Open(aead, pb, iv, s.frame + rest) == OpenError(ERR_INVALID_EVENT))
  {
    if |BodyOf(pb, e)| <= MAX_BODY {
      SealThenOpen(aead, pb, iv, e, rest);
    } else {
      var s := Seal(aead, pb, iv, e, OUT_SIZE);
      SealSucceedsExactlyWhen(aead, pb, iv, e);
      SealedHeadOpens(aead, iv, s.event.head, BodyOf(pb, e), rest);
    }
  }

  /** In plain numbers, for every data chunk: Encrypt seals it up to 8416 bytes, or 8432 in the clear; the frame is the
      sealed head and, if there is a body, the body, sealed under the same counter or in the clear; and the peer accepts
      the frame if and only if the chunk has at most 8320 bytes. */
  lemma ChunkRoundTripExactlyWhen(aead: Aead, pb: Codec, iv: U64, e: Event, rest: Bytes)
    requires e.Typed() && e.body.StreamChunk?
    requires |e.body.data| <= if e.head.flags.bodyNoEncrypt then 8432 else 8416
    ensures var s := Seal(aead, pb, iv, e, OUT_SIZE); var d := e.body.data; var clear := e.head.flags.bodyNoEncrypt;
            && s.SealedFrame? && s.event == e.(head := e.head.(len := |d|))
            && s.frame == aead.seal(iv, EncodeHead(s.event.head)) +
                          (if d == [] then [] else if clear then d else aead.seal(iv, d))
            && |s.frame| == 24 + |d| + (if d == [] || clear then 0 else 16)
            && (Open(aead, pb, iv, s.frame + rest) == OpenedEvent(s.event, |s.frame|) <==> |d| <= 8320)
            && (|d| > 8320 ==> Open(aead, pb, iv, s.frame + rest) == OpenError(ERR_INVALID_EVENT))
  {
    SealSucceedsExactlyWhen(aead, pb, iv, e);
    hide Seal, Open;
    RoundTripExactlyWhen(aead, pb, iv, e, rest);
  }

  /** The two events without a body are a sealed head and nothing else. */
  lemma BodilessFrames(aead: Aead, pb: Codec, iv: U64, e: Event)
    requires e.body.StreamClose? || e.body.RetireConn?
    ensures var h := e.head.(len := 0);
            Seal(aead, pb, iv, e, OUT_SIZE) == SealedFrame(aead.seal(iv, EncodeHead(h)), e.(head := h))
  {
    hide EncodeHead;
    assert aead.seal(iv, EncodeHead(e.head.(len := 0))) + [] == aead.seal(iv, EncodeHead(e.head.(len := 0)));
  }

  /** Why Encrypt fails: a chunk too long for its buffer, one that fits unsealed but not sealed, or a message that nanopb
      does not encode. */
  lemma SealErrors(aead: Aead, pb: Codec, iv: U64, e: Event)
    ensures var s := Seal(aead, pb, iv, e, OUT_SIZE);
            s.SealError? ==>
              s.code == match e.body
                        case StreamChunk(d) =>
                          if |d| > (if e.head.flags.bodyNoEncrypt then 8432 else 8448) then -1003 else -1012
                        case _ => -1007
  {
    hide FrameBytes;
  }

  /** Why Decrypt fails: the head does not authenticate, exactly then -1011; it does, but announces more than 8320 bytes,
      then -1002; it is all there, but its type is unknown, then -1002 too; or a sealed body does not authenticate, then
      -1013. */
  lemma OpenErrors(aead: Aead, pb: Codec, iv: U64, input: Bytes)
    requires |input| >= 24
    ensures var plain := aead.open(iv, input[..24]); var r := Open(aead, pb, iv, input);
            && (r == OpenError(-1011) <==> plain.None?)
            && (plain.Some? ==>
                  && |plain.value| == 8
                  && var h := DecodeHead(plain.value); var sealedBody := !h.flags.bodyNoEncrypt && h.len > 0;
                     && (h.len > 8320 ==> r == OpenError(-1002))
                     && (h.len <= 8320 && |input| >= 24 + h.len + (if sealedBody then 16 else 0) ==>
                           && !r.NeedMore?
                           && (NewBody(h.kind).None? ==> r == OpenError(-1002))
                           && (NewBody(h.kind).Some? && sealedBody && aead.open(iv, input[24..24 + h.len + 16]).None? ==>
                                 r == OpenError(-1013))))
  {
    hide DecodeHead, NewBody;
    var plain := aead.open(iv, input[..24]);
    if plain.Some? {
      assert |aead.seal(iv, plain.value)| == |plain.value| + 16;
    }
  }

  lemma OversizedChunkExample(aead: Aead, pb: Codec, iv: U64)
    ensures var e := Event(Head(1, 0, 5, Flags(false, 0)), StreamChunk(seq(8321, i => 0)));
            var s := Seal(aead, pb, iv, e, OUT_SIZE);
            s.SealedFrame? && Open(aead, pb, iv, s.frame) == OpenError(ERR_INVALID_EVENT)
  {
    var e := Event(Head(1, 0, 5, Flags(false, 0)), StreamChunk(seq(8321, i => 0)));
    SealSucceedsExactlyWhen(aead, pb, iv, e);
    RoundTripExactlyWhen(aead, pb, iv, e, []);
    var s := Seal(aead, pb, iv, e, OUT_SIZE);
    assert s.frame + [] == s.frame;
  }

  /** On every strict prefix of an acceptable frame Decrypt asks for more. */
  lemma StrictPrefixNeedsMore(aead: Aead, pb: Codec, iv: U64, e: Event, k: nat)
    requires e.Typed()
    requires Seal(aead, pb, iv, e, OUT_SIZE).SealedFrame?
    requires |BodyOf(pb, e)| <= MAX_BODY
    requires k < |Seal(aead, pb, iv, e, OUT_SIZE).frame|
    ensures Open(aead, pb, iv, Seal(aead, pb, iv, e, OUT_SIZE).frame[..k]) == NeedMore
  {
    var s := Seal(aead, pb, iv, e, OUT_SIZE);
    SealSucceedsExactlyWhen(aead, pb, iv, e);
    if k >= SEALED_HEAD {
      SealedHeadOpens(aead, iv, s.event.head, BodyOf(pb, e), []);
      assert (s.frame + [])[..SEALED_HEAD] == s.frame[..k][..SEALED_HEAD];
    }
  }

  /** Once the answer is not "need more", later bytes do not change it. */
  lemma OpenIgnoresSuffix(aead: Aead, pb: Codec, iv: U64, input: Bytes, rest: Bytes)
    requires !Open(aead, pb, iv, input).NeedMore?
    ensures Open(aead, pb, iv, input + rest) == Open(aead, pb, iv, input)
  {
    assert (input + rest)[..SEALED_HEAD] == input[..SEALED_HEAD];
    var plain := aead.open(iv, input[..SEALED_HEAD]);
    if plain.Some? {
      var head := DecodeHead(plain.value);
      var total := FrameLen(head.flags.bodyNoEncrypt, head.len);
      if head.len <= MAX_BODY {
        assert (input + rest)[SEALED_HEAD..total] == input[SEALED_HEAD..total];
      }
    }
  }

  /** The front of an accepted frame is the sealed head of the event it yields. */
  lemma AcceptedHeadWasSealed(aead: Aead, pb: Codec, iv: U64, input: Bytes)
    requires Open(aead, pb, iv, input).OpenedEvent?
    ensures var r := Open(aead, pb, iv, input);
            && input[..SEALED_HEAD] == aead.seal(iv, EncodeHead(r.event.head))
            && r.len == FrameLen(r.event.head.flags.bodyNoEncrypt, r.event.head.len)
            && r.event.head.len <= MAX_BODY
  {
    hide OpenBody;
    var plain := aead.open(iv, input[..SEALED_HEAD]).value;
    HeadRoundTripBack(plain);
    assert |aead.seal(iv, plain)| == |plain| + TAG_LEN;
    assert plain[..HEAD_SIZE] == plain;
  }

  /** The rest of an accepted data chunk is its body, sealed or in the clear. */
  lemma AcceptedChunkBody(aead: Aead, pb: Codec, iv: U64, head: Head, input: Bytes)
    requires head.kind == 5 && 0 < head.len <= MAX_BODY
    requires |input| >= FrameLen(head.flags.bodyNoEncrypt, head.len)
    requires OpenBody(aead, pb, iv, head, input).OpenedEvent?
    ensures var r := OpenBody(aead, pb, iv, head, input);
            && r.event.body.StreamChunk? && |r.event.body.data| == head.len
            && input[SEALED_HEAD..r.len] ==
               if head.flags.bodyNoEncrypt then r.event.body.data else aead.seal(iv, r.event.body.data)
  {
    var r := OpenBody(aead, pb, iv, head, input);
    var sealedBody := input[SEALED_HEAD..r.len];
    if head.flags.bodyNoEncrypt {
      assert sealedBody[..head.len] == sealedBody;
    } else {
      var body := aead.open(iv, sealedBody).value;
      assert |aead.seal(iv, body)| == |body| + TAG_LEN;
      assert body[..head.len] == body;
    }
  }

  /** Nothing but a frame made by Encrypt under the same counter is accepted as a data chunk. */
  lemma AcceptedChunkWasSealed(aead: Aead, pb: Codec, iv: U64, input: Bytes)
    requires Open(aead, pb, iv, input).OpenedEvent? && Open(aead, pb, iv, input).event.body.StreamChunk?
    ensures var r := Open(aead, pb, iv, input);
            Seal(aead, pb, iv, r.event, OUT_SIZE) == SealedFrame(input[..r.len], r.event)
  {
    hide OpenBody, DecodeHead, EncodeHead;
    var r := Open(aead, pb, iv, input);
    AcceptedHeadWasSealed(aead, pb, iv, input);
    assert input[..r.len] == input[..SEALED_HEAD] + input[SEALED_HEAD..r.len];
    if r.event.head.len > 0 {
      AcceptedChunkBody(aead, pb, iv, r.event.head, input);
    }
  }
}
