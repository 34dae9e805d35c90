/** The cipher context object: two counters and two scratch buffers, updated in place
    (snova/mux/cipher_context.cc). */
module CipherContexts {
  import opened Wire
  import opened MuxEvents
  import opened Cipher

  class CipherContext {
    const aead: Aead
    const pb: Codec
    var encryptIv: U64
    var decryptIv: U64
    const encodeBuffer: array<Byte>
    const decodeBuffer: array<Byte>

    ghost predicate Valid() {
      && encodeBuffer.Length == ENCODE_SIZE
      && decodeBuffer.Length == DECODE_SIZE
      && encodeBuffer != decodeBuffer
    }

    constructor (aead: Aead, pb: Codec)
      ensures Valid() && this.aead == aead && this.pb == pb
      ensures encryptIv == decryptIv == DEFAULT_IV == 102477889876
      ensures fresh(encodeBuffer) && fresh(decodeBuffer)
    {
      this.aead := aead;
      this.pb := pb;
      encryptIv, decryptIv := DEFAULT_IV, DEFAULT_IV;
      encodeBuffer := new Byte[ENCODE_SIZE](_ => 0);
      decodeBuffer := new Byte[DECODE_SIZE](_ => 0);
    }

    /** Both directions restart at the negotiated counter. */
    method UpdateNonce(nonce: U64)
      modifies this`encryptIv, this`decryptIv
      ensures encryptIv == nonce && decryptIv == nonce
    {
      encryptIv := nonce;
      decryptIv := nonce;
    }

    /** The head goes through the encode buffer and is sealed into the front of `out`. */
    method SealHead(head: Head, out: array<Byte>)
      requires Valid() && out != encodeBuffer && out.Length >= SEALED_HEAD
      modifies encodeBuffer, out
      ensures out[..SEALED_HEAD] == aead.seal(encryptIv, EncodeHead(head))
      ensures out[SEALED_HEAD..] == old(out[SEALED_HEAD..])
      ensures encodeBuffer[HEAD_SIZE..] == old(encodeBuffer[HEAD_SIZE..])
    {
      CopyInto(EncodeHead(head), encodeBuffer, 0);
      assert encodeBuffer[..HEAD_SIZE] == encodeBuffer[0..0 + HEAD_SIZE];
      var sealedHead := aead.seal(encryptIv, encodeBuffer[..HEAD_SIZE]);
      CopyInto(sealedHead, out, 0);
      assert out[..SEALED_HEAD] == out[0..0 + |sealedHead|];
    }

    /** The body is encoded behind the place of the sealed head, or into the encode buffer. */
    method EncodeBodyInto(e: Event, out: array<Byte>) returns (rc: int, bodyLen: nat)
      requires Valid() && out != encodeBuffer && out.Length >= SEALED_HEAD
      modifies encodeBuffer, out
      ensures match EncodeBody(pb, e.body, BodyRoom(e, out.Length))
              case EncodeError(code) => rc == code != 0
              case EncodedBytes(bytes) =>
                && rc == 0 && bodyLen == |bytes|
                && (if e.head.flags.bodyNoEncrypt
                    then SEALED_HEAD + bodyLen <= out.Length && out[SEALED_HEAD..SEALED_HEAD + bodyLen] == bytes
                    else HEAD_SIZE + bodyLen <= ENCODE_SIZE && encodeBuffer[HEAD_SIZE..HEAD_SIZE + bodyLen] == bytes)
    {
      var enc := EncodeBody(pb, e.body, BodyRoom(e, out.Length));
      if enc.EncodeError? {
        return enc.code, 0;
      }
      if e.head.flags.bodyNoEncrypt {
        CopyInto(enc.bytes, out, SEALED_HEAD);
      } else {
        CopyInto(enc.bytes, encodeBuffer, HEAD_SIZE);
      }
      return 0, |enc.bytes|;
    }

    /** Seals `e` at the front of `out`. A failure leaves the counter alone. */
    method Encrypt(e: Event, out: array<Byte>) returns (rc: int, total: nat, e': Event)
      requires Valid() && out != encodeBuffer && out != decodeBuffer
      modifies this`encryptIv, encodeBuffer, out
      ensures match Seal(aead, pb, old(encryptIv), e, out.Length)
              case SealedFrame(frame, ev) =>
                && rc == 0 && e' == ev && encryptIv == Succ64(old(encryptIv))
                && total == |frame| <= out.Length && out[..total] == frame
              case SealError(code, ev) =>
                rc == code != 0 && e' == ev && encryptIv == old(encryptIv)
    {
      hide EncodeBody, EncodeHead;
      e', total := e, 0;
      if out.Length < HEAD_SIZE + MAX_CHUNK + 2 * TAG_LEN {
        return ERR_NEED_MORE_OUTPUT_BUFFER, 0, e;
      }
      var bodyLen;
      rc, bodyLen := EncodeBodyInto(e, out);
      if rc != 0 {
        return rc, 0, e;
      }
      ghost var body := EncodeBody(pb, e.body, BodyRoom(e, out.Length)).bytes;
      e' := e.(head := e.head.(len := bodyLen % 0x1_0000));
      SealHead(e'.head, out);
      total := SEALED_HEAD + bodyLen;
      if bodyLen > 0 && !e.head.flags.bodyNoEncrypt {
        if bodyLen + TAG_LEN > out.Length - SEALED_HEAD {
          return ERR_CIPHER_BODY_ENCRYPT, 0, e';
        }
        assert encodeBuffer[HEAD_SIZE..HEAD_SIZE + bodyLen] == encodeBuffer[HEAD_SIZE..][..bodyLen] == body;
        var sealedBody := aead.seal(encryptIv, encodeBuffer[HEAD_SIZE..HEAD_SIZE + bodyLen]);
        CopyInto(sealedBody, out, SEALED_HEAD);
        total := SEALED_HEAD + |sealedBody|;
      } else if bodyLen > 0 {
        assert out[SEALED_HEAD..total] == out[SEALED_HEAD..][..bodyLen] == body;
      }
      assert out[..total] == out[..SEALED_HEAD] + out[SEALED_HEAD..total];
      encryptIv := Succ64(encryptIv);
      rc := 0;
    }

    /** Opens one event from the front of `input`; only a success moves the counter. */
    method Decrypt(input: Bytes) returns (rc: int, ev: Option<Event>, decryptLen: nat)
      requires Valid()
      modifies this`decryptIv, decodeBuffer
      ensures match Open(aead, pb, old(decryptIv), input)
              case OpenedEvent(event, len) =>
                rc == 0 && ev == Some(event) && decryptLen == len && decryptIv == Succ64(old(decryptIv))
              case NeedMore => rc == ERR_NEED_MORE_INPUT_DATA && decryptIv == old(decryptIv)
              case OpenError(code) => rc == code && rc != 0 && rc != ERR_NEED_MORE_INPUT_DATA && decryptIv == old(decryptIv)
    {
      ev, decryptLen := None, 0;
      if |input| < SEALED_HEAD {
        return ERR_NEED_MORE_INPUT_DATA, None, 0;
      }
      var headPlain := aead.open(decryptIv, input[..SEALED_HEAD]);
      if headPlain.None? {
        return ERR_CIPHER_HEADER_DECRYPT, None, 0;
      }
      var head := DecodeHead(headPlain.value);
      if head.len > MAX_CHUNK + 128 {
        return ERR_INVALID_EVENT, None, 0;
      }
      decryptLen := HEAD_SIZE + TAG_LEN;
      var expectedLen := HEAD_SIZE + head.len + TAG_LEN;
      if !head.flags.bodyNoEncrypt && head.len > 0 {
        expectedLen := expectedLen + TAG_LEN;
      }
      if |input| < expectedLen {
        return ERR_NEED_MORE_INPUT_DATA, None, decryptLen;
      }
      var fresh' := NewBody(head.kind);
      if fresh'.None? {
        return ERR_INVALID_EVENT, None, decryptLen;
      }
      if head.len == 0 {
        decryptIv := Succ64(decryptIv);
        return 0, Some(Event(head, fresh'.value)), decryptLen;
      }
      var body: Bytes;
      if head.flags.bodyNoEncrypt {
        body := input[SEALED_HEAD..SEALED_HEAD + head.len];
        decryptLen := decryptLen + head.len;
      } else {
        var plain := aead.open(decryptIv, input[SEALED_HEAD..SEALED_HEAD + head.len + TAG_LEN]);
        if plain.None? {
          return ERR_CIPHER_BODY_DECRYPT, None, decryptLen;
        }
        assert |aead.seal(decryptIv, plain.value)| == |plain.value| + TAG_LEN;
        CopyInto(plain.value, decodeBuffer, 0);
        body := decodeBuffer[..head.len];
        assert body == plain.value;
        decryptLen := decryptLen + head.len + TAG_LEN;
      }
      match DecodeBody(pb, head, body)
      case DecodeError(code) =>
        return code, None, decryptLen;
      case DecodedBody(b) =>
        decryptIv := Succ64(decryptIv);
        return 0, Some(Event(head, b)), decryptLen;
    }
  }
}
