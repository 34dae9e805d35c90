/** Reassembling events from arbitrarily split reads in one fixed buffer
    (snova/mux/mux_connection.cc, ReadEventFromBuffer and ReadEvent). */
module ReadPath {
  import opened Wire
  import opened MuxEvents
  import opened Cipher
  import opened CipherContexts
  import opened Transports

  const READ_BUFFER: nat := 2 * MAX_CHUNK

  class MuxConnection {
    const cipher: CipherContext
    const io: Transport
    const readBuffer: array<Byte>
    /** `readable_data_`: a window of the read buffer. */
    var from: nat
    var len: nat

    ghost predicate Valid()
      reads this
    {
      && cipher.Valid()
      && readBuffer.Length == READ_BUFFER
      && readBuffer != cipher.encodeBuffer && readBuffer != cipher.decodeBuffer
      && from + len <= READ_BUFFER
    }

    ghost function Readable(): Bytes
      requires Valid()
      reads this, readBuffer
    {
      readBuffer[from..from + len]
    }

    constructor (cipher: CipherContext, io: Transport)
      requires cipher.Valid()
      ensures Valid() && this.cipher == cipher && this.io == io && Readable() == []
      ensures fresh(readBuffer)
    {
      this.cipher := cipher;
      this.io := io;
      readBuffer := new Byte[READ_BUFFER](_ => 0);
      from, len := 0, 0;
    }

    /** `memmove` of a window to the front of the buffer: source and target may overlap. */
    method MoveToFront(start: nat, count: nat)
      requires Valid() && start + count <= READ_BUFFER
      modifies readBuffer
      ensures readBuffer[..count] == old(readBuffer[start..start + count])
    {
      var i := 0;
      while i < count
        invariant 0 <= i <= count
        invariant readBuffer[..i] == old(readBuffer[start..start + i])
        invariant start > 0 ==> readBuffer[start + i..] == old(readBuffer[start + i..])
        invariant start == 0 ==> readBuffer[..] == old(readBuffer[..])
      {
        assert readBuffer[start + i] == old(readBuffer[start + i]) by {
          if start > 0 {
            assert readBuffer[start + i..][0] == readBuffer[start + i];
          } else {
            assert readBuffer[..][i] == readBuffer[i];
          }
        }
        readBuffer[i] := readBuffer[start + i];
        i := i + 1;
      }
    }

    /** Tries to take one event out of the window. When more input is needed the window's bytes are now at the
        front of the buffer; the window itself is returned as it was. */
    method ReadEventFromBuffer(start: nat, count: nat)
      returns (rc: int, ev: Option<Event>, start': nat, count': nat)
      requires Valid() && start + count <= READ_BUFFER
      modifies cipher`decryptIv, cipher.decodeBuffer, readBuffer
      ensures Valid()
      ensures match Open(cipher.aead, cipher.pb, old(cipher.decryptIv), old(readBuffer[start..start + count]))
              case OpenedEvent(event, n) =>
                && rc == 0 && ev == Some(event) && cipher.decryptIv == Succ64(old(cipher.decryptIv))
                && start' == start + n && count' == count - n && readBuffer[..] == old(readBuffer[..])
              case NeedMore =>
                && rc == ERR_NEED_MORE_INPUT_DATA && cipher.decryptIv == old(cipher.decryptIv)
                && count' == count && start' == start
                && readBuffer[..count] == old(readBuffer[start..start + count])
              case OpenError(code) =>
                && rc == code && rc != 0 && rc != ERR_NEED_MORE_INPUT_DATA
                && cipher.decryptIv == old(cipher.decryptIv) && start' + count' <= READ_BUFFER
    {
      ev, start', count' := None, start, count;
      if count == 0 {
        return ERR_NEED_MORE_INPUT_DATA, None, start, count;
      }
      var n;
      rc, ev, n := cipher.Decrypt(readBuffer[start..start + count]);
      if rc == 0 {
        return 0, ev, start + n, count - n;
      }
      if rc != ERR_NEED_MORE_INPUT_DATA {
        return rc, None, start, count;
      }
      if start != 0 {
        MoveToFront(start, count);
      }
      return ERR_NEED_MORE_INPUT_DATA, None, start, count;
    }

    /** One read behind the `count` bytes at the front of the buffer. */
    method ReadMore(count: nat) returns (n: nat, ec: int)
      requires Valid() && count < READ_BUFFER
      modifies io, readBuffer
      ensures ec != 0 ==> io.failed && ec > 0
      ensures ec == 0 ==>
                && io.failed == old(io.failed) && count + n <= READ_BUFFER
                && readBuffer[..count + n] + io.pending == old(readBuffer[..count] + io.pending)
                && (n == 0 <==> old(io.pending) == [])
    {
      n, ec := io.AsyncRead(readBuffer, count, READ_BUFFER - count);
      if ec == 0 {
        assert readBuffer[..count + n] == readBuffer[..count] + readBuffer[count..count + n];
      }
    }

    /** What ReadEvent promises about a stream of bytes read under counter `iv`: the answer `Open` gives for all of
        it, and the rest of it left to read. */
    ghost predicate Answered(rc: int, ev: Option<Event>, start: nat, count: nat, iv: U64, stream: Bytes)
      requires start + count <= readBuffer.Length
      reads cipher, io, readBuffer
    {
      if io.failed then rc > 0 && cipher.decryptIv == iv
      else
        match Open(cipher.aead, cipher.pb, iv, stream)
        case OpenedEvent(event, n) =>
          && rc == 0 && ev == Some(event) && cipher.decryptIv == Succ64(iv)
          && readBuffer[start..start + count] + io.pending == stream[n..]
        case NeedMore =>
          rc == ERR_READ_EOF && io.pending == [] && cipher.decryptIv == iv
        case OpenError(code) =>
          rc == code && cipher.decryptIv == iv
    }

    /** One turn of the loop of ReadEvent: an answer, or a window that has grown by a read. Whenever it reads, at
        least 8025 bytes of the buffer are free. */
    method Turn(start: nat, count: nat)
      returns (done: bool, rc: int, ev: Option<Event>, start': nat, count': nat)
      requires Valid() && !io.failed && start + count <= READ_BUFFER
      modifies io, readBuffer, cipher`decryptIv, cipher.decodeBuffer
      ensures start' + count' <= READ_BUFFER
      ensures done ==> Answered(rc, ev, start', count', old(cipher.decryptIv), old(readBuffer[start..start + count] + io.pending))
      ensures !done ==>
                && count < 8360 && READ_BUFFER - count >= 8025 && READ_BUFFER == 16384 && count' > count
                && !io.failed && cipher.decryptIv == old(cipher.decryptIv)
                && readBuffer[start'..start' + count'] + io.pending == old(readBuffer[start..start + count] + io.pending)
    {
      hide Open;
      ghost var window := readBuffer[start..start + count];
      AnswerForStream(cipher.aead, cipher.pb, cipher.decryptIv, window, io.pending);
      rc, ev, start', count' := ReadEventFromBuffer(start, count);
      if rc == 0 {
        assert readBuffer[start'..start' + count'] == window[count - count'..];
        DropFromConcat(window, io.pending, count - count');
        return true, rc, ev, start', count';
      }
      if rc != ERR_NEED_MORE_INPUT_DATA {
        return true, rc, ev, start', count';
      }
      var n, ec := ReadMore(count);
      if ec != 0 {
        return true, ec, None, start', count';
      }
      if n == 0 {
        return true, ERR_READ_EOF, None, start', count';
      }
      return false, 0, None, 0, count + n;
    }

    /** One event from the stream of bytes, however the stream is cut into reads: the answer is the one `Open` gives
        for the unsplit stream, and what stays behind is the rest of that stream. The loop ends because each
        nonempty read brings the window closer to the length of the longest frame. */
    method ReadEvent() returns (rc: int, ev: Option<Event>)
      requires Valid() && !io.failed
      modifies this`from, this`len, io, readBuffer, cipher`decryptIv, cipher.decodeBuffer
      ensures Valid()
      ensures Answered(rc, ev, from, len, old(cipher.decryptIv), old(Readable() + io.pending))
    {
      var start: nat, count: nat := from, len;
      ghost var stream := Readable() + io.pending;
      var done := false;
      rc, ev := 0, None;
      while !done
        invariant start + count <= READ_BUFFER
        invariant from == old(from) && len == old(len)
        invariant !done ==>
                    && !io.failed && cipher.decryptIv == old(cipher.decryptIv)
                    && readBuffer[start..start + count] + io.pending == stream
        invariant done ==> Answered(rc, ev, start, count, old(cipher.decryptIv), stream)
        decreases !done, if count < MAX_FRAME then MAX_FRAME - count else 0
      {
        done, rc, ev, start, count := Turn(start, count);
      }
      from, len := start, count;
    }
  }

  lemma DropFromConcat(a: Bytes, b: Bytes, n: nat)
    requires n <= |a|
    ensures (a + b)[n..] == a[n..] + b
  {
  }

  /** The answer for what has arrived is final unless it is "need more"; and that is final when nothing follows. */
  lemma AnswerForStream(aead: Aead, pb: Codec, iv: U64, window: Bytes, pending: Bytes)
    ensures var answer := Open(aead, pb, iv, window);
            !answer.NeedMore? || pending == [] ==> Open(aead, pb, iv, window + pending) == answer
  {
    if !Open(aead, pb, iv, window).NeedMore? {
      OpenIgnoresSuffix(aead, pb, iv, window, pending);
    } else if pending == [] {
      assert window + pending == window;
    }
  }
}
