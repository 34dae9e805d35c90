/** WebSocket framing over a buffered transport (sections 5.2 and 5.3 of RFC 6455; snova/io/ws_socket.cc,
    snova/io/buffered_io.cc, snova/io/io_util.cc). */
module WebSockets {
  import opened Wire
  import opened Transports

  // ---- Masking ----

  function Power2(bits: nat): (p: nat)
    ensures p > 0
  {
    if bits == 0 then 1 else 2 * Power2(bits - 1)
  }

  /** Exclusive or of the low `bits` bits. */
  function XorBits(a: nat, b: nat, bits: nat): (c: nat)
    ensures c < Power2(bits)
  {
    if bits == 0 then 0
    else (if a % 2 == b % 2 then 0 else 1) + 2 * XorBits(a / 2, b / 2, bits - 1)
  }

  lemma {:induction false} XorTwice(a: nat, b: nat, bits: nat)
    requires a < Power2(bits)
    ensures XorBits(XorBits(a, b, bits), b, bits) == a
  {
    if bits > 0 {
      var c := XorBits(a, b, bits);
      assert c % 2 == (if a % 2 == b % 2 then 0 else 1) && c / 2 == XorBits(a / 2, b / 2, bits - 1);
      XorTwice(a / 2, b / 2, bits - 1);
      assert XorBits(c, b, bits) == (if c % 2 == b % 2 then 0 else 1) + 2 * (a / 2);
    }
  }

  /** Bit k of a number, from the right. */
  function Bit(a: nat, k: nat): (b: nat)
    ensures b <= 1
    decreases k
  {
    if k == 0 then a % 2 else Bit(a / 2, k - 1)
  }

  /** Each bit is the sum of the two bits modulo 2. */
  lemma {:induction false} XorBitsAre(a: nat, b: nat, bits: nat, k: nat)
    requires k < bits
    ensures Bit(XorBits(a, b, bits), k) == (Bit(a, k) + Bit(b, k)) % 2
    decreases bits
  {
    var c := XorBits(a, b, bits);
    assert c % 2 == (if a % 2 == b % 2 then 0 else 1) && c / 2 == XorBits(a / 2, b / 2, bits - 1);
    if k > 0 {
      XorBitsAre(a / 2, b / 2, bits - 1, k - 1);
    }
  }

  /** What is sent in place of a byte under a key byte: bit by bit the exclusive or (section 5.3 of RFC 6455). */
  ghost predicate Masked(m: Byte, d: Byte, k: Byte) {
    forall j: nat :: j < 8 ==> Bit(m, j) == (Bit(d, j) + Bit(k, j)) % 2
  }

  /** Every payload byte is masked with the key byte at its position modulo 4. */
  lemma MaskIsXor(data: Bytes, key: Bytes, i: nat)
    requires |key| == 4 && i < |data|
    ensures Masked(Mask(data, key)[i], data[i], key[i % 4])
  {
    hide XorBits, Bit;
    forall j: nat | j < 8 ensures Bit(Xor(data[i], key[i % 4]), j) == (Bit(data[i], j) + Bit(key[i % 4], j)) % 2 {
      XorBitsAre(data[i], key[i % 4], 8, j);
    }
  }

  lemma ByteBits()
    ensures Power2(8) == 256
  {
    assert Power2(4) == 16;
    assert Power2(6) == 64;
  }

  function Xor(a: Byte, b: Byte): Byte {
    ByteBits();
    XorBits(a, b, 8)
  }

  /** The payload under a four-byte key, byte i with key byte i mod 4. */
  function Mask(data: Bytes, key: Bytes): (m: Bytes)
    requires |key| == 4
    ensures |m| == |data|
  {
    seq(|data|, i requires 0 <= i < |data| => Xor(data[i], key[i % 4]))
  }

  lemma MaskTwice(data: Bytes, key: Bytes)
    requires |key| == 4
    ensures Mask(Mask(data, key), key) == data
  {
    ByteBits();
    forall i | 0 <= i < |data| ensures Mask(Mask(data, key), key)[i] == data[i] {
      XorTwice(data[i], key[i % 4], 8);
    }
  }

  // ---- Frames ----

  /** The header of a frame: 7, 16 or 64 bits of length, and the key if the sender is a client. */
  function Header(len: nat, key: Option<Bytes>): Bytes
    requires len < TWO_TO_THE_64
    requires key.Some? ==> |key.value| == 4
  {
    [0x82, LengthByte(len) + if key.Some? then 128 else 0] + ExtendedLength(len) +
    (if key.Some? then key.value else [])
  }

  function LengthByte(len: nat): (b: Byte)
    ensures b < 128
  {
    if len <= 125 then len else if len > 65535 then 127 else 126
  }

  function ExtendedLength(len: nat): Bytes {
    if len <= 125 then [] else if len > 65535 then BigEndian(len, 8) else BigEndian(len, 2)
  }

  function Frame(data: Bytes, key: Option<Bytes>): Bytes
    requires |data| < TWO_TO_THE_64
    requires key.Some? ==> |key.value| == 4
  {
    Header(|data|, key) + if key.Some? then Mask(data, key.value) else data
  }

  datatype ReadResult = Message(data: Bytes, used: nat) | NoSpace(used: nat) | Truncated

  /** The number of bytes behind the first two that hold the length. */
  function ExtraLen(b1: Byte): nat {
    if b1 % 128 == 126 then 2 else if b1 % 128 == 127 then 8 else 0
  }

  function PayloadLen(s: Bytes): nat
    requires |s| >= 2 && |s| >= 2 + ExtraLen(s[1])
  {
    if ExtraLen(s[1]) == 0 then s[1] % 128 else FromBigEndian(s[2..2 + ExtraLen(s[1])])
  }

  /** What AsyncRead finds at the front of a stream, given a buffer of `size` bytes. */
  function ReadFrame(s: Bytes, size: nat): (r: ReadResult)
    ensures r.Message? ==> 2 <= r.used <= |s| && |r.data| <= size
  {
    if |s| < 2 || |s| < 2 + ExtraLen(s[1]) then Truncated
    else
      var at := 2 + ExtraLen(s[1]);
      var len := PayloadLen(s);
      if size < len then NoSpace(at)
      else if s[1] >= 128 then
        if |s| < at + 4 + len then Truncated
        else Message(Mask(s[at + 4..at + 4 + len], s[at..at + 4]), at + 4 + len)
      else if |s| < at + len then Truncated
      else Message(s[at..at + len], at + len)
  }

  /** Whatever the length form, the key and the bytes behind it, a frame reads back as its payload and ends where the next
      one begins. */
  lemma FrameRoundTrip(data: Bytes, key: Option<Bytes>, rest: Bytes, size: nat)
    requires |data| < TWO_TO_THE_64 && |data| <= size
    requires key.Some? ==> |key.value| == 4
    ensures ReadFrame(Frame(data, key) + rest, size) == Message(data, |Frame(data, key)|)
  {
    hide Header, Mask;
    var len := |data|;
    var h := Header(len, key);
    var body := if key.Some? then Mask(data, key.value) else data;
    var s := Frame(data, key) + rest;
    assert s == h + body + rest;
    HeaderLength(len, key, s);
    var at := 2 + ExtraLen(s[1]);
    Middle(h, body, rest);
    if key.Some? {
      assert s[at..at + 4] == h[at..] by { assert s[..|h|] == h; }
      MaskTwice(data, key.value);
    }
  }

  /** A header as section 5.2 of RFC 6455 lays it out: a final binary frame; the mask bit and the length in 7, 16 or 64 bits,
      high byte first; the key. */
  lemma HeaderLayout(n: nat, key: Option<Bytes>)
    requires n < TWO_TO_THE_64 && (key.Some? ==> |key.value| == 4)
    ensures var m := if key.Some? then 128 else 0;
            Header(n, key) ==
            (if n <= 125 then [0x82, m + n]
             else if n <= 65535 then [0x82, m + 126, n / 256, n % 256]
             else [0x82, m + 127, Digit(n, 7), Digit(n, 6), Digit(n, 5), Digit(n, 4), Digit(n, 3), Digit(n, 2), Digit(n, 1),
                   Digit(n, 0)]) +
            (if key.Some? then key.value else [])
  {
    hide BigEndian, Digit;
    LengthDigits(n);
  }

  /** The payload stands behind the header, masked byte by byte if there is a key. */
  lemma FrameLayout(data: Bytes, key: Option<Bytes>)
    requires |data| < TWO_TO_THE_64 && (key.Some? ==> |key.value| == 4)
    ensures var f := Frame(data, key); var h := Header(|data|, key);
            && |f| == |h| + |data| && f[..|h|] == h
            && (key.None? ==> f[|h|..] == data)
            && (key.Some? ==> forall i :: 0 <= i < |data| ==> Masked(f[|h|..][i], data[i], key.value[i % 4]))
  {
    hide Header, Mask, Masked;
    if key.Some? {
      assert Frame(data, key)[|Header(|data|, key)|..] == Mask(data, key.value);
      forall i | 0 <= i < |data| ensures Masked(Mask(data, key.value)[i], data[i], key.value[i % 4]) {
        MaskIsXor(data, key.value, i);
      }
    }
  }

  lemma LengthDigits(n: nat)
    ensures 125 < n <= 65535 ==> ExtendedLength(n) == [n / 256, n % 256]
    ensures n > 65535 ==>
              ExtendedLength(n) == [Digit(n, 7), Digit(n, 6), Digit(n, 5), Digit(n, 4), Digit(n, 3), Digit(n, 2), Digit(n, 1),
                                    Digit(n, 0)]
  {
    hide BigEndian, Digit;
    DigitValues(n);
    BigEndianAt(n, 2, 0);
    BigEndianAt(n, 2, 1);
    forall i | 0 <= i < 8 ensures BigEndian(n, 8)[i] == Digit(n, 7 - i) {
      BigEndianAt(n, 8, i);
    }
  }

  lemma Middle(a: Bytes, b: Bytes, c: Bytes)
    ensures (a + b + c)[|a|..|a| + |b|] == b
  {
  }

  lemma HeaderLength(len: nat, key: Option<Bytes>, s: Bytes)
    requires len < TWO_TO_THE_64 && (key.Some? ==> |key.value| == 4)
    requires Header(len, key) <= s
    ensures |s| >= 2 && |s| >= 2 + ExtraLen(s[1]) && PayloadLen(s) == len
    ensures s[1] >= 128 <==> key.Some?
    ensures |Header(len, key)| == 2 + ExtraLen(s[1]) + if key.Some? then 4 else 0
    ensures key.Some? ==> Header(len, key)[2 + ExtraLen(s[1])..] == key.value
  {
    hide BigEndian, FromBigEndian;
    var h := Header(len, key);
    var ext := ExtendedLength(len);
    var k := if key.Some? then key.value else [];
    var front: Bytes := [0x82, h[1]];
    assert h == front + ext + k;
    assert s == h + s[|h|..] == front + ext + (k + s[|h|..]);
    Middle(front, ext, k + s[|h|..]);
    assert s[1] == h[1] && |ext| == ExtraLen(s[1]);
    assert h[2 + |ext|..] == k;
    if len > 125 {
      Pow256Values();
      BigEndianRoundTrip(len, |ext|);
    }
  }

  /** A message and the key it is sent under; servers send without one. */
  datatype Outgoing = Outgoing(data: Bytes, key: Option<Bytes>) {
    predicate Valid(size: nat) {
      |data| < TWO_TO_THE_64 && |data| <= size && (key.Some? ==> |key.value| == 4)
    }
  }

  function Sent(ms: seq<Outgoing>, size: nat): Bytes
    requires forall m <- ms :: m.Valid(size)
  {
    if ms == [] then [] else
      assert ms[0].Valid(size);
      Frame(ms[0].data, ms[0].key) + Sent(ms[1..], size)
  }

  function Payloads(ms: seq<Outgoing>): seq<Bytes> {
    if ms == [] then [] else [ms[0].data] + Payloads(ms[1..])
  }

  /** The payloads of `n` successive reads, and the stream behind them. */
  function ReadMany(s: Bytes, size: nat, n: nat): (seq<Bytes>, Bytes)
    decreases n
  {
    if n == 0 then ([], s)
    else
      match ReadFrame(s, size)
      case Message(data, used) =>
        var (more, rest) := ReadMany(s[used..], size, n - 1);
        ([data] + more, rest)
      case _ => ([], s)
  }

  /** Successive reads return exactly the messages, and stop at the boundary behind the last. */
  lemma {:induction false} MessagesRoundTrip(ms: seq<Outgoing>, size: nat, rest: Bytes)
    requires forall m <- ms :: m.Valid(size)
    ensures ReadMany(Sent(ms, size) + rest, size, |ms|) == (Payloads(ms), rest)
  {
    hide Frame, ReadFrame;
    if ms == [] {
      assert Sent(ms, size) + rest == rest;
    } else {
      assert ms[0] in ms;
      var f := Frame(ms[0].data, ms[0].key);
      var tail := Sent(ms[1..], size) + rest;
      assert Sent(ms, size) + rest == f + tail;
      FrameRoundTrip(ms[0].data, ms[0].key, tail, size);
      assert (f + tail)[|f|..] == tail;
      MessagesRoundTrip(ms[1..], size, rest);
    }
  }

  // ---- The transport ----

  /** Hands out what an earlier read left over before it reads again; over a transport that reports its end as an error. */
  class BufferedIO {
    const io: Transport
    const recv: array<Byte>
    var offset: nat
    var length: nat

    ghost predicate Valid()
      reads this
    {
      io.endIsError && recv.Length == MAX_CHUNK && offset <= length <= MAX_CHUNK
    }

    /** All bytes still to be read. */
    ghost function Stream(): Bytes
      requires Valid()
      reads this, io, recv
    {
      recv[offset..length] + io.pending
    }

    constructor (io: Transport)
      requires io.endIsError
      ensures Valid() && this.io == io && Stream() == io.pending && fresh(recv)
    {
      this.io := io;
      recv := new Byte[MAX_CHUNK](_ => 0);
      offset, length := 0, 0;
    }

    /** Reads from the transport when everything has been handed out. */
    method Refill() returns (ec: int)
      requires Valid()
      modifies this, io, recv
      ensures Valid()
      ensures ec != 0 ==> io.failed
      ensures ec == 0 ==> io.failed == old(io.failed) && Stream() == old(Stream()) && offset < length
    {
      ec := 0;
      if offset >= length {
        assert Stream() == io.pending;
        offset, length := 0, 0;
        var n;
        n, ec := io.AsyncRead(recv, 0, MAX_CHUNK);
        length := n;
        assert recv[0..length] == recv[..n];
      }
    }

    method AsyncRead(dst: array<Byte>, at: nat, size: nat) returns (n: nat, ec: int)
      requires Valid() && dst != recv && at + size <= dst.Length && size > 0
      modifies this, io, recv, dst
      ensures Valid()
      ensures ec != 0 ==> io.failed
      ensures ec == 0 ==>
                && io.failed == old(io.failed) && 0 < n <= size
                && dst[..at] == old(dst[..at]) && dst[at + n..] == old(dst[at + n..])
                && old(Stream()) == dst[at..at + n] + Stream()
    {
      ec := Refill();
      if ec != 0 {
        return 0, ec;
      }
      n := length - offset;
      if size < n {
        n := size;
      }
      ghost var piece, left := recv[offset..offset + n], recv[offset + n..length];
      assert recv[offset..length] == piece + left;
      assert piece + left + io.pending == piece + (left + io.pending);
      CopyInto(recv[offset..offset + n], dst, at);
      offset := offset + n;
    }
  }

  /** One turn of the loop in `read_exact`: `pos` of the `size` bytes have been read behind `at`. */
  method ReadPiece(b: BufferedIO, dst: array<Byte>, at: nat, pos: nat, size: nat) returns (n: nat, ec: int)
    requires b.Valid() && dst != b.recv && at + size <= dst.Length && pos < size
    modifies b, b.io, b.recv, dst
    ensures b.Valid()
    ensures ec != 0 ==> b.io.failed
    ensures ec == 0 ==>
              && b.io.failed == old(b.io.failed) && 0 < n <= size - pos
              && dst[..at] == old(dst[..at]) && dst[at + size..] == old(dst[at + size..])
              && dst[at..at + pos + n] + b.Stream() == old(dst[at..at + pos] + b.Stream())
  {
    ghost var before := dst[..];
    ghost var stream := b.Stream();
    n, ec := b.AsyncRead(dst, at + pos, size - pos);
    if ec == 0 {
      PieceRead(before, dst[..], at, pos, n, size);
      ghost var piece := dst[at + pos..at + pos + n];
      assert stream == piece + b.Stream();
      assert before[at..at + pos] + stream == before[at..at + pos] + piece + b.Stream();
    }
  }

  /** What one more piece in the middle of a buffer leaves alone. */
  lemma PieceRead(before: Bytes, after: Bytes, at: nat, pos: nat, n: nat, size: nat)
    requires |before| == |after| && pos + n <= size && at + size <= |after|
    requires after[..at + pos] == before[..at + pos] && after[at + pos + n..] == before[at + pos + n..]
    ensures after[..at] == before[..at] && after[at + size..] == before[at + size..]
    ensures after[at..at + pos + n] == before[at..at + pos] + after[at + pos..at + pos + n]
  {
    assert after[..at] == after[..at + pos][..at];
    assert before[..at] == before[..at + pos][..at];
    assert after[at + size..] == after[at + pos + n..][size - pos - n..];
    assert before[at + size..] == before[at + pos + n..][size - pos - n..];
    assert after[at..at + pos] == after[..at + pos][at..];
    assert before[at..at + pos] == before[..at + pos][at..];
  }

  /** `read_exact`: ends because every read hands over at least one byte. */
  method ReadExact(b: BufferedIO, dst: array<Byte>, at: nat, size: nat) returns (ec: int)
    requires b.Valid() && dst != b.recv && at + size <= dst.Length
    modifies b, b.io, b.recv, dst
    ensures b.Valid()
    ensures ec != 0 ==> b.io.failed
    ensures ec == 0 ==>
              && b.io.failed == old(b.io.failed)
              && dst[..at] == old(dst[..at]) && dst[at + size..] == old(dst[at + size..])
              && dst[at..at + size] + b.Stream() == old(b.Stream())
  {
    hide BufferedIO.Stream;
    ghost var front, back, stream := dst[..at], dst[at + size..], b.Stream();
    var pos: nat := 0;
    var rest: nat := size;
    assert dst[at..at + 0] + stream == stream;
    while rest > 0
      invariant pos + rest == size && b.Valid()
      invariant b.io.failed == old(b.io.failed)
      invariant dst[..at] == front && dst[at + size..] == back
      invariant dst[at..at + pos] + b.Stream() == stream
    {
      var n;
      n, ec := ReadPiece(b, dst, at, pos, size);
      if ec != 0 {
        return ec;
      }
      rest := rest - n;
      pos := pos + n;
    }
    ec := 0;
  }

  // ---- The socket ----

  /** XORs an array with a key, in place. */
  method MaskInPlace(a: array<Byte>, n: nat, key: Bytes)
    requires |key| == 4 && n <= a.Length
    modifies a
    ensures a[..n] == Mask(old(a[..n]), key) && a[n..] == old(a[n..])
    ensures forall i :: 0 <= i < n ==> Masked(a[i], old(a[i]), key[i % 4])
  {
    hide XorBits, Masked;
    var i := 0;
    while i < n
      invariant 0 <= i <= n
      invariant forall j :: 0 <= j < i ==> a[j] == Xor(old(a[j]), key[j % 4])
      invariant forall j :: i <= j < a.Length ==> a[j] == old(a[j])
    {
      a[i] := Xor(a[i], key[i % 4]);
      i := i + 1;
    }
    forall j | 0 <= j < n ensures Masked(a[j], old(a[j]), key[j % 4]) {
      MaskIsXor(old(a[..n]), key, j);
    }
  }

  const ERR_NO_BUFFER_SPACE: int := 105

  class WebSocket {
    const io: BufferedIO
    const isServer: bool
    /** All bytes handed to the transport. */
    var written: Bytes

    constructor (io: BufferedIO, isServer: bool)
      ensures this.io == io && this.isServer == isServer && written == []
    {
      this.io := io;
      this.isServer := isServer;
      written := [];
    }

    /** The header is filled byte by byte; a client then masks the caller's buffer in place. The result is always the length
        of the data; after an error of the transport only a part of the frame is out. */
    method AsyncWrite(data: array<Byte>, key: Bytes) returns (n: nat, ec: int)
      requires |key| == 4 && data.Length < TWO_TO_THE_64
      modifies this`written, data
      ensures n == data.Length
      ensures var out := old(written) + Frame(old(data[..]), if isServer then None else Some(key));
              if ec == 0 then written == out else old(written) <= written <= out
      ensures data[..] == if isServer then old(data[..]) else Mask(old(data[..]), key)
    {
      var head := new Byte[128](_ => 0);
      var offset := FillHeader(head, data.Length, if isServer then None else Some(key));
      if !isServer {
        MaskInPlace(data, data.Length, key);
        assert data[..data.Length] == data[..] && old(data[..data.Length]) == old(data[..]);
      }
      var out := head[..offset] + data[..];
      n, ec := data.Length, 0;
      var sent := |out|;
      if * {
        ec :| ec > 0;
        sent :| 0 <= sent <= |out|;
      }
      assert out[..|out|] == out;
      written := written + out[..sent];
    }

    method FillHeader(head: array<Byte>, len: nat, key: Option<Bytes>) returns (offset: nat)
      requires head.Length == 128 && len < TWO_TO_THE_64 && (key.Some? ==> |key.value| == 4)
      modifies head
      ensures offset <= 14 && head[..offset] == Header(len, key)
    {
      offset := FillLength(head, len);
      ghost var ext := head[2..offset];
      if key.Some? {
        head[1] := 128 + head[1];
        assert head[2..offset] == ext;
        ghost var front := head[..offset];
        CopyInto(key.value, head, offset);
        assert head[..offset + 4] == front + key.value;
        assert front == [head[0], head[1]] + ext;
        offset := offset + 4;
      } else {
        assert head[..offset] == [head[0], head[1]] + ext;
      }
    }

    method FillLength(head: array<Byte>, len: nat) returns (offset: nat)
      requires head.Length == 128 && len < TWO_TO_THE_64
      modifies head
      ensures 2 <= offset <= 10
      ensures head[0] == 0x82 && head[1] == LengthByte(len) && head[2..offset] == ExtendedLength(len)
    {
      hide BigEndian;
      offset := 2;
      head[0] := 0x82;
      if len <= 125 {
        head[1] := len % 128;
      } else if len > 65535 {
        head[1] := 127;
        ghost var front := head[..2];
        CopyInto(BigEndian(len, 8), head, 2);
        offset := offset + 8;
        assert head[0] == head[..2][0] == front[0] && head[1] == head[..2][1] == front[1];
      } else {
        head[1] := 126;
        ghost var front := head[..2];
        CopyInto(BigEndian(len, 2), head, 2);
        offset := offset + 2;
        assert head[0] == head[..2][0] == front[0] && head[1] == head[..2][1] == front[1];
      }
    }

    /** The two header bytes and the extended length. */
    method ReadLength() returns (ec: int, masked: bool, len: nat)
      requires io.Valid()
      modifies io, io.io, io.recv
      ensures io.Valid()
      ensures ec != 0 ==> io.io.failed
      ensures ec == 0 ==>
                && io.io.failed == old(io.io.failed)
                && var s := old(io.Stream());
                   && |s| >= 2 && |s| >= 2 + ExtraLen(s[1])
                   && (masked <==> s[1] >= 128) && len == PayloadLen(s) && io.Stream() == s[2 + ExtraLen(s[1])..]
    {
      ghost var s := io.Stream();
      var header := new Byte[2](_ => 0);
      ec := ReadExact(io, header, 0, 2);
      if ec != 0 {
        return ec, false, 0;
      }
      var b1 := header[1];
      ghost var s1 := io.Stream();
      assert s == header[0..2] + s1;
      assert s1 == s[2..] && s[1] == b1;
      masked := b1 / 128 == 1;
      len := b1 % 128;
      if len == 126 || len == 127 {
        var width := if len == 126 then 2 else 8;
        var bytes := new Byte[width](_ => 0);
        ec := ReadExact(io, bytes, 0, width);
        if ec != 0 {
          return ec, false, 0;
        }
        len := FromBigEndian(bytes[..]);
        assert bytes[..] == bytes[0..width];
        Split(s, 2, bytes[..], io.Stream());
      }
    }

    /** Reads one frame into `buf`: exactly what `ReadFrame` finds at the front of the stream. Without an error of the
        transport a truncated frame cannot end the call. */
    method AsyncRead(buf: array<Byte>) returns (n: nat, ec: int)
      requires io.Valid() && buf != io.recv && !io.io.failed
      modifies io, io.io, io.recv, buf
      ensures io.Valid()
      ensures io.io.failed ==> ec != 0 && n == 0
      ensures !io.io.failed ==>
                var s := old(io.Stream());
                match ReadFrame(s, buf.Length)
                case Message(data, used) => ec == 0 && n == |data| && buf[..n] == data && io.Stream() == s[used..]
                case NoSpace(used) => ec == ERR_NO_BUFFER_SPACE && n == 0 && io.Stream() == s[used..]
                case Truncated => false
    {
      hide ReadFrame, Mask, BufferedIO.Stream, PayloadLen;
      ghost var s := io.Stream();
      var masked, len;
      ec, masked, len := ReadLength();
      if ec != 0 {
        return 0, ec;
      }
      if buf.Length < len {
        TooLong(s, buf.Length);
        return 0, ERR_NO_BUFFER_SPACE;
      }
      ghost var s0 := io.Stream();
      var key: Bytes := [];
      if masked {
        var keyBytes := new Byte[4](_ => 0);
        ec := ReadExact(io, keyBytes, 0, 4);
        if ec != 0 {
          return 0, ec;
        }
        key := keyBytes[..];
        assert key == keyBytes[0..4];
      }
      assert s0 == key + io.Stream();
      ghost var s1 := io.Stream();
      ec := ReadExact(io, buf, 0, len);
      if ec != 0 {
        return 0, ec;
      }
      assert buf[..len] == buf[0..0 + len];
      ReadFrameIs(s, buf.Length, key, buf[..len], io.Stream(), s0, s1);
      if masked {
        MaskInPlace(buf, len, key);
      }
      return len, 0;
    }
  }

  /** Successive AsyncReads, each into a buffer of `size` bytes: whatever the messages, lengths and keys, and however the
      transport cuts the bytes, they return the payloads in order, and the stream then stands at the boundary behind the
      last message. A transport that fails ends the sequence early. */
  method ReadMessages(ws: WebSocket, size: nat, n: nat, ghost ms: seq<Outgoing>, ghost rest: Bytes)
    returns (got: seq<Bytes>, ec: int)
    requires ws.io.Valid() && !ws.io.io.failed && |ms| == n && forall m <- ms :: m.Valid(size)
    requires ws.io.Stream() == Sent(ms, size) + rest
    modifies ws.io, ws.io.io, ws.io.recv
    ensures ws.io.Valid()
    ensures if ec == 0 then got == Payloads(ms) && ws.io.Stream() == rest else ws.io.io.failed && got <= Payloads(ms)
  {
    hide ReadFrame, Frame, BufferedIO.Stream, Sent, Payloads;
    got, ec := [], 0;
    assert ms[0..] == ms;
    for i := 0 to n
      invariant ec == 0 && ws.io.Valid() && !ws.io.io.failed
      invariant ws.io.Stream() == Sent(ms[i..], size) + rest
      invariant got + Payloads(ms[i..]) == Payloads(ms)
    {
      FirstMessage(ms[i..], size, rest);
      assert ms[i..][1..] == ms[i + 1..];
      var buf := new Byte[size](_ => 0);
      var len;
      len, ec := ws.AsyncRead(buf);
      if ws.io.io.failed {
        return;
      }
      got := got + [buf[..len]];
    }
    NoMessages(size, rest);
    assert ms[n..] == [];
  }

  lemma FirstMessage(ms: seq<Outgoing>, size: nat, rest: Bytes)
    requires ms != [] && forall m <- ms :: m.Valid(size)
    ensures var s := Sent(ms, size) + rest; var r := ReadFrame(s, size);
            && r.Message? && r.data == ms[0].data && s[r.used..] == Sent(ms[1..], size) + rest
            && Payloads(ms) == [ms[0].data] + Payloads(ms[1..])
  {
    hide ReadFrame, Frame;
    var m := ms[0];
    assert m in ms && m.Valid(size);
    var f := Frame(m.data, m.key);
    var tail := Sent(ms[1..], size) + rest;
    assert Sent(ms, size) + rest == f + tail;
    FrameRoundTrip(m.data, m.key, tail, size);
  }

  lemma NoMessages(size: nat, rest: Bytes)
    ensures Sent([], size) + rest == rest && Payloads([]) == []
  {
  }

  lemma TooLong(s: Bytes, size: nat)
    requires |s| >= 2 && |s| >= 2 + ExtraLen(s[1]) && PayloadLen(s) > size
    ensures ReadFrame(s, size) == NoSpace(2 + ExtraLen(s[1]))
  {
  }

  /** What the pieces read off a stream make up: behind the length the key, if the mask bit is set, then the payload. */
  lemma ReadFrameIs(s: Bytes, size: nat, key: Bytes, body: Bytes, rest: Bytes, s0: Bytes, s1: Bytes)
    requires |s| >= 2 && |s| >= 2 + ExtraLen(s[1]) && PayloadLen(s) == |body| <= size
    requires |key| == if s[1] >= 128 then 4 else 0
    requires s0 == s[2 + ExtraLen(s[1])..] == key + s1 && s1 == body + rest
    ensures var r := ReadFrame(s, size);
            r.Message? && r.data == (if s[1] >= 128 then Mask(body, key) else body) && r.used <= |s| && s[r.used..] == rest
  {
    hide Mask;
    var at := 2 + ExtraLen(s[1]);
    Split(s, at, key, s1);
    Split(s, at + |key|, body, rest);
  }

  /** Reading a piece off a stream from position `at` on. */
  lemma Split(s: Bytes, at: nat, piece: Bytes, rest: Bytes)
    requires at <= |s| && s[at..] == piece + rest
    ensures at + |piece| <= |s| && s[at..at + |piece|] == piece && s[at + |piece|..] == rest
  {
    assert s[at..at + |piece|] == s[at..][..|piece|];
    assert s[at + |piece|..] == s[at..][|piece|..];
  }
}
