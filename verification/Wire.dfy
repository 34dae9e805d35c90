/** Bytes on the wire: fixed-width big-endian integers, and the two pieces of code the transport only
    links against (the AEAD cipher and the protobuf codec), given by the laws the transport relies on. */
module Wire {
  type Byte = x: int | 0 <= x < 256
  type Bytes = seq<Byte>
  type U16 = x: int | 0 <= x < 0x1_0000
  type U32 = x: int | 0 <= x < 0x1_0000_0000
  type U64 = x: int | 0 <= x < 0x1_0000_0000_0000_0000

  const MAX_CHUNK: nat := 8192
  const RESERVED_BUFFER: nat := 256

  const TWO_TO_THE_64: nat := 0x1_0000_0000_0000_0000

  datatype Option<+T> = None | Some(value: T)

  /** The increment of an unsigned 64-bit counter. */
  function Succ64(n: U64): U64 {
    if n == TWO_TO_THE_64 - 1 then 0 else n + 1
  }

  function Min(a: nat, b: nat): nat {
    if a < b then a else b
  }

  function Pow256(width: nat): (p: nat)
    ensures p > 0
  {
    if width == 0 then 1 else 256 * Pow256(width - 1)
  }

  /** `native_to_big` followed by a copy of `width` bytes. */
  function BigEndian(v: nat, width: nat): (b: Bytes)
    ensures |b| == width
    decreases width
  {
    if width == 0 then [] else BigEndian(v / 256, width - 1) + [v % 256]
  }

  function FromBigEndian(b: Bytes): nat {
    if b == [] then 0 else 256 * FromBigEndian(b[..|b| - 1]) + b[|b| - 1]
  }

  lemma {:induction false} BigEndianRoundTrip(v: nat, width: nat)
    requires v < Pow256(width)
    ensures FromBigEndian(BigEndian(v, width)) == v
    decreases width
  {
    if width > 0 {
      var b := BigEndian(v, width);
      BigEndianRoundTrip(v / 256, width - 1);
      assert b[..|b| - 1] == BigEndian(v / 256, width - 1);
    }
  }

  /** Digit k of a number in base 256, from the right. */
  function Digit(v: nat, k: nat): Byte
    decreases k
  {
    if k == 0 then v % 256 else Digit(v / 256, k - 1)
  }

  /** The most significant byte comes first. */
  lemma {:induction false} BigEndianAt(v: nat, width: nat, i: nat)
    requires i < width
    ensures BigEndian(v, width)[i] == Digit(v, width - 1 - i)
    decreases width
  {
    if i < width - 1 {
      BigEndianAt(v / 256, width - 1, i);
    }
  }

  /** The low digits, by division. */
  lemma DigitValues(v: nat)
    ensures Digit(v, 0) == v % 256
    ensures Digit(v, 1) == v / 256 % 256
    ensures Digit(v, 2) == v / 256 / 256 % 256
    ensures Digit(v, 3) == v / 256 / 256 / 256 % 256
  {
    var a := v / 256;
    var b := a / 256;
    assert Digit(b, 1) == Digit(b / 256, 0);
    assert Digit(a, 1) == Digit(b, 0) && Digit(a, 2) == Digit(b, 1);
    assert Digit(v, 1) == Digit(a, 0) && Digit(v, 2) == Digit(a, 1) && Digit(v, 3) == Digit(a, 2);
  }

  lemma {:induction false} FromBigEndianRoundTrip(b: Bytes)
    ensures FromBigEndian(b) < Pow256(|b|)
    ensures BigEndian(FromBigEndian(b), |b|) == b
  {
    if b != [] {
      var v := FromBigEndian(b);
      var front := b[..|b| - 1];
      FromBigEndianRoundTrip(front);
      assert v / 256 == FromBigEndian(front) && v % 256 == b[|b| - 1];
      assert b == front + [b[|b| - 1]];
    }
  }

  lemma Pow256Values()
    ensures Pow256(2) == 0x1_0000
    ensures Pow256(4) == 0x1_0000_0000
    ensures Pow256(8) == 0x1_0000_0000_0000_0000
  {
    assert Pow256(1) == 256;
    assert Pow256(3) == 0x100_0000;
    assert Pow256(5) == 0x100_0000_0000;
    assert Pow256(6) == 0x1_0000_0000_0000;
    assert Pow256(7) == 0x100_0000_0000_0000;
  }

  // ---- Buffers ----

  /** `memcpy` of `src` to `dst + at`. */
  method CopyInto(src: Bytes, dst: array<Byte>, at: nat)
    requires at + |src| <= dst.Length
    modifies dst
    ensures dst[..at] == old(dst[..at])
    ensures dst[at..at + |src|] == src
    ensures dst[at + |src|..] == old(dst[at + |src|..])
  {
    var i := 0;
    while i < |src|
      invariant 0 <= i <= |src|
      invariant dst[..at] == old(dst[..at])
      invariant dst[at..at + i] == src[..i]
      invariant dst[at + i..] == old(dst[at + i..])
    {
      dst[at + i] := src[i];
      assert dst[at..at + i + 1] == dst[at..at + i] + [src[i]] == src[..i + 1];
      assert forall j :: at + i + 1 <= j < dst.Length ==> dst[j] == old(dst[j]);
      i := i + 1;
    }
  }

  // ---- Authenticated encryption ----

  const TAG_LEN: nat := 16

  /** `EVP_AEAD_CTX_seal` and `EVP_AEAD_CTX_open` for one key; the first argument is the counter the nonce is
      built from. */
  datatype AeadFunctions = AeadFunctions(seal: (U64, Bytes) -> Bytes, open: (U64, Bytes) -> Option<Bytes>)

  ghost predicate AeadLaws(a: AeadFunctions) {
    && (forall n: U64, p: Bytes :: |a.seal(n, p)| == |p| + TAG_LEN)
    && (forall n: U64, p: Bytes :: a.open(n, a.seal(n, p)) == Some(p))
    && (forall n: U64, c: Bytes :: a.open(n, c).Some? ==> c == a.seal(n, a.open(n, c).value))
  }

  type Aead = a: AeadFunctions | AeadLaws(a) ghost witness ZeroTagAead()

  /** The laws are satisfiable: a "cipher" that appends sixteen zero bytes. */
  ghost function ZeroTagAead(): (a: AeadFunctions)
    ensures AeadLaws(a)
  {
    var tag: Bytes := seq(TAG_LEN, i => 0);
    var a := AeadFunctions(
      (n: U64, p: Bytes) => p + tag,
      (n: U64, c: Bytes) => if |c| >= TAG_LEN && c[|c| - TAG_LEN..] == tag then Some(c[..|c| - TAG_LEN]) else None);
    assert forall n: U64, p: Bytes ::
        a.seal(n, p)[..|a.seal(n, p)| - TAG_LEN] == p && a.seal(n, p)[|a.seal(n, p)| - TAG_LEN..] == tag;
    assert forall n: U64, c: Bytes :: a.open(n, c).Some? ==> c == c[..|c| - TAG_LEN] + c[|c| - TAG_LEN..];
    a
  }
}
