/** The hand-written SHA-1 of the JavaScript SDK, against FIPS 180-4. */
module Sha1 {
  import opened Words

  // ---------- FIPS 180-4 ----------

  /** Section 4.1.1. */
  function F(t: nat, x: Word, y: Word, z: Word): Word {
    if t < 20 then Xor(And(x, y), And(Not(x), z))
    else if t < 40 then Xor(Xor(x, y), z)
    else if t < 60 then Xor(Xor(And(x, y), And(x, z)), And(y, z))
    else Xor(Xor(x, y), z)
  }

  /** The same on words given as numbers. */
  function FNum(t: nat, x: U32, y: U32, z: U32): U32 {
    Num(F(t, W32(x), W32(y), W32(z)))
  }

  /** Section 4.2.1. */
  function K(t: nat): U32 {
    if t < 20 then 0x5a827999 else if t < 40 then 0x6ed9eba1 else if t < 60 then 0x8f1bbcdc else 0xca62c1d6
  }

  /** The number of zero bits: the least that brings the message with its one bit to 448 modulo
      512. */
  function ZeroBits(length: nat): nat {
    (448 + 512 - (length + 1) % 512) % 512
  }

  lemma ZeroBitsAreLeast(length: nat, k: nat)
    requires (length + 1 + k) % 512 == 448
    ensures (length + 1 + ZeroBits(length)) % 512 == 448 && ZeroBits(length) <= k
  {}

  lemma ZeroBitsFill(length: nat)
    ensures (length + 1 + ZeroBits(length) + 64) % 512 == 0
  {}

  /** Section 5.1.1: a one bit, zero bits, and the length in 64 bits. */
  function Pad(message: seq<bool>): (r: seq<bool>)
    ensures |r| % 512 == 0
  {
    ZeroBitsFill(|message|);
    message + [true] + Zeros(ZeroBits(|message|)) + BitsOf(|message|, 64)
  }

  /** The working variables, as numbers. */
  datatype Registers = Registers(a: U32, b: U32, c: U32, d: U32, e: U32)

  /** Section 5.3.1. */
  function Initial(): Registers {
    Registers(0x67452301, 0xefcdab89, 0x98badcfe, 0x10325476, 0xc3d2e1f0)
  }

  /** Section 6.1.2, step 1: one word of the message schedule, from the words before it. */
  function NextWord(block: seq<bool>, before: seq<U32>): U32
    requires |block| == 512
  {
    var t := |before|;
    if t < 16 then Num(block[32 * t..32 * t + 32])
    else Expand(before[t - 3], before[t - 8], before[t - 14], before[t - 16])
  }

  function Expand(x: U32, y: U32, z: U32, u: U32): U32 {
    Num(RotL(Xor(Xor(Xor(W32(x), W32(y)), W32(z)), W32(u)), 1))
  }

  /** The first `n` words of the message schedule. */
  function Schedule(block: seq<bool>, n: nat): (w: seq<U32>)
    requires |block| == 512
    ensures |w| == n
  {
    if n == 0 then [] else Schedule(block, n - 1) + [NextWord(block, Schedule(block, n - 1))]
  }

  /** Step 3, for one `t`. */
  function Round(t: nat, r: Registers, w: U32): Registers {
    var temp := Add(Add(Add(Add(RotLNum(r.a, 5), FNum(t, r.b, r.c, r.d)), r.e), K(t)), w);
    Registers(temp, r.a, RotLNum(r.b, 30), r.c, r.d)
  }

  /** Steps 2 and 3, over a schedule. */
  function Rounds(w: seq<U32>, r: Registers): Registers {
    if w == [] then r else Round(|w| - 1, Rounds(w[..|w| - 1], r), w[|w| - 1])
  }

  /** Step 4. */
  function AddRegisters(h: Registers, r: Registers): Registers {
    Registers(Add(h.a, r.a), Add(h.b, r.b), Add(h.c, r.c), Add(h.d, r.d), Add(h.e, r.e))
  }

  function Compress(h: Registers, block: seq<bool>): Registers
    requires |block| == 512
  {
    AddRegisters(h, Rounds(Schedule(block, 80), h))
  }

  function HashBlocks(padded: seq<bool>, n: nat): Registers
    requires 512 * n <= |padded|
  {
    if n == 0 then Initial() else Compress(HashBlocks(padded, n - 1), padded[512 * (n - 1)..512 * n])
  }

  function DigestOf(h: Registers): (r: seq<bool>)
    ensures |r| == 160
  {
    W32(h.a) + W32(h.b) + W32(h.c) + W32(h.d) + W32(h.e)
  }

  function Digest(message: seq<bool>): (r: seq<bool>)
    ensures |r| == 160
  {
    DigestOf(HashBlocks(Pad(message), |Pad(message)| / 512))
  }

  // ---------- padding ----------

  function PadLen(n: nat): nat {
    n + 1 + ((56 - ((n + 1) % 64) + 64) % 64) + 8
  }

  /** The padded length is the least multiple of 64 that is at least `n + 9`. */
  lemma PadLenIsLeast(n: nat, m: nat)
    ensures PadLen(n) % 64 == 0 && n + 9 <= PadLen(n)
    ensures m % 64 == 0 && m >= n + 9 ==> PadLen(n) <= m
  {}

  function ZeroBytes(k: nat): (r: seq<Byte>)
    ensures |r| == k
  {
    if k == 0 then [] else ZeroBytes(k - 1) + [0]
  }

  lemma {:induction false} ZeroBytesAreZero(k: nat)
    ensures Bits(ZeroBytes(k)) == Zeros(8 * k)
    ensures forall i :: 0 <= i < k ==> ZeroBytes(k)[i] == 0
  {
    if k > 0 {
      ZeroBytesAreZero(k - 1);
      assert ZeroBytes(k)[..k - 1] == ZeroBytes(k - 1);
      BitsOfZero(8);
      assert Zeros(8 * (k - 1)) + Zeros(8) == Zeros(8 * k);
    }
  }

  lemma {:induction false} BitsOfZero(k: nat)
    ensures BitsOf(0, k) == Zeros(k)
  {
    if k > 0 {
      BitsOfZero(k - 1);
      BitsStep(0, k);
    }
  }

  function PaddedBytes(data: seq<Byte>): (r: seq<Byte>)
    requires |data| < 0x2000_0000_0000_0000
    ensures |r| == PadLen(|data|)
  {
    var bits := 8 * |data|;
    data + [0x80] + ZeroBytes(PadLen(|data|) - |data| - 9) + Uint32Bytes(bits / TWO_32) + Uint32Bytes(bits % TWO_32)
  }

  lemma OneBitByte()
    ensures BitsOf(0x80, 8) == [true] + Zeros(7)
  {
    assert Pow2(7) == 0x80;
    BitsJoin(1, 0, 1, 7);
    BitsOfZero(7);
    BitsStep(1, 1);
  }

  lemma LengthBits(n: nat)
    requires n < TWO_32 * TWO_32
    ensures Bits(Uint32Bytes(n / TWO_32)) + Bits(Uint32Bytes(n % TWO_32)) == BitsOf(n, 64)
  {
    BytesOfNumber(n / TWO_32);
    BytesOfNumber(n % TWO_32);
    SmallWord(n / TWO_32);
    SmallWord(n % TWO_32);
    Pow2Values();
    BitsJoin(n / TWO_32, n % TWO_32, 32, 32);
  }

  lemma PadForm(message: seq<bool>, length: nat, zeros: nat)
    requires |message| == length && ZeroBits(length) == zeros
    ensures Pad(message) == message + [true] + Zeros(zeros) + BitsOf(length, 64)
  {}

  /** The parts of a padded message, from its bytes. */
  function LaidOut(data: seq<Byte>): seq<bool>
    requires |data| < 0x2000_0000_0000_0000
  {
    var bits := 8 * |data|;
    Bits(data) + ([true] + Zeros(7)) + Zeros(8 * (PadLen(|data|) - |data| - 9))
    + Bits(Uint32Bytes(bits / TWO_32)) + Bits(Uint32Bytes(bits % TWO_32))
  }

  lemma BytesLaidOut(data: seq<Byte>)
    requires |data| < 0x2000_0000_0000_0000
    ensures Bits(PaddedBytes(data)) == LaidOut(data)
  {
    var bits := 8 * |data|;
    PartsOfPadding(data, PadLen(|data|) - |data| - 9, Uint32Bytes(bits / TWO_32), Uint32Bytes(bits % TWO_32));
  }

  lemma MessageForm(message: seq<bool>, length: nat, k: nat, high: seq<bool>, low: seq<bool>)
    requires |message| == length && ZeroBits(length) == 7 + 8 * k && high + low == BitsOf(length, 64)
    ensures Pad(message) == message + ([true] + Zeros(7)) + Zeros(8 * k) + high + low
  {
    PadForm(message, length, 7 + 8 * k);
    JoinZeros(message, k, high, low);
  }

  lemma MessageLaidOut(data: seq<Byte>)
    requires |data| < 0x2000_0000_0000_0000
    ensures Pad(Bits(data)) == LaidOut(data)
  {
    var bits := 8 * |data|;
    ZeroBitsOfBytes(|data|);
    LengthBits(bits);
    MessageForm(Bits(data), bits, PadLen(|data|) - |data| - 9, Bits(Uint32Bytes(bits / TWO_32)), Bits(Uint32Bytes(bits % TWO_32)));
  }

  /** The padded bytes are the padded message. */
  lemma PaddingIsStandard(data: seq<Byte>)
    requires |data| < 0x2000_0000_0000_0000
    ensures Bits(PaddedBytes(data)) == Pad(Bits(data))
  {
    BytesLaidOut(data);
    MessageLaidOut(data);
  }

  lemma PartsOfPadding(data: seq<Byte>, k: nat, high: seq<Byte>, low: seq<Byte>)
    ensures Bits(data + [0x80] + ZeroBytes(k) + high + low)
         == Bits(data) + ([true] + Zeros(7)) + Zeros(8 * k) + Bits(high) + Bits(low)
  {
    var zeros := ZeroBytes(k);
    BitsSplit(data, [0x80]);
    BitsSplit(data + [0x80], zeros);
    BitsSplit(data + [0x80] + zeros, high);
    BitsSplit(data + [0x80] + zeros + high, low);
    BitsOfOne(0x80);
    OneBitByte();
    ZeroBytesAreZero(k);
  }

  lemma ZeroBitsOfBytes(n: nat)
    ensures ZeroBits(8 * n) == 7 + 8 * (PadLen(n) - n - 9)
  {
    var q, r := n / 64, n % 64;
    assert 8 * n + 1 == 512 * q + (8 * r + 1);
    assert (8 * n + 1) % 512 == 8 * r + 1;
    assert (n + 1) % 64 == if r == 63 then 0 else r + 1;
  }

  lemma JoinZeros(message: seq<bool>, k: nat, high: seq<bool>, low: seq<bool>)
    ensures message + ([true] + Zeros(7)) + Zeros(8 * k) + high + low == message + [true] + Zeros(7 + 8 * k) + (high + low)
  {}
}
