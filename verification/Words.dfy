/** 32-bit words as bit strings, most significant bit first, and JavaScript's numbers and bitwise
    operators over them. */
module Words {

  type Word = w: seq<bool> | |w| == 32 witness seq(32, i => false)

  type U32 = n: nat | n < TWO_32

  type Byte = b: nat | b < 256

  const TWO_32: nat := 0x1_0000_0000

  function Pow2(k: nat): (p: nat)
    ensures p > 0
  {
    if k == 0 then 1 else 2 * Pow2(k - 1)
  }

  lemma Pow2Values()
    ensures Pow2(8) == 0x100 && Pow2(16) == 0x1_0000 && Pow2(24) == 0x100_0000 && Pow2(32) == TWO_32
  {
    assert Pow2(4) == 16;
    assert Pow2(8) == 0x100;
    assert Pow2(12) == 0x1000;
    assert Pow2(16) == 0x1_0000;
    assert Pow2(20) == 0x10_0000;
    assert Pow2(24) == 0x100_0000;
    assert Pow2(28) == 0x1000_0000;
  }

  // ---------- bits and numbers ----------

  function Zeros(k: nat): (r: seq<bool>)
    ensures |r| == k
  {
    seq(k, i => false)
  }

  /** The bit of weight two to the `j`. */
  function Bit(n: nat, j: nat): bool
    decreases j
  {
    if j == 0 then n % 2 == 1 else Bit(n / 2, j - 1)
  }

  /** The low `k` bits of a number. */
  function BitsOf(n: nat, k: nat): (r: seq<bool>)
    ensures |r| == k
  {
    seq(k, i requires 0 <= i < k => Bit(n, k - 1 - i))
  }

  /** The number that the first `k` bits make. */
  function ValTo(s: seq<bool>, k: nat): nat
    requires k <= |s|
  {
    if k == 0 then 0 else 2 * ValTo(s, k - 1) + if s[k - 1] then 1 else 0
  }

  function Val(s: seq<bool>): nat {
    ValTo(s, |s|)
  }

  lemma BitsStep(n: nat, k: nat)
    requires k > 0
    ensures BitsOf(n, k) == BitsOf(n / 2, k - 1) + [n % 2 == 1]
  {
    var all, front := BitsOf(n, k), BitsOf(n / 2, k - 1);
    forall i | 0 <= i < k ensures all[i] == (front + [n % 2 == 1])[i] {
      if i < k - 1 {
        var j := k - 1 - i;
        assert Bit(n, j) == Bit(n / 2, j - 1);
        assert all[i] == Bit(n, j) && front[i] == Bit(n / 2, j - 1);
      } else {
        assert all[i] == Bit(n, 0);
      }
    }
  }

  lemma {:induction false} ValOfPrefix(s: seq<bool>, t: seq<bool>, k: nat)
    requires k <= |s| && k <= |t| && s[..k] == t[..k]
    ensures ValTo(s, k) == ValTo(t, k)
  {
    if k > 0 {
      assert s[k - 1] == s[..k][k - 1] == t[..k][k - 1] == t[k - 1];
      assert s[..k - 1] == s[..k][..k - 1] == t[..k][..k - 1] == t[..k - 1];
      ValOfPrefix(s, t, k - 1);
    }
  }

  lemma ValStep(front: seq<bool>, bit: bool)
    ensures Val(front + [bit]) == 2 * Val(front) + if bit then 1 else 0
  {
    assert (front + [bit])[..|front|] == front[..|front|];
    ValOfPrefix(front + [bit], front, |front|);
  }

  lemma {:induction false} ValIsSmall(s: seq<bool>, k: nat)
    requires k <= |s|
    ensures ValTo(s, k) < Pow2(k)
  {
    if k > 0 {
      ValIsSmall(s, k - 1);
    }
  }

  /** A number that fits is its bits. */
  lemma {:induction false} ValOfBits(n: nat, k: nat)
    requires n < Pow2(k)
    ensures Val(BitsOf(n, k)) == n
    decreases k
  {
    if k > 0 {
      ValOfBits(n / 2, k - 1);
      BitsStep(n, k);
      ValStep(BitsOf(n / 2, k - 1), n % 2 == 1);
    }
  }

  lemma {:induction false} BitsOfVal(s: seq<bool>)
    ensures BitsOf(Val(s), |s|) == s
    decreases |s|
  {
    if s != [] {
      var front, bit := s[..|s| - 1], s[|s| - 1];
      assert s == front + [bit];
      BitsOfVal(front);
      ValStep(front, bit);
      BitsStep(Val(s), |s|);
    }
  }

  /** Bits of a number put together from a high and a low part. */
  lemma {:induction false} BitsJoin(high: nat, low: nat, k: nat, j: nat)
    requires low < Pow2(j)
    ensures BitsOf(high * Pow2(j) + low, k + j) == BitsOf(high, k) + BitsOf(low, j)
    decreases j
  {
    if j > 0 {
      var n, half := high * Pow2(j) + low, high * Pow2(j - 1);
      assert high * Pow2(j) == 2 * half;
      BitsJoin(high, low / 2, k, j - 1);
      assert n / 2 == half + low / 2 && n % 2 == low % 2;
      BitsStep(n, k + j);
      BitsStep(low, j);
    } else {
      assert high * Pow2(0) == high;
    }
  }

  /** The word of a number, modulo two to the 32. */
  function W32(x: int): Word {
    BitsOf(x % TWO_32, 32)
  }

  /** Every word is the word of exactly one number. */
  lemma OneNumber(w: Word)
    ensures exists n: U32 :: W32(n) == w
    ensures forall m: U32, n: U32 :: W32(m) == w && W32(n) == w ==> m == n
  {
    Pow2Values();
    ValIsSmall(w, 32);
    var v: U32 := Val(w);
    BitsOfVal(w);
    SmallWord(v);
    forall n: U32 | W32(n) == w ensures n == v {
      SmallWord(n);
      ValOfBits(n, 32);
    }
  }

  /** The number of a word. */
  function Num(w: Word): U32 {
    OneNumber(w);
    var n: U32 :| W32(n) == w;
    n
  }

  lemma WordOfNumber(x: int)
    ensures Num(W32(x)) == x % TWO_32
  {
    var n: U32 := x % TWO_32;
    assert n as int % TWO_32 == n;
    assert W32(n) == W32(x);
    OneNumber(W32(x));
    assert W32(Num(W32(x))) == W32(n);
  }

  lemma NumberOfWord(w: Word)
    ensures W32(Num(w)) == w
  {}

  // ---------- the operations of section 3.2 of FIPS 180-4 ----------

  function And(x: Word, y: Word): Word {
    seq(32, i requires 0 <= i < 32 => x[i] && y[i])
  }

  function Or(x: Word, y: Word): Word {
    seq(32, i requires 0 <= i < 32 => x[i] || y[i])
  }

  function Xor(x: Word, y: Word): Word {
    seq(32, i requires 0 <= i < 32 => x[i] != y[i])
  }

  function Not(x: Word): Word {
    seq(32, i requires 0 <= i < 32 => !x[i])
  }

  function Shl(x: Word, n: nat): Word
    requires n < 32
  {
    x[n..] + Zeros(n)
  }

  function Shr(x: Word, n: nat): Word
    requires n < 32
  {
    Zeros(n) + x[..32 - n]
  }

  /** A circular shift. */
  function RotL(x: Word, n: nat): Word
    requires n < 32
  {
    x[n..] + x[..n]
  }

  /** Addition of words, as numbers modulo two to the 32. */
  function Add(x: U32, y: U32): U32 {
    (x + y) % TWO_32
  }

  /** The circular shift of a word given as a number. */
  function RotLNum(x: U32, n: nat): U32
    requires n < 32
  {
    Num(RotL(W32(x), n))
  }

  lemma RotationByShifts(x: Word, n: nat)
    requires 0 < n < 32
    ensures Or(Shl(x, n), Shr(x, 32 - n)) == RotL(x, n)
  {}

  // ---------- JavaScript ----------

  /** Sums of numbers are exact below two to the 53. */
  function JsAdd(x: int, y: int): int
    requires -0x20_0000_0000_0000 < x + y < 0x20_0000_0000_0000
  {
    x + y
  }

  /** The result of a bitwise operator is a signed 32-bit number. */
  function Signed(w: Word): (x: int)
    ensures -0x8000_0000 <= x < 0x8000_0000
  {
    if Num(w) < 0x8000_0000 then Num(w) else Num(w) - TWO_32
  }

  /** The operator `>>> 0`. */
  function Unsigned(x: int): U32 {
    x % TWO_32
  }

  function JsAnd(x: int, y: int): int {
    Signed(And(W32(x), W32(y)))
  }

  function JsOr(x: int, y: int): int {
    Signed(Or(W32(x), W32(y)))
  }

  function JsXor(x: int, y: int): int {
    Signed(Xor(W32(x), W32(y)))
  }

  function JsNot(x: int): int {
    Signed(Not(W32(x)))
  }

  function JsShl(x: int, n: nat): int
    requires n < 32
  {
    Signed(Shl(W32(x), n))
  }

  /** The operator `>>>`. */
  function JsShr(x: int, n: nat): int
    requires n < 32
  {
    Num(Shr(W32(x), n))
  }

  /** Reading a signed result as a word again gives back the word. */
  lemma SignedKeepsWord(w: Word)
    ensures W32(Signed(w)) == w && Signed(w) % TWO_32 == Num(w)
  {
    NumberOfWord(w);
    WrapsBack(Num(w));
    SameWord(Signed(w), Num(w));
  }

  lemma WrapsBack(n: nat)
    requires n < TWO_32
    ensures n % TWO_32 == n && (n - TWO_32) % TWO_32 == n
  {}

  lemma SameWord(x: int, y: int)
    requires x % TWO_32 == y % TWO_32
    ensures W32(x) == W32(y)
  {}

  /** So the operators compute on words what they say. */
  lemma OperatorsOnWords(x: int, y: int)
    ensures W32(JsAnd(x, y)) == And(W32(x), W32(y)) && JsAnd(x, y) % TWO_32 == Num(And(W32(x), W32(y)))
    ensures W32(JsOr(x, y)) == Or(W32(x), W32(y)) && JsOr(x, y) % TWO_32 == Num(Or(W32(x), W32(y)))
    ensures W32(JsXor(x, y)) == Xor(W32(x), W32(y)) && JsXor(x, y) % TWO_32 == Num(Xor(W32(x), W32(y)))
    ensures W32(JsNot(x)) == Not(W32(x))
  {
    SignedKeepsWord(And(W32(x), W32(y)));
    SignedKeepsWord(Or(W32(x), W32(y)));
    SignedKeepsWord(Xor(W32(x), W32(y)));
    SignedKeepsWord(Not(W32(x)));
  }

  function JsRotL(x: int, n: nat): int
    requires 0 < n < 32
  {
    JsOr(JsShl(x, n), JsShr(x, 32 - n))
  }

  /** Two shifts and an or are a rotation. */
  lemma ShiftsRotate(x: int, n: nat)
    requires 0 < n < 32
    ensures W32(JsRotL(x, n)) == RotL(W32(x), n) && Unsigned(JsRotL(x, n)) == Num(RotL(W32(x), n))
  {
    SignedKeepsWord(Shl(W32(x), n));
    NumberOfWord(Shr(W32(x), 32 - n));
    OperatorsOnWords(JsShl(x, n), JsShr(x, 32 - n));
    RotationByShifts(W32(x), n);
  }

  // ---------- bytes ----------

  function Bits(bytes: seq<Byte>): (r: seq<bool>)
    ensures |r| == 8 * |bytes|
  {
    if bytes == [] then [] else Bits(bytes[..|bytes| - 1]) + BitsOf(bytes[|bytes| - 1], 8)
  }

  lemma {:induction false} BitsSplit(a: seq<Byte>, b: seq<Byte>)
    ensures Bits(a + b) == Bits(a) + Bits(b)
    decreases |b|
  {
    if b == [] {
      assert a + b == a;
    } else {
      BitsSplit(a, b[..|b| - 1]);
      assert (a + b)[..|a + b| - 1] == a + b[..|b| - 1];
    }
  }

  lemma BitsOfOne(b: Byte)
    ensures Bits([b]) == BitsOf(b, 8)
  {
    assert [b][..0] == [];
  }

  lemma Middle(a: seq<bool>, b: seq<bool>, c: seq<bool>)
    ensures ((a + b) + c)[|a|..|a| + |b|] == b
  {}

  /** The bits of a stretch of bytes lie at eight times its place. */
  lemma BitsOfMiddle(a: seq<Byte>, b: seq<Byte>, c: seq<Byte>)
    ensures Bits((a + b) + c)[8 * |a|..8 * |a| + 8 * |b|] == Bits(b)
  {
    BitsSplit(a + b, c);
    BitsSplit(a, b);
    Middle(Bits(a), Bits(b), Bits(c));
  }

  lemma ThreeParts(s: seq<Byte>, i: nat, j: nat)
    requires i <= j <= |s|
    ensures (s[..i] + s[i..j]) + s[j..] == s
  {}

  lemma BitsAt(bytes: seq<Byte>, i: nat, j: nat)
    requires i <= j <= |bytes|
    ensures Bits(bytes)[8 * i..8 * j] == Bits(bytes[i..j])
  {
    BitsOfMiddle(bytes[..i], bytes[i..j], bytes[j..]);
    ThreeParts(bytes, i, j);
  }

  /** The big-endian number of two bytes. */
  function Half(b: seq<Byte>): (n: nat)
    requires |b| == 2
    ensures n < 0x1_0000
  {
    b[0] as nat * 0x100 + b[1]
  }

  function HalfBytes(n: nat): (b: seq<Byte>)
    requires n < 0x1_0000
    ensures |b| == 2 && Half(b) == n
  {
    [n / 0x100, n % 0x100]
  }

  /** The big-endian number of four bytes. */
  function Uint32(b: seq<Byte>): (n: nat)
    requires |b| == 4
    ensures n < TWO_32
  {
    Half(b[..2]) * 0x1_0000 + Half(b[2..])
  }

  /** The big-endian bytes of a number. */
  function Uint32Bytes(n: nat): (b: seq<Byte>)
    requires n < TWO_32
    ensures |b| == 4
  {
    HalfBytes(n / 0x1_0000) + HalfBytes(n % 0x1_0000)
  }

  lemma BytesGiveNumber(n: nat)
    requires n < TWO_32
    ensures Uint32(Uint32Bytes(n)) == n
  {
    assert Uint32Bytes(n)[..2] == HalfBytes(n / 0x1_0000) && Uint32Bytes(n)[2..] == HalfBytes(n % 0x1_0000);
  }

  lemma TwoBytes(b: seq<Byte>)
    requires |b| == 2
    ensures Bits(b) == BitsOf(Half(b), 16)
  {
    assert [b[0]] + [b[1]] == b;
    ByteAndByte(b[0], b[1]);
  }

  lemma ByteAndByte(x: Byte, y: Byte)
    ensures Bits([x] + [y]) == BitsOf(x as nat * 0x100 + y, 16)
  {
    Pow2Values();
    BitsSplit([x], [y]);
    BitsOfOne(x);
    BitsOfOne(y);
    BitsJoin(x, y, 8, 8);
  }

  lemma HalfWords(high: nat, low: nat)
    requires high < 0x1_0000 && low < 0x1_0000
    ensures W32(high * 0x1_0000 + low) == BitsOf(high, 16) + BitsOf(low, 16)
  {
    Pow2Values();
    BitsJoin(high, low, 16, 16);
    SmallWord(high * 0x1_0000 + low);
  }

  lemma SmallWord(n: nat)
    requires n < TWO_32
    ensures W32(n) == BitsOf(n, 32)
  {
    assert n % TWO_32 == n;
  }

  lemma FourBytes(b: seq<Byte>)
    requires |b| == 4
    ensures Bits(b) == W32(Uint32(b))
  {
    assert b == b[..2] + b[2..];
    BitsSplit(b[..2], b[2..]);
    TwoBytes(b[..2]);
    TwoBytes(b[2..]);
    HalfWords(Half(b[..2]), Half(b[2..]));
  }

  lemma BytesOfNumber(n: nat)
    requires n < TWO_32
    ensures Bits(Uint32Bytes(n)) == W32(n)
  {
    FourBytes(Uint32Bytes(n));
    BytesGiveNumber(n);
  }
}
