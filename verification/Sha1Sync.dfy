/** The loops of the hand-written SHA-1, over JavaScript numbers and typed arrays. */
module Sha1Sync {
  import opened Words
  import opened Sha1

  // ---------- numbers and words ----------

  lemma ChooseByOr(x: Word, y: Word, z: Word)
    ensures Or(And(x, y), And(Not(x), z)) == F(0, x, y, z)
  {}

  lemma MajorityByOr(x: Word, y: Word, z: Word)
    ensures Or(Or(And(x, y), And(x, z)), And(y, z)) == F(40, x, y, z)
  {}

  lemma JsChoose(b: int, c: int, d: int)
    ensures W32(JsOr(JsAnd(b, c), JsAnd(JsNot(b), d))) == F(0, W32(b), W32(c), W32(d))
  {
    OperatorsOnWords(b, c);
    OperatorsOnWords(JsNot(b), d);
    OperatorsOnWords(JsAnd(b, c), JsAnd(JsNot(b), d));
    ChooseByOr(W32(b), W32(c), W32(d));
  }

  lemma JsMajority(b: int, c: int, d: int)
    ensures W32(JsOr(JsOr(JsAnd(b, c), JsAnd(b, d)), JsAnd(c, d))) == F(40, W32(b), W32(c), W32(d))
  {
    OperatorsOnWords(b, c);
    OperatorsOnWords(b, d);
    OperatorsOnWords(c, d);
    OperatorsOnWords(JsAnd(b, c), JsAnd(b, d));
    OperatorsOnWords(JsOr(JsAnd(b, c), JsAnd(b, d)), JsAnd(c, d));
    MajorityByOr(W32(b), W32(c), W32(d));
  }

  lemma JsParity(b: int, c: int, d: int)
    ensures W32(JsXor(JsXor(b, c), d)) == Xor(Xor(W32(b), W32(c)), W32(d))
  {
    OperatorsOnWords(b, c);
    OperatorsOnWords(JsXor(b, c), d);
  }

  lemma BothWrap(x: int, y: int)
    ensures Add(Unsigned(x), Unsigned(y)) == Unsigned(x + y)
  {}

  lemma OneWraps(x: int, y: U32)
    ensures Add(Unsigned(x), y) == Unsigned(x + y)
  {}

  /** Five numbers added and wrapped once are five words added one by one. */
  lemma FiveSummands(x: int, y: int, z: U32, u: U32, v: U32)
    ensures Unsigned(x + y + z + u + v) == Add(Add(Add(Add(Unsigned(x), Unsigned(y)), z), u), v)
  {
    BothWrap(x, y);
    OneWraps(x + y, z);
    OneWraps(x + y + z, u);
    OneWraps(x + y + z + u, v);
  }

  /** One expanded word. */
  lemma JsExpand(x: U32, y: U32, z: U32, u: U32)
    ensures Unsigned(JsRotL(JsXor(JsXor(JsXor(x, y), z), u), 1)) == Expand(x, y, z, u)
  {
    OperatorsOnWords(x, y);
    OperatorsOnWords(JsXor(x, y), z);
    OperatorsOnWords(JsXor(JsXor(x, y), z), u);
    ShiftsRotate(JsXor(JsXor(JsXor(x, y), z), u), 1);
  }

  // ---------- blocks ----------

  /** The block that starts at byte `i`. */
  function BlockAt(padded: seq<Byte>, i: nat): (block: seq<bool>)
    requires i + 64 <= |padded|
    ensures |block| == 512
  {
    Bits(padded)[8 * i..8 * i + 512]
  }

  lemma SliceOfSlice(s: seq<bool>, a: nat, b: nat, c: nat, d: nat)
    requires c <= d && a + d <= b <= |s|
    ensures s[a..b][c..d] == s[a + c..a + d]
  {
    forall k | 0 <= k < d - c ensures s[a..b][c..d][k] == s[a + c..a + d][k] {}
  }

  lemma NumberAt(padded: seq<Byte>, k: nat)
    requires k + 4 <= |padded|
    ensures Bits(padded)[8 * k..8 * k + 32] == W32(Uint32(padded[k..k + 4]))
  {
    BitsAt(padded, k, k + 4);
    FourBytes(padded[k..k + 4]);
  }

  lemma WordInBlock(padded: seq<Byte>, i: nat, t: nat)
    requires i + 64 <= |padded| && t < 16
    ensures Num(BlockAt(padded, i)[32 * t..32 * t + 32]) == Uint32(padded[i + 4 * t..i + 4 * t + 4])
  {
    NumberAt(padded, i + 4 * t);
    SliceOfSlice(Bits(padded), 8 * i, 8 * i + 512, 32 * t, 32 * t + 32);
    SmallNumber(Uint32(padded[i + 4 * t..i + 4 * t + 4]));
  }

  lemma SmallNumber(n: U32)
    ensures Num(W32(n)) == n
  {
    WordOfNumber(n);
    assert n as int % TWO_32 == n;
  }

  // ---------- the loops ----------

  method SetUint32(view: array<Byte>, at: nat, n: nat)
    requires at + 4 <= view.Length && n < TWO_32
    modifies view
    ensures view[at..at + 4] == Uint32Bytes(n)
    ensures forall j :: 0 <= j < at || at + 4 <= j < view.Length ==> view[j] == old(view[j])
  {
    var bytes := Uint32Bytes(n);
    view[at], view[at + 1], view[at + 2], view[at + 3] := bytes[0], bytes[1], bytes[2], bytes[3];
  }

  method CopyData(data: seq<Byte>) returns (padded: array<Byte>)
    requires |data| < 0x2000_0000_0000_0000
    ensures padded.Length == PadLen(|data|) && fresh(padded)
    ensures forall j :: 0 <= j < padded.Length ==> padded[j] == if j < |data| then data[j] else if j == |data| then 0x80 else 0
  {
    padded := new Byte[PadLen(|data|)](i => 0);
    for k := 0 to |data|
      invariant forall j :: 0 <= j < padded.Length ==> padded[j] == if j < k then data[j] else 0
    {
      padded[k] := data[k];
    }
    padded[|data|] := 0x80;
  }

  lemma FrontOfPadded(data: seq<Byte>, front: seq<Byte>)
    requires |data| < 0x2000_0000_0000_0000 && |front| == PadLen(|data|) - 8
    requires forall j :: 0 <= j < |front| ==> front[j] == if j < |data| then data[j] else if j == |data| then 0x80 else 0
    ensures front + Uint32Bytes(8 * |data| / TWO_32) + Uint32Bytes(8 * |data| % TWO_32) == PaddedBytes(data)
  {
    var zeros := PadLen(|data|) - |data| - 9;
    ZeroBytesAreZero(zeros);
    assert front == data + [0x80] + ZeroBytes(zeros);
  }

  lemma EndParts(s: seq<Byte>, front: seq<Byte>, high: seq<Byte>, low: seq<Byte>)
    requires |s| == |front| + 8 && s[..|front|] == front
    requires s[|front|..|front| + 4] == high && s[|front| + 4..|front| + 8] == low
    ensures s == front + high + low
  {
    assert s == s[..|front|] + s[|front|..|front| + 4] + s[|front| + 4..|front| + 8];
  }

  lemma LengthFits(n: nat)
    requires n < 0x2000_0000_0000_0000
    ensures 8 * n / TWO_32 % TWO_32 == 8 * n / TWO_32 < TWO_32
  {}

  /** The message with its one bit, its zeros and its length. */
  method PadMessage(data: seq<Byte>) returns (padded: array<Byte>)
    requires |data| < 0x2000_0000_0000_0000
    ensures padded[..] == PaddedBytes(data)
  {
    padded := CopyData(data);
    var padLen, bitLen := padded.Length, 8 * |data|;
    ghost var front := padded[..padLen - 8];
    FrontOfPadded(data, front);
    LengthFits(|data|);
    SetUint32(padded, padLen - 8, bitLen / TWO_32 % TWO_32);
    SetUint32(padded, padLen - 4, bitLen % TWO_32);
    EndParts(padded[..], front, Uint32Bytes(bitLen / TWO_32), Uint32Bytes(bitLen % TWO_32));
  }

  lemma {:induction false} ScheduleAt(block: seq<bool>, n: nat, t: nat)
    requires |block| == 512 && t < n
    ensures Schedule(block, n)[..t] == Schedule(block, t)
    ensures Schedule(block, n)[t] == NextWord(block, Schedule(block, t))
    decreases n
  {
    if t < n - 1 {
      ScheduleAt(block, n - 1, t);
    }
  }

  lemma ReadWord(block: seq<bool>, t: nat)
    requires |block| == 512 && t < 16
    ensures Schedule(block, 80)[t] == Num(block[32 * t..32 * t + 32])
  {
    ScheduleAt(block, 80, t);
  }

  lemma ExpandedWord(w: seq<U32>, block: seq<bool>, t: nat)
    requires 16 <= t < |w| == 80 && |block| == 512 && w[..t] == Schedule(block, 80)[..t]
    ensures Expand(w[t - 3], w[t - 8], w[t - 14], w[t - 16]) == Schedule(block, 80)[t]
  {
    ScheduleAt(block, 80, t);
    var before := Schedule(block, t);
    assert forall u :: 0 <= u < t ==> before[u] == w[..t][u] == w[u];
  }

  /** The message schedule of the block at byte `i`. */
  method FillSchedule(padded: seq<Byte>, i: nat, w: array<U32>)
    requires i + 64 <= |padded| && w.Length == 80
    modifies w
    ensures w[..] == Schedule(BlockAt(padded, i), 80)
  {
    ghost var block := BlockAt(padded, i);
    ghost var words := Schedule(block, 80);
    for t := 0 to 16
      invariant w[..t] == words[..t]
    {
      WordInBlock(padded, i, t);
      ReadWord(block, t);
      w[t] := Uint32(padded[i + 4 * t..i + 4 * t + 4]);
    }
    for t := 16 to 80
      invariant w[..t] == words[..t]
    {
      ExpandedWord(w[..], block, t);
      JsExpand(w[t - 3], w[t - 8], w[t - 14], w[t - 16]);
      var x := JsXor(JsXor(JsXor(w[t - 3], w[t - 8]), w[t - 14]), w[t - 16]);
      w[t] := Unsigned(JsRotL(x, 1));
    }
  }

  lemma RoundAdvances(words: seq<U32>, h: Registers, t: nat, r: Registers, next: Registers)
    requires t < |words| && r == Rounds(words[..t], h) && next == Round(t, r, words[t])
    ensures next == Rounds(words[..t + 1], h)
  {
    assert words[..t + 1][..t] == words[..t];
  }

  /** The branches of a round: the written choose, parity and majority are the functions of the
      standard, and the constants go with them. */
  method RoundFunction(t: nat, b: U32, c: U32, d: U32) returns (f: int, k: U32)
    ensures Unsigned(f) == FNum(t, b, c, d) && k == K(t) && -0x8000_0000 <= f < 0x8000_0000
  {
    if t < 20 {
      JsChoose(b, c, d);
      f := JsOr(JsAnd(b, c), JsAnd(JsNot(b), d));
      k := 0x5a827999;
    } else if t < 40 {
      JsParity(b, c, d);
      f := JsXor(JsXor(b, c), d);
      k := 0x6ed9eba1;
    } else if t < 60 {
      JsMajority(b, c, d);
      f := JsOr(JsOr(JsAnd(b, c), JsAnd(b, d)), JsAnd(c, d));
      k := 0x8f1bbcdc;
    } else {
      JsParity(b, c, d);
      f := JsXor(JsXor(b, c), d);
      k := 0xca62c1d6;
    }
    WordOfNumber(f);
  }

  /** Two shifts and an or. */
  method Rotate(x: U32, n: nat) returns (r: int)
    requires 0 < n < 32
    ensures Unsigned(r) == RotLNum(x, n) && -0x8000_0000 <= r < 0x8000_0000
  {
    ShiftsRotate(x, n);
    r := JsOr(JsShl(x, n), JsShr(x, 32 - n));
  }

  /** One round; every sum on the way is exact. */
  method OneRound(t: nat, a: U32, b: U32, c: U32, d: U32, e: U32, wt: U32) returns (temp: U32, rotated: U32)
    ensures Registers(temp, a, rotated, c, d) == Round(t, Registers(a, b, c, d, e), wt)
  {
    var f, k := RoundFunction(t, b, c, d);
    var a5 := Rotate(a, 5);
    var b30 := Rotate(b, 30);
    FiveSummands(a5, f, e, k, wt);
    temp := Unsigned(JsAdd(JsAdd(JsAdd(JsAdd(a5, f), e), k), wt));
    rotated := Unsigned(b30);
  }

  /** Eighty rounds over a filled schedule. */
  method RunRounds(w: array<U32>, h0: U32, h1: U32, h2: U32, h3: U32, h4: U32)
    returns (a: U32, b: U32, c: U32, d: U32, e: U32)
    requires w.Length == 80
    ensures Registers(a, b, c, d, e) == Rounds(w[..], Registers(h0, h1, h2, h3, h4))
  {
    a, b, c, d, e := h0, h1, h2, h3, h4;
    ghost var words, h := w[..], Registers(h0, h1, h2, h3, h4);
    assert words[..0] == [];
    for t := 0 to 80
      invariant Registers(a, b, c, d, e) == Rounds(words[..t], h)
    {
      var temp, rotated := OneRound(t, a, b, c, d, e, w[t]);
      RoundAdvances(words, h, t, Registers(a, b, c, d, e), Registers(temp, a, rotated, c, d));
      e := d;
      d := c;
      c := rotated;
      b := a;
      a := temp;
    }
    assert words[..80] == words;
  }

  function Words5(h0: U32, h1: U32, h2: U32, h3: U32, h4: U32): seq<Byte>
  {
    Uint32Bytes(h0) + Uint32Bytes(h1) + Uint32Bytes(h2) + Uint32Bytes(h3) + Uint32Bytes(h4)
  }

  lemma BitsOfWords5(h0: U32, h1: U32, h2: U32, h3: U32, h4: U32)
    ensures Bits(Words5(h0, h1, h2, h3, h4)) == DigestOf(Registers(h0, h1, h2, h3, h4))
  {
    var b0, b1, b2, b3, b4 := Uint32Bytes(h0), Uint32Bytes(h1), Uint32Bytes(h2), Uint32Bytes(h3), Uint32Bytes(h4);
    BitsSplit(b0, b1);
    BitsSplit(b0 + b1, b2);
    BitsSplit(b0 + b1 + b2, b3);
    BitsSplit(b0 + b1 + b2 + b3, b4);
    BytesOfNumber(h0);
    BytesOfNumber(h1);
    BytesOfNumber(h2);
    BytesOfNumber(h3);
    BytesOfNumber(h4);
  }

  lemma FiveParts(out: seq<Byte>, b0: seq<Byte>, b1: seq<Byte>, b2: seq<Byte>, b3: seq<Byte>, b4: seq<Byte>)
    requires |out| == 20 && out[0..4] == b0 && out[4..8] == b1 && out[8..12] == b2 && out[12..16] == b3 && out[16..20] == b4
    ensures out == b0 + b1 + b2 + b3 + b4
  {
    assert out == out[0..4] + out[4..8] + out[8..12] + out[12..16] + out[16..20];
  }

  method WriteDigest(h0: U32, h1: U32, h2: U32, h3: U32, h4: U32) returns (out: array<Byte>)
    ensures out[..] == Words5(h0, h1, h2, h3, h4)
  {
    out := new Byte[20](i => 0);
    SetUint32(out, 0, h0);
    SetUint32(out, 4, h1);
    SetUint32(out, 8, h2);
    SetUint32(out, 12, h3);
    SetUint32(out, 16, h4);
    FiveParts(out[..], Uint32Bytes(h0), Uint32Bytes(h1), Uint32Bytes(h2), Uint32Bytes(h3), Uint32Bytes(h4));
  }

  lemma BlockAdvances(padded: seq<Byte>, n: nat, h: Registers, next: Registers)
    requires 64 * (n + 1) <= |padded|
    requires h == HashBlocks(Bits(padded), n) && next == Compress(h, BlockAt(padded, 64 * n))
    ensures next == HashBlocks(Bits(padded), n + 1)
  {
    assert 8 * (64 * n) == 512 * n && 8 * (64 * n) + 512 == 512 * (n + 1);
  }

  /** One block: schedule, rounds, and the addition to the running hash. */
  method HashBlock(padded: seq<Byte>, i: nat, w: array<U32>, h0: U32, h1: U32, h2: U32, h3: U32, h4: U32)
    returns (g0: U32, g1: U32, g2: U32, g3: U32, g4: U32)
    requires i + 64 <= |padded| && w.Length == 80
    modifies w
    ensures Registers(g0, g1, g2, g3, g4) == Compress(Registers(h0, h1, h2, h3, h4), BlockAt(padded, i))
  {
    FillSchedule(padded, i, w);
    var a, b, c, d, e := RunRounds(w, h0, h1, h2, h3, h4);
    g0 := Unsigned(JsAdd(h0, a));
    g1 := Unsigned(JsAdd(h1, b));
    g2 := Unsigned(JsAdd(h2, c));
    g3 := Unsigned(JsAdd(h3, d));
    g4 := Unsigned(JsAdd(h4, e));
  }

  lemma NextBlockFits(length: nat, n: nat)
    requires length % 64 == 0 && 64 * n < length
    ensures 64 * (n + 1) <= length
  {}

  /** Every block of the padded message, in order. */
  method HashAll(padded: seq<Byte>) returns (h0: U32, h1: U32, h2: U32, h3: U32, h4: U32)
    requires |padded| % 64 == 0
    ensures Registers(h0, h1, h2, h3, h4) == HashBlocks(Bits(padded), |padded| / 64)
  {
    h0, h1, h2, h3, h4 := 0x67452301, 0xefcdab89, 0x98badcfe, 0x10325476, 0xc3d2e1f0;
    var w := new U32[80](i => 0);
    var i := 0;
    ghost var n := 0;
    while i < |padded|
      invariant i == 64 * n && i <= |padded|
      invariant Registers(h0, h1, h2, h3, h4) == HashBlocks(Bits(padded), n)
    {
      NextBlockFits(|padded|, n);
      var g0, g1, g2, g3, g4 := HashBlock(padded, i, w, h0, h1, h2, h3, h4);
      BlockAdvances(padded, n, Registers(h0, h1, h2, h3, h4), Registers(g0, g1, g2, g3, g4));
      h0, h1, h2, h3, h4 := g0, g1, g2, g3, g4;
      i, n := i + 64, n + 1;
    }
  }

  /** The bytes returned are the SHA-1 digest of the bytes given. */
  method Sha1Sync(data: seq<Byte>) returns (out: array<Byte>)
    requires |data| < 0x2000_0000_0000_0000
    ensures out.Length == 20 && Bits(out[..]) == Digest(Bits(data))
  {
    var padded := PadMessage(data);
    PadLenIsLeast(|data|, 0);
    var h0, h1, h2, h3, h4 := HashAll(padded[..]);
    out := WriteDigest(h0, h1, h2, h3, h4);
    PaddingIsStandard(data);
    DigestOfBytes(data, Bits(padded[..]), padded.Length / 64, Registers(h0, h1, h2, h3, h4), out[..]);
  }

  function Words5Of(h: Registers): (b: seq<Byte>)
    ensures |b| == 20
  {
    Words5(h.a, h.b, h.c, h.d, h.e)
  }

  lemma DigestOfBytes(data: seq<Byte>, bits: seq<bool>, n: nat, h: Registers, out: seq<Byte>)
    requires bits == Pad(Bits(data)) && |bits| == 512 * n
    requires h == HashBlocks(bits, n) && out == Words5Of(h)
    ensures Bits(out) == Digest(Bits(data)) && |out| == 20
  {
    BitsOfWords5(h.a, h.b, h.c, h.d, h.e);
    DigestForm(Bits(data), bits, n, h);
  }

  lemma DigestForm(message: seq<bool>, padded: seq<bool>, n: nat, h: Registers)
    requires padded == Pad(message) && |padded| == 512 * n && h == HashBlocks(padded, n)
    ensures Digest(message) == DigestOf(h)
  {
    assert |Pad(message)| / 512 == n;
  }
}
