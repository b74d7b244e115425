/** UUID text and bytes, name-based UUIDs, and the event ids derived from them. */
module Uuid {
  import opened Prelude
  import opened Words
  import opened Sha1
  import S = Sha1Sync

  // ---------- hexadecimal text ----------

  const HEX: string := "0123456789abcdef"

  function Lower(c: char): char {
    if 'A' <= c <= 'Z' then c - 'A' + 'a' else c
  }

  predicate IsHexDigit(c: char) {
    '0' <= c <= '9' || 'a' <= c <= 'f'
  }

  function DigitOf(c: char): (d: nat)
    requires IsHexDigit(c)
    ensures d < 16
  {
    if c <= '9' then (c - '0') as nat else (c - 'a') as nat + 10
  }

  function HexDigit(d: nat): (c: char)
    requires d < 16
    ensures IsHexDigit(c) && DigitOf(c) == d
  {
    if d < 10 then '0' + d as char else 'a' + (d - 10) as char
  }

  lemma HexIsTheTable(d: nat)
    requires d < 16
    ensures |HEX| == 16 && HEX[d] == HexDigit(d)
  {
    var table := ['0', '1', '2', '3', '4', '5', '6', '7', '8', '9', 'a', 'b', 'c', 'd', 'e', 'f'];
    assert HEX == table;
  }

  predicate AllHex(h: string) {
    forall c :: c in h ==> IsHexDigit(c)
  }

  /** Lower case, without dashes. */
  function Stripped(text: string): string {
    if text == [] then []
    else
      var c := text[|text| - 1];
      Stripped(text[..|text| - 1]) + if c == '-' then [] else [Lower(c)]
  }

  predicate IsUuidText(text: string) {
    |Stripped(text)| == 32 && AllHex(Stripped(text))
  }

  function HexOfByte(b: Byte): string {
    [HexDigit(b / 16), HexDigit(b % 16)]
  }

  function HexOf(bytes: seq<Byte>): (h: string)
    ensures |h| == 2 * |bytes| && AllHex(h)
  {
    if bytes == [] then [] else HexOf(bytes[..|bytes| - 1]) + HexOfByte(bytes[|bytes| - 1])
  }

  /** The bytes that pairs of digits spell. */
  function Parsed(h: string): (b: seq<Byte>)
    requires |h| % 2 == 0 && AllHex(h)
    ensures |b| == |h| / 2
  {
    seq(|h| / 2, i requires 0 <= i < |h| / 2 => PairAt(h, i))
  }

  function PairAt(h: string, i: nat): Byte
    requires 2 * i + 1 < |h| && AllHex(h)
  {
    DigitOf(h[2 * i]) * 16 + DigitOf(h[2 * i + 1])
  }

  /** The canonical grouping of 32 digits. */
  function Dashed(h: string): string
    requires |h| == 32
  {
    h[..8] + "-" + h[8..12] + "-" + h[12..16] + "-" + h[16..20] + "-" + h[20..]
  }

  lemma {:induction false} StrippedSplits(a: string, b: string)
    ensures Stripped(a + b) == Stripped(a) + Stripped(b)
    decreases |b|
  {
    if b == [] {
      assert a + b == a;
    } else {
      StrippedSplits(a, b[..|b| - 1]);
      assert (a + b)[..|a + b| - 1] == a + b[..|b| - 1];
    }
  }

  function Upper(c: char): char {
    if 'a' <= c <= 'z' then c - 'a' + 'A' else c
  }

  function Uppercase(text: string): (r: string)
    ensures |r| == |text|
  {
    seq(|text|, i requires 0 <= i < |text| => Upper(text[i]))
  }

  /** Case does not matter: the text in upper case has the same digits. */
  lemma {:induction false} CaseDoesNotMatter(text: string)
    ensures Stripped(Uppercase(text)) == Stripped(text)
  {
    if text != [] {
      var front := text[..|text| - 1];
      CaseDoesNotMatter(front);
      assert Uppercase(text)[..|text| - 1] == Uppercase(front);
    }
  }

  lemma LowerKeepsDigit(c: char)
    requires IsHexDigit(c)
    ensures c != '-' && Lower(c) == c
  {}

  lemma {:induction false} DigitsAreKept(h: string)
    requires AllHex(h)
    ensures Stripped(h) == h
  {
    if h != [] {
      var front, c := h[..|h| - 1], h[|h| - 1];
      assert h == front + [c];
      assert forall d :: d in front ==> d in h;
      DigitsAreKept(front);
      LowerKeepsDigit(c);
      assert Stripped(h) == Stripped(front) + [c];
    }
  }

  lemma DashFirst(rest: string)
    ensures Stripped("-" + rest) == Stripped(rest)
  {
    StrippedSplits("-", rest);
    assert "-"[..0] == "";
    assert Stripped("-") == [];
  }

  lemma DigitsFirst(group: string, rest: string)
    requires AllHex(group)
    ensures Stripped(group + rest) == group + Stripped(rest)
  {
    StrippedSplits(group, rest);
    DigitsAreKept(group);
  }

  lemma GroupFirst(group: string, rest: string)
    requires AllHex(group)
    ensures Stripped(group + ("-" + rest)) == group + Stripped(rest)
  {
    DigitsFirst(group, "-" + rest);
    DashFirst(rest);
  }

  lemma RightNested(a: string, b: string, c: string, d: string, e: string)
    ensures a + "-" + b + "-" + c + "-" + d + "-" + e == a + ("-" + (b + ("-" + (c + ("-" + (d + ("-" + e)))))))
  {}

  lemma DigitsNested(a: string, b: string, c: string, d: string, e: string)
    ensures a + (b + (c + (d + e))) == a + b + c + d + e
  {}

  /** Five groups of digits, whatever their lengths. */
  lemma GroupsComeTogether(a: string, b: string, c: string, d: string, e: string)
    requires AllHex(a) && AllHex(b) && AllHex(c) && AllHex(d) && AllHex(e)
    ensures Stripped(a + "-" + b + "-" + c + "-" + d + "-" + e) == a + b + c + d + e
  {
    RightNested(a, b, c, d, e);
    var de := d + ("-" + e);
    var cde := c + ("-" + de);
    var bcde := b + ("-" + cde);
    DigitsAreKept(e);
    GroupFirst(d, e);
    GroupFirst(c, de);
    GroupFirst(b, cde);
    GroupFirst(a, bcde);
    DigitsNested(a, b, c, d, e);
  }

  /** Stripping the canonical grouping gives back the digits. */
  lemma DashesComeOff(h: string)
    requires |h| == 32 && AllHex(h)
    ensures Stripped(Dashed(h)) == h
  {
    GroupsComeTogether(h[..8], h[8..12], h[12..16], h[16..20], h[20..]);
    assert h[..8] + h[8..12] + h[12..16] + h[16..20] + h[20..] == h;
  }

  /** A text in the canonical grouping is accepted. */
  lemma CanonicalIsAccepted(text: string)
    requires |text| == 36 && text[8] == '-' && text[13] == '-' && text[18] == '-' && text[23] == '-'
    requires forall k :: 0 <= k < 36 && k != 8 && k != 13 && k != 18 && k != 23 ==> IsHexDigit(text[k])
    ensures IsUuidText(text)
  {
    var a, b, c, d, e := text[..8], text[9..13], text[14..18], text[19..23], text[24..];
    assert text == a + "-" + b + "-" + c + "-" + d + "-" + e;
    GroupsComeTogether(a, b, c, d, e);
  }

  lemma Assoc(x: string, y: string, z: string)
    ensures (x + y) + z == x + (y + z)
  {}

  lemma HexOneMore(bytes: seq<Byte>, last: Byte)
    ensures HexOf(bytes + [last]) == HexOf(bytes) + HexOfByte(last)
  {
    assert (bytes + [last])[..|bytes|] == bytes;
  }

  lemma {:induction false} HexSplits(a: seq<Byte>, b: seq<Byte>)
    ensures HexOf(a + b) == HexOf(a) + HexOf(b)
    decreases |b|
  {
    if b == [] {
      assert a + b == a;
    } else {
      var front, last := b[..|b| - 1], b[|b| - 1];
      HexSplits(a, front);
      HexOneMore(a + front, last);
      HexOneMore(front, last);
      Assoc(HexOf(a), HexOf(front), HexOfByte(last));
      assert front + [last] == b && (a + front) + [last] == a + b;
    }
  }

  lemma {:induction false} HexAt(bytes: seq<Byte>, i: nat)
    requires i < |bytes|
    ensures HexOf(bytes)[2 * i] == HexDigit(bytes[i] / 16) && HexOf(bytes)[2 * i + 1] == HexDigit(bytes[i] % 16)
  {
    if i < |bytes| - 1 {
      HexAt(bytes[..|bytes| - 1], i);
    }
  }

  lemma BytesOfHex(bytes: seq<Byte>)
    ensures Parsed(HexOf(bytes)) == bytes
  {
    forall i | 0 <= i < |bytes| ensures Parsed(HexOf(bytes))[i] == bytes[i] {
      HexAt(bytes, i);
    }
  }

  lemma DigitBack(c: char)
    requires IsHexDigit(c)
    ensures HexDigit(DigitOf(c)) == c
  {}

  lemma PairBack(h: string, i: nat)
    requires |h| % 2 == 0 && AllHex(h) && 2 * i + 1 < |h|
    ensures HexOf(Parsed(h))[2 * i] == h[2 * i] && HexOf(Parsed(h))[2 * i + 1] == h[2 * i + 1]
  {
    assert h[2 * i] in h && h[2 * i + 1] in h;
    var x, y := DigitOf(h[2 * i]), DigitOf(h[2 * i + 1]);
    HexAt(Parsed(h), i);
    assert Parsed(h)[i] == x * 16 + y;
    assert (x * 16 + y) / 16 == x && (x * 16 + y) % 16 == y;
    DigitBack(h[2 * i]);
    DigitBack(h[2 * i + 1]);
  }

  lemma HexOfBytes(h: string)
    requires |h| % 2 == 0 && AllHex(h)
    ensures HexOf(Parsed(h)) == h
  {
    forall k | 0 <= k < |h| ensures HexOf(Parsed(h))[k] == h[k] {
      PairBack(h, k / 2);
      assert k == 2 * (k / 2) || k == 2 * (k / 2) + 1;
    }
  }

  // ---------- text to bytes and back ----------

  method RemoveDashes(text: string) returns (hex: string)
    ensures hex == Stripped(text)
  {
    hex := [];
    assert text[..0] == [];
    for k := 0 to |text|
      invariant hex == Stripped(text[..k])
    {
      assert text[..k + 1][..k] == text[..k];
      if text[k] != '-' {
        hex := hex + [Lower(text[k])];
      }
    }
    assert text[..|text|] == text;
  }

  /** The place of a character in the table, or -1: its value as a digit, if it is one. */
  method IndexOf(c: char) returns (at: int)
    ensures at == if IsHexDigit(c) then DigitOf(c) else -1
  {
    HexIsTheTable(0);
    for k := 0 to |HEX|
      invariant forall j :: 0 <= j < k ==> HEX[j] != c
    {
      if HEX[k] == c {
        HexIsTheTable(k);
        return k;
      }
    }
    if IsHexDigit(c) {
      HexIsTheTable(DigitOf(c));
      DigitBack(c);
      assert false;
    }
    return -1;
  }

  /** Accepts exactly 32 hexadecimal digits, in either case and with dashes anywhere, and returns
      the bytes they spell. */
  method UuidToBytes(uuid: string) returns (r: Option<array<Byte>>)
    ensures r.Some? <==> IsUuidText(uuid)
    ensures r.Some? ==> fresh(r.value) && r.value[..] == Parsed(Stripped(uuid))
  {
    var hex := RemoveDashes(uuid);
    if |hex| != 32 {
      return None;
    }
    var out := new Byte[16](i => 0);
    for i := 0 to 16
      invariant forall k :: 0 <= k < 2 * i ==> IsHexDigit(hex[k])
      invariant forall k :: 0 <= k < i ==> out[k] == DigitOf(hex[2 * k]) * 16 + DigitOf(hex[2 * k + 1])
    {
      var c0 := IndexOf(hex[i * 2]);
      var c1 := IndexOf(hex[i * 2 + 1]);
      if c0 < 0 || c1 < 0 {
        assert hex[i * 2] in hex && hex[i * 2 + 1] in hex;
        return None;
      }
      out[i] := c0 * 16 + c1;
    }
    return Some(out);
  }

  /** The two digits of a byte, read off the table. */
  function H(b: seq<Byte>, i: nat): (h: string)
    requires i < |b|
    ensures h == HexOfByte(b[i])
  {
    HexIsTheTable(b[i] / 16);
    HexIsTheTable(b[i] % 16);
    [HEX[b[i] / 16], HEX[b[i] % 16]]
  }

  /** Fails on anything but 16 bytes. */
  function BytesToUuid(b: seq<Byte>): Option<string> {
    if |b| != 16 then None
    else Some(H(b, 0) + H(b, 1) + H(b, 2) + H(b, 3) + "-" + (H(b, 4) + H(b, 5)) + "-" + (H(b, 6) + H(b, 7)) + "-"
              + (H(b, 8) + H(b, 9)) + "-" + H(b, 10) + H(b, 11) + H(b, 12) + H(b, 13) + H(b, 14) + H(b, 15))
  }

  lemma HexOne(x: Byte)
    ensures HexOf([x]) == HexOfByte(x)
  {
    assert [x][..0] == [];
  }

  lemma HexTwo(b: seq<Byte>, i: nat)
    requires i + 2 <= |b|
    ensures HexOf(b[i..i + 2]) == H(b, i) + H(b, i + 1)
  {
    HexSplits([b[i]], [b[i + 1]]);
    assert [b[i]] + [b[i + 1]] == b[i..i + 2];
    HexOne(b[i]);
    HexOne(b[i + 1]);
  }

  lemma HexJoin(b: seq<Byte>, i: nat, j: nat, k: nat)
    requires i <= j <= k <= |b|
    ensures HexOf(b[i..k]) == HexOf(b[i..j]) + HexOf(b[j..k])
  {
    HexSplits(b[i..j], b[j..k]);
    assert b[i..j] + b[j..k] == b[i..k];
  }

  lemma HexOfThree(a: seq<Byte>, b: seq<Byte>, c: seq<Byte>)
    ensures HexOf(a + b + c)[2 * |a|..2 * |a| + 2 * |b|] == HexOf(b)
  {
    HexSplits(a + b, c);
    HexSplits(a, b);
    MiddleOfThree(HexOf(a), HexOf(b), HexOf(c));
  }

  lemma HexSlice(b: seq<Byte>, i: nat, j: nat)
    requires i <= j <= |b|
    ensures HexOf(b)[2 * i..2 * j] == HexOf(b[i..j])
  {
    HexOfThree(b[..i], b[i..j], b[j..]);
    ThreeParts(b, i, j);
  }

  lemma MiddleOfThree(a: string, b: string, c: string)
    ensures ((a + b) + c)[|a|..|a| + |b|] == b
  {}

  lemma PairOfGroup(b: seq<Byte>, i: nat)
    requires i + 2 <= |b|
    ensures HexOf(b)[2 * i..2 * i + 4] == H(b, i) + H(b, i + 1)
  {
    HexTwo(b, i);
    HexSlice(b, i, i + 2);
  }

  lemma FirstGroup(b: seq<Byte>)
    requires |b| == 16
    ensures HexOf(b)[0..8] == (H(b, 0) + H(b, 1)) + (H(b, 2) + H(b, 3))
  {
    HexTwo(b, 0);
    HexTwo(b, 2);
    HexJoin(b, 0, 2, 4);
    HexSlice(b, 0, 4);
  }

  lemma LastGroup(b: seq<Byte>)
    requires |b| == 16
    ensures HexOf(b)[20..32] == ((H(b, 10) + H(b, 11)) + (H(b, 12) + H(b, 13))) + (H(b, 14) + H(b, 15))
  {
    HexTwo(b, 10);
    HexTwo(b, 12);
    HexTwo(b, 14);
    HexJoin(b, 10, 12, 14);
    HexJoin(b, 10, 14, 16);
    HexSlice(b, 10, 16);
  }

  lemma TextIsDashedHex(b: seq<Byte>)
    requires |b| == 16
    ensures BytesToUuid(b) == Some(Dashed(HexOf(b)))
  {
    FirstGroup(b);
    PairOfGroup(b, 4);
    PairOfGroup(b, 6);
    PairOfGroup(b, 8);
    LastGroup(b);
    GroupsOfText(HexOf(b), H(b, 0), H(b, 1), H(b, 2), H(b, 3), H(b, 4) + H(b, 5), H(b, 6) + H(b, 7), H(b, 8) + H(b, 9),
                 H(b, 10), H(b, 11), H(b, 12), H(b, 13), H(b, 14), H(b, 15));
  }

  lemma GroupsOfText(
    h: string, h0: string, h1: string, h2: string, h3: string, second: string, third: string, fourth: string,
    h10: string, h11: string, h12: string, h13: string, h14: string, h15: string)
    requires |h| == 32 && h[0..8] == (h0 + h1) + (h2 + h3)
    requires h[8..12] == second && h[12..16] == third && h[16..20] == fourth
    requires h[20..32] == ((h10 + h11) + (h12 + h13)) + (h14 + h15)
    ensures Dashed(h) == h0 + h1 + h2 + h3 + "-" + second + "-" + third + "-" + fourth + "-" + h10 + h11 + h12 + h13 + h14 + h15
  {
    assert h[..8] == h[0..8] && h[20..] == h[20..32];
  }

  /** The bytes a text is read as, if it is accepted. */
  function ReadAs(text: string): Option<seq<Byte>> {
    if IsUuidText(text) then Some(Parsed(Stripped(text))) else None
  }

  /** Text made from 16 bytes is read back as those bytes. */
  lemma BytesRoundTrip(b: seq<Byte>, text: string)
    requires |b| == 16 && BytesToUuid(b) == Some(text)
    ensures ReadAs(text) == Some(b)
  {
    TextIsDashedHex(b);
    DashesComeOff(HexOf(b));
    BytesOfHex(b);
  }

  /** Bytes read from a text are written back as its canonical form: lower case, grouped. */
  lemma TextRoundTrip(text: string)
    requires IsUuidText(text)
    ensures BytesToUuid(Parsed(Stripped(text))) == Some(Dashed(Stripped(text)))
  {
    TextIsDashedHex(Parsed(Stripped(text)));
    HexOfBytes(Stripped(text));
  }

  /** Two texts are read as the same bytes exactly when they have the same digits. */
  lemma SameBytesExactly(a: string, b: string)
    requires IsUuidText(a) && IsUuidText(b)
    ensures Parsed(Stripped(a)) == Parsed(Stripped(b)) <==> Stripped(a) == Stripped(b)
  {
    HexOfBytes(Stripped(a));
    HexOfBytes(Stripped(b));
  }

  // ---------- name-based ids ----------

  /** Section 4.3 of RFC 4122: the first 128 bits of a hash, with the four version bits and the two
      variant bits put in place. */
  function Stamped(d: seq<bool>): seq<bool>
    requires |d| == 160
  {
    d[..48] + [false, true, false, true] + d[52..64] + [true, false] + d[66..128]
  }

  /** The version 5 id of a name in a namespace. */
  function V5Bits(namespace: seq<bool>, name: seq<bool>): seq<bool> {
    Stamped(Digest(namespace + name))
  }

  function Version(x: Byte): Byte {
    x % 0x10 + 0x50
  }

  function Variant(x: Byte): Byte {
    x % 0x40 + 0x80
  }

  lemma Five()
    ensures BitsOf(5, 4) == [false, true, false, true]
  {
    BitsStep(5, 4);
    BitsStep(2, 3);
    BitsStep(1, 2);
    BitsStep(0, 1);
  }

  lemma Two()
    ensures BitsOf(2, 2) == [true, false]
  {
    BitsStep(2, 2);
    BitsStep(1, 1);
  }

  lemma VersionBits(x: Byte)
    ensures BitsOf(Version(x), 8) == [false, true, false, true] + BitsOf(x, 8)[4..]
  {
    assert Pow2(4) == 16;
    BitsJoin(5, x % 16, 4, 4);
    BitsJoin(x / 16, x % 16, 4, 4);
    Five();
  }

  lemma VariantBits(x: Byte)
    ensures BitsOf(Variant(x), 8) == [true, false] + BitsOf(x, 8)[2..]
  {
    assert Pow2(6) == 64;
    BitsJoin(2, x % 64, 2, 6);
    BitsJoin(x / 64, x % 64, 2, 6);
    Two();
  }

  function V5Bytes(hash: seq<Byte>): (b: seq<Byte>)
    requires |hash| == 20
    ensures |b| == 16
  {
    hash[..6] + [Version(hash[6])] + [hash[7]] + [Variant(hash[8])] + hash[9..16]
  }

  lemma ByteAt(bytes: seq<Byte>, k: nat)
    requires k < |bytes|
    ensures BitsOf(bytes[k], 8) == Bits(bytes)[8 * k..8 * k + 8]
  {
    BitsAt(bytes, k, k + 1);
    assert bytes[k..k + 1] == [bytes[k]];
    BitsOfOne(bytes[k]);
  }

  lemma FiveBits(a: seq<Byte>, b: Byte, c: Byte, d: Byte, e: seq<Byte>)
    ensures Bits(a + [b] + [c] + [d] + e) == Bits(a) + BitsOf(b, 8) + BitsOf(c, 8) + BitsOf(d, 8) + Bits(e)
  {
    BitsSplit(a, [b]);
    BitsSplit(a + [b], [c]);
    BitsSplit(a + [b] + [c], [d]);
    BitsSplit(a + [b] + [c] + [d], e);
    BitsOfOne(b);
    BitsOfOne(c);
    BitsOfOne(d);
  }

  lemma PutTogether(d: seq<bool>)
    requires |d| == 160
    ensures
      d[0..48] + ([false, true, false, true] + d[48..56][4..]) + d[56..64] + ([true, false] + d[64..72][2..]) + d[72..128]
      == Stamped(d)
  {}

  /** Masking two bytes of the hash puts the version and variant bits where the standard has
      them, and changes no other bit. */
  lemma MasksAreStandard(hash: seq<Byte>)
    requires |hash| == 20
    ensures Bits(V5Bytes(hash)) == Stamped(Bits(hash))
  {
    var d := Bits(hash);
    FiveBits(hash[..6], Version(hash[6]), hash[7], Variant(hash[8]), hash[9..16]);
    BitsAt(hash, 0, 6);
    assert hash[..6] == hash[0..6];
    BitsAt(hash, 9, 16);
    ByteAt(hash, 6);
    ByteAt(hash, 7);
    ByteAt(hash, 8);
    VersionBits(hash[6]);
    VariantBits(hash[8]);
    PutTogether(d);
  }

  /** The first 16 bytes of the hash, with two of them masked. */
  method MaskedCopy(hash: array<Byte>) returns (b: array<Byte>)
    requires hash.Length == 20
    ensures b[..] == V5Bytes(hash[..])
  {
    b := new Byte[16](i => 0);
    for k := 0 to 16
      invariant b[..k] == hash[..k]
    {
      b[k] := hash[k];
    }
    b[6] := Version(b[6]);
    b[8] := Variant(b[8]);
  }

  method StampedHash(buf: seq<Byte>) returns (b: array<Byte>)
    requires |buf| < 0x2000_0000_0000_0000
    ensures b.Length == 16 && Bits(b[..]) == Stamped(Digest(Bits(buf)))
  {
    var hash := S.Sha1Sync(buf);
    b := MaskedCopy(hash);
    MasksAreStandard(hash[..]);
    assert |b[..]| == 16;
  }

  /** What is read from a text that was written from bytes. */
  lemma WrittenText(b: seq<Byte>, text: string)
    requires |b| == 16 && BytesToUuid(b) == Some(text)
    ensures IsUuidText(text) && Parsed(Stripped(text)) == b && text == Dashed(Stripped(text))
  {
    BytesRoundTrip(b, text);
    TextRoundTrip(text);
  }

  /** The version 5 id of a name in a namespace, in canonical form, if the namespace is a UUID. */
  method Uuidv5Sync(namespace: string, name: seq<Byte>) returns (r: Option<string>)
    requires |name| < 0x20_0000_0000_0000
    ensures r.Some? <==> IsUuidText(namespace)
    ensures r.Some? ==>
              && IsUuidText(r.value) && r.value == Dashed(Stripped(r.value))
              && Bits(Parsed(Stripped(r.value))) == V5Bits(Bits(Parsed(Stripped(namespace))), Bits(name))
  {
    var ns := UuidToBytes(namespace);
    if ns.None? {
      return None;
    }
    BitsSplit(ns.value[..], name);
    var b := StampedHash(ns.value[..] + name);
    r := BytesToUuid(b[..]);
    WrittenText(b[..], r.value);
  }

  // ---------- event ids ----------

  const IDEMPOTENCY_NAMESPACE: string := "e274f2bc-33c5-589f-8643-f3674d86773f"

  lemma NamespaceIsUuid()
    ensures IsUuidText(IDEMPOTENCY_NAMESPACE)
  {
    CanonicalIsAccepted(IDEMPOTENCY_NAMESPACE);
  }

  function NamespaceBits(): seq<bool> {
    NamespaceIsUuid();
    Bits(Parsed(Stripped(IDEMPOTENCY_NAMESPACE)))
  }

  /** 36 bytes: correlation, causation, and the index in four bytes. */
  function EventKey(correlation: seq<Byte>, causation: seq<Byte>, index: int): (key: seq<Byte>)
    requires |correlation| == 16 && |causation| == 16
    ensures |key| == 36
  {
    correlation + causation + Uint32Bytes(Unsigned(index))
  }

  /** What stands where in a key: the number in the last four bytes, read big-endian, is the
      index modulo two to the 32. */
  lemma EventKeyLayout(correlation: seq<Byte>, causation: seq<Byte>, index: int)
    requires |correlation| == 16 && |causation| == 16
    ensures
      var key := EventKey(correlation, causation, index);
      key[..16] == correlation && key[16..32] == causation && Uint32(key[32..]) == index % TWO_32
  {
    var key := EventKey(correlation, causation, index);
    assert key[..16] == correlation && key[16..32] == causation && key[32..] == Uint32Bytes(Unsigned(index));
    BytesGiveNumber(Unsigned(index));
  }

  /** Two keys are the same exactly when they come from the same correlation and causation and
      from indexes that agree modulo two to the 32; below that, the key is injective. */
  lemma KeysCollideExactly(
    correlation: seq<Byte>, causation: seq<Byte>, index: int, correlation': seq<Byte>, causation': seq<Byte>, index': int)
    requires |correlation| == 16 && |causation| == 16 && |correlation'| == 16 && |causation'| == 16
    ensures
      EventKey(correlation, causation, index) == EventKey(correlation', causation', index')
      <==> correlation == correlation' && causation == causation' && index % TWO_32 == index' % TWO_32
    ensures
      0 <= index < TWO_32 && 0 <= index' < TWO_32 ==>
        (EventKey(correlation, causation, index) == EventKey(correlation', causation', index')
         <==> correlation == correlation' && causation == causation' && index == index')
  {
    var key, key' := EventKey(correlation, causation, index), EventKey(correlation', causation', index');
    assert key[..16] == correlation && key[16..32] == causation && key[32..] == Uint32Bytes(Unsigned(index));
    assert key'[..16] == correlation' && key'[16..32] == causation' && key'[32..] == Uint32Bytes(Unsigned(index'));
    BytesGiveNumber(Unsigned(index));
    BytesGiveNumber(Unsigned(index'));
  }

  /** The key, written region by region into one array. */
  method BuildKey(cor: array<Byte>, cau: array<Byte>, index: int) returns (key: array<Byte>)
    requires cor.Length == 16 && cau.Length == 16
    ensures key[..] == EventKey(cor[..], cau[..], index)
  {
    key := new Byte[cor.Length + cau.Length + 4](i => 0);
    for k := 0 to cor.Length
      invariant key[..k] == cor[..k]
    {
      key[k] := cor[k];
    }
    for k := 0 to cau.Length
      invariant key[..16] == cor[..]
      invariant key[16..16 + k] == cau[..k]
    {
      key[16 + k] := cau[k];
    }
    S.SetUint32(key, cor.Length + cau.Length, Unsigned(index));
    assert key[..] == key[..16] + key[16..32] + key[32..36];
  }

  /** The id of the `index`-th event emitted under a correlation and a causation. */
  method EventIdFromCausation(correlationId: string, causationId: string, index: int) returns (r: Option<string>)
    ensures r.Some? <==> IsUuidText(correlationId) && IsUuidText(causationId)
    ensures r.Some? ==>
              var key := EventKey(Parsed(Stripped(correlationId)), Parsed(Stripped(causationId)), index);
              && IsUuidText(r.value) && r.value == Dashed(Stripped(r.value))
              && Bits(Parsed(Stripped(r.value))) == V5Bits(NamespaceBits(), Bits(key))
  {
    NamespaceIsUuid();
    var cor := UuidToBytes(correlationId);
    if cor.None? {
      return None;
    }
    var cau := UuidToBytes(causationId);
    if cau.None? {
      return None;
    }
    var key := BuildKey(cor.value, cau.value, index);
    r := Uuidv5Sync(IDEMPOTENCY_NAMESPACE, key[..]);
  }
}
