// MD5 as sections 3.1 to 3.4 of RFC 1321 describe it: padding, length, and four rounds of
// sixteen named operations on four registers for every block of sixteen words.
module Md5Spec {
  import opened Basics
  import opened Arith
  import opened Words

  // ---- Section 3.1 and 3.2: the padded message --------------------------------------------

  // Zero bytes after the byte 0x80, until the length is 56 modulo 64.
  function ZerosAfter(len: nat): (z: nat)
    ensures z < 64 && (len + 1 + z) % 64 == 56
  {
    (119 - len % 64) % 64
  }

  // The length in bits modulo 2^64, low-order word first.
  function LengthWords(len: nat): (Word, Word) {
    (FromNat(len * 8), FromNat(len * 8 / 0x1_0000_0000))
  }

  function Padded(msg: seq<byte>): (p: seq<byte>)
  {
    msg + [0x80] + seq(ZerosAfter(|msg|), _ => 0) + ToBytes(LengthWords(|msg|).0) + ToBytes(LengthWords(|msg|).1)
  }

  // ---- Section 3.4: the rounds ------------------------------------------------------------

  function F(x: Word, y: Word, z: Word): Word { Word((x.bits & y.bits) | (!x.bits & z.bits)) }
  function G(x: Word, y: Word, z: Word): Word { Word((x.bits & z.bits) | (y.bits & !z.bits)) }
  function H(x: Word, y: Word, z: Word): Word { Word(x.bits ^ y.bits ^ z.bits) }
  function I(x: Word, y: Word, z: Word): Word { Word(y.bits ^ (x.bits | !z.bits)) }

  // The bits of the mask m are all set in x, or all clear.
  predicate Set(x: Word, m: bv32) {
    x.bits & m == m
  }

  predicate Clear(x: Word, m: bv32) {
    x.bits & m == 0
  }

  // x and y agree in all bits of the mask, or in none.
  predicate Same(x: Word, y: Word, m: bv32) {
    x.bits & m == y.bits & m
  }

  predicate Opposite(x: Word, y: Word, m: bv32) {
    x.bits & m == !y.bits & m
  }

  // What section 3.4 says of the functions, for any bits: F takes y where x is set and z elsewhere.
  lemma FByBits(x: Word, y: Word, z: Word, m: bv32)
    ensures Set(x, m) ==> Same(F(x, y, z), y, m)
    ensures Clear(x, m) ==> Same(F(x, y, z), z, m)
  {
  }

  // G takes x where z is set and y elsewhere.
  lemma GByBits(x: Word, y: Word, z: Word, m: bv32)
    ensures Set(z, m) ==> Same(G(x, y, z), x, m)
    ensures Clear(z, m) ==> Same(G(x, y, z), y, m)
  {
  }

  // H is the parity.
  lemma HByBits(x: Word, y: Word, z: Word, m: bv32)
    ensures Same(y, z, m) ==> Same(H(x, y, z), x, m)
    ensures Opposite(y, z, m) ==> Opposite(H(x, y, z), x, m)
  {
  }

  // I is set where y is not "x or not z".
  lemma IByBits(x: Word, y: Word, z: Word, m: bv32)
    ensures Set(x, m) || Clear(z, m) ==> Opposite(I(x, y, z), y, m)
    ensures Clear(x, m) && Set(z, m) ==> Same(I(x, y, z), y, m)
  {
  }

  datatype Registers = Registers(a: Word, b: Word, c: Word, d: Word)

  // The table T of section 3.4, taken as given, round by round.
  const T1: seq<bv32> := [
    0xd76aa478, 0xe8c7b756, 0x242070db, 0xc1bdceee, 0xf57c0faf, 0x4787c62a, 0xa8304613, 0xfd469501,
    0x698098d8, 0x8b44f7af, 0xffff5bb1, 0x895cd7be, 0x6b901122, 0xfd987193, 0xa679438e, 0x49b40821]
  const T2: seq<bv32> := [
    0xf61e2562, 0xc040b340, 0x265e5a51, 0xe9b6c7aa, 0xd62f105d, 0x02441453, 0xd8a1e681, 0xe7d3fbc8,
    0x21e1cde6, 0xc33707d6, 0xf4d50d87, 0x455a14ed, 0xa9e3e905, 0xfcefa3f8, 0x676f02d9, 0x8d2a4c8a]
  const T3: seq<bv32> := [
    0xfffa3942, 0x8771f681, 0x6d9d6122, 0xfde5380c, 0xa4beea44, 0x4bdecfa9, 0xf6bb4b60, 0xbebfbc70,
    0x289b7ec6, 0xeaa127fa, 0xd4ef3085, 0x04881d05, 0xd9d4d039, 0xe6db99e5, 0x1fa27cf8, 0xc4ac5665]
  const T4: seq<bv32> := [
    0xf4292244, 0x432aff97, 0xab9423a7, 0xfc93a039, 0x655b59c3, 0x8f0ccc92, 0xffeff47d, 0x85845dd1,
    0x6fa87e4f, 0xfe2ce6e0, 0xa3014314, 0x4e0811a1, 0xf7537e82, 0xbd3af235, 0x2ad7d2bb, 0xeb86d391]
  const T: seq<bv32> := T1 + T2 + T3 + T4

  // Which word of the block each of the 64 operations adds, round by round.
  const K1: seq<nat> := [0, 1, 2, 3, 4, 5, 6, 7, 8, 9, 10, 11, 12, 13, 14, 15]
  const K2: seq<nat> := [1, 6, 11, 0, 5, 10, 15, 4, 9, 14, 3, 8, 13, 2, 7, 12]
  const K3: seq<nat> := [5, 8, 11, 14, 1, 4, 7, 10, 13, 0, 3, 6, 9, 12, 15, 2]
  const K4: seq<nat> := [0, 7, 14, 5, 12, 3, 10, 1, 8, 15, 6, 13, 4, 11, 2, 9]

  function K(j: nat): nat
    requires j < 64
  {
    (if j < 16 then K1 else if j < 32 then K2 else if j < 48 then K3 else K4)[j % 16]
  }

  lemma TableFormulas(m: nat)
    requires m < 16
    ensures K1[m] == m && K2[m] == (5 * m + 1) % 16 && K3[m] == (3 * m + 5) % 16 && K4[m] == 7 * m % 16
  {
    match m {
      case 0 => case 1 => case 2 => case 3 => case 4 => case 5 => case 6 => case 7 =>
      case 8 => case 9 => case 10 => case 11 => case 12 => case 13 => case 14 => case _ =>
    }
  }

  // The index computed in the loop is the one of the tables.
  lemma IndexFormula(i: nat)
    requires i < 64
    ensures K(i) == if i < 16 then i else if i < 32 then (5 * i + 1) % 16
                    else if i < 48 then (3 * i + 5) % 16 else 7 * i % 16
    ensures K(i) < 16
  {
    hide K1, K2, K3, K4;
    TableFormulas(i % 16);
    var m := i % 16;
    if i < 16 {
      assert m == i;
    } else if i < 32 {
      assert m == i - 16;
      ModMinus(5 * i + 1, 80, 16);
    } else if i < 48 {
      assert m == i - 32;
      ModMinus(3 * i + 5, 96, 16);
    } else {
      assert m == i - 48;
      ModMinus(7 * i, 336, 16);
    }
  }

  lemma SineTable(i: nat)
    requires i < 64
    ensures |T1| == |T2| == |T3| == |T4| == 16 && |T| == 64
    ensures T[i] == (if i < 16 then T1 else if i < 32 then T2 else if i < 48 then T3 else T4)[i % 16]
  {
    assert |T1| == |T2| == |T3| == |T4| == 16;
    hide T1, T2, T3, T4;
    var m := i % 16;
    if i < 16 {
      assert m == i;
    } else if i < 32 {
      assert m == i - 16;
    } else if i < 48 {
      assert m == i - 32;
    } else {
      assert m == i - 48;
    }
  }

  // The rotation of each operation repeats after four.
  function Shift(j: nat): (s: nat)
    requires j < 64
    ensures 0 < s < 32
  {
    var round :=
      if j < 16 then [7, 12, 17, 22]
      else if j < 32 then [5, 9, 14, 20]
      else if j < 48 then [4, 11, 16, 23]
      else [6, 10, 15, 21];
    round[j % 4]
  }

  function Mix(j: nat, x: Word, y: Word, z: Word): Word {
    if j < 16 then F(x, y, z) else if j < 32 then G(x, y, z) else if j < 48 then H(x, y, z) else I(x, y, z)
  }

  // What an operation [abcd k s i] assigns to its first register.  The order of the terms of
  // the inner sum does not matter.
  function Mixed(j: nat, a: Word, b: Word, c: Word, d: Word, x: seq<Word>): Word
    requires j < 64 && |x| == 16
  {
    IndexFormula(j);
    SineTable(j);
    Plus(b, RotateLeft(Plus(Plus(Plus(a, Mix(j, b, c, d)), Word(T[j])), x[K(j)]), Shift(j)))
  }

  // The operations take the registers in the orders ABCD, DABC, CDAB and BCDA in turn.
  function Operation(r: Registers, x: seq<Word>, j: nat): Registers
    requires j < 64 && |x| == 16
  {
    match j % 4
    case 0 => r.(a := Mixed(j, r.a, r.b, r.c, r.d, x))
    case 1 => r.(d := Mixed(j, r.d, r.a, r.b, r.c, x))
    case 2 => r.(c := Mixed(j, r.c, r.d, r.a, r.b, x))
    case _ => r.(b := Mixed(j, r.b, r.c, r.d, r.a, x))
  }

  function Rounds(r: Registers, x: seq<Word>, j: nat): Registers
    requires j <= 64 && |x| == 16
  {
    if j == 0 then r else Operation(Rounds(r, x, j - 1), x, j - 1)
  }

  function BlockWords(block: seq<byte>): (x: seq<Word>)
    requires |block| == 64
    ensures |x| == 16
  {
    seq(16, k requires 0 <= k < 16 => ToWord(block[4 * k..4 * k + 4]))
  }

  function Block(h: Registers, block: seq<byte>): Registers
    requires |block| == 64
  {
    var r := Rounds(h, BlockWords(block), 64);
    Registers(Plus(h.a, r.a), Plus(h.b, r.b), Plus(h.c, r.c), Plus(h.d, r.d))
  }

  // The registers after the first n blocks of p.
  function Blocks(p: seq<byte>, n: nat): Registers
    requires 64 * n <= |p|
  {
    if n == 0 then Registers(Word(0x67452301), Word(0xefcdab89), Word(0x98badcfe), Word(0x10325476))
    else Block(Blocks(p, n - 1), p[64 * (n - 1)..64 * n])
  }

  // Section 3.5: the registers, low-order byte first.
  function Output(r: Registers): (b: seq<byte>)
    ensures |b| == 16
  {
    ToBytes(r.a) + ToBytes(r.b) + ToBytes(r.c) + ToBytes(r.d)
  }

  function Digest(msg: seq<byte>): (digest: seq<byte>)
    ensures |digest| == 16
  {
    Output(Blocks(Padded(msg), |Padded(msg)| / 64))
  }

  // ---- Padding loses nothing --------------------------------------------------------------

  lemma LengthFromWords(m: nat, n: nat)
    requires m < 0x2000_0000_0000_0000 && n < 0x2000_0000_0000_0000 && LengthWords(m) == LengthWords(n)
    ensures m == n
  {
    hide FromNat;
    FromNatApart(m * 8, n * 8);
    FromNatApart(m * 8 / 0x1_0000_0000, n * 8 / 0x1_0000_0000);
  }

  // Different messages under 2^61 bytes have different padded messages.
  lemma PaddingIsInjective(m: seq<byte>, n: seq<byte>)
    requires |m| < 0x2000_0000_0000_0000 && |n| < 0x2000_0000_0000_0000 && Padded(m) == Padded(n)
    ensures m == n
  {
    hide ToBytes, FromNat;
    var p, x, y := Padded(m), LengthWords(|m|), LengthWords(|n|);
    var e := |p|;
    assert p[e - 8..e - 4] == ToBytes(x.0) == ToBytes(y.0);
    assert p[e - 4..] == ToBytes(x.1) == ToBytes(y.1);
    WordOfBytes(x.0);
    WordOfBytes(y.0);
    WordOfBytes(x.1);
    WordOfBytes(y.1);
    LengthFromWords(|m|, |n|);
    assert m == p[..|m|] == n;
  }

  // The padded message is a whole number of blocks, and no shorter one has room for the
  // message, the byte 0x80 and the length.
  lemma PaddedLength(msg: seq<byte>)
    ensures |Padded(msg)| % 64 == 0
    ensures |msg| + 9 <= |Padded(msg)| < |msg| + 9 + 64
  {
    hide ToBytes, FromNat;
    var n := |msg| + 1 + ZerosAfter(|msg|);
    ModAdd(n, 8, 64);
    assert |Padded(msg)| == n + 8;
  }

  // The message comes first, then one bit, then zeros, and last the length of the message in bits, as
  // eight bytes with the low-order one first.
  lemma PaddedEnds(msg: seq<byte>)
    ensures var p, m, e := Padded(msg), |msg| * 8, |Padded(msg)| - 8;
            && msg <= p && |msg| < e && p[|msg|] == 128 && (forall i :: |msg| < i < e ==> p[i] == 0)
            && p[e..] == [ByteOf(m), ByteOf(m / 0x100), ByteOf(m / 0x1_0000), ByteOf(m / 0x100_0000),
                          ByteOf(m / 0x1_0000_0000), ByteOf(m / 0x100_0000_0000), ByteOf(m / 0x1_0000_0000_0000),
                          ByteOf(m / 0x100_0000_0000_0000)]
  {
    hide ToBytes, FromNat, ByteOf;
    var m := |msg| * 8;
    var h := m / 0x1_0000_0000;
    FromNatBytes(m);
    FromNatBytes(h);
    assert h / 0x100 == m / 0x100_0000_0000 && h / 0x1_0000 == m / 0x1_0000_0000_0000;
    assert h / 0x100_0000 == m / 0x100_0000_0000_0000;
  }

  lemma {:induction false} BlocksOfPrefix(p: seq<byte>, q: seq<byte>, n: nat)
    requires 64 * n <= |p|
    ensures Blocks(p + q, n) == Blocks(p, n)
  {
    hide Block;
    if n > 0 {
      SliceOfFront(p, q, 64 * (n - 1), 64 * n);
      BlocksOfPrefix(p, q, n - 1);
    }
  }

  lemma SliceOfFront(p: seq<byte>, q: seq<byte>, i: nat, j: nat)
    requires i <= j <= |p|
    ensures (p + q)[i..j] == p[i..j]
  {
  }

  lemma SliceOfBack(p: seq<byte>, q: seq<byte>)
    ensures (p + q)[|p|..|p| + |q|] == q
  {
  }

  // The registers start as section 3.3 says, and every block adds to what they were before it the
  // result of its 64 operations on them.
  lemma BlocksChain(p: seq<byte>, block: seq<byte>, n: nat)
    requires |p| == 64 * n && |block| == 64
    ensures Blocks([], 0) == Registers(Word(0x67452301), Word(0xefcdab89), Word(0x98badcfe), Word(0x10325476))
    ensures var h, r := Blocks(p, n), Rounds(Blocks(p, n), BlockWords(block), 64);
            Blocks(p + block, n + 1) == Registers(Plus(h.a, r.a), Plus(h.b, r.b), Plus(h.c, r.c), Plus(h.d, r.d))
  {
    hide Rounds, BlockWords, Block, Plus;
    SliceOfBack(p, block);
    BlocksOfPrefix(p, block, n);
    FirstBlocks(p + block, block, n);
    hide Blocks;
    BlockAdds(Blocks(p, n), block);
  }

  lemma FirstBlocks(p: seq<byte>, block: seq<byte>, n: nat)
    requires |p| == 64 * (n + 1) && |block| == 64 && p[64 * n..64 * (n + 1)] == block
    ensures Blocks([], 0) == Registers(Word(0x67452301), Word(0xefcdab89), Word(0x98badcfe), Word(0x10325476))
    ensures Blocks(p, n + 1) == Block(Blocks(p, n), block)
  {
    hide Block;
  }

  lemma BlockAdds(h: Registers, block: seq<byte>)
    requires |block| == 64
    ensures var r := Rounds(h, BlockWords(block), 64);
            Block(h, block) == Registers(Plus(h.a, r.a), Plus(h.b, r.b), Plus(h.c, r.c), Plus(h.d, r.d))
  {
    hide Rounds, BlockWords, Plus;
  }
}
