// 32-bit words, their arithmetic modulo 2^32, and their four bytes, low-order byte first.
module Words {
  import opened Basics
  import opened Arith

  datatype Word = Word(bits: bv32)

  function Plus(x: Word, y: Word): Word {
    Word(x.bits + y.bits)
  }

  function RotateLeft(x: Word, s: nat): Word
    requires 0 < s < 32
  {
    Word((x.bits << s) | (x.bits >> (32 - s)))
  }

  function ToBytes(x: Word): (b: seq<byte>)
    ensures |b| == 4
  {
    var v := x.bits;
    [(v & 0xff) as byte, ((v >> 8) & 0xff) as byte, ((v >> 16) & 0xff) as byte, ((v >> 24) & 0xff) as byte]
  }

  function ToWord(b: seq<byte>): Word
    requires |b| == 4
  {
    Word(b[0] as bv32 | (b[1] as bv32 << 8) | (b[2] as bv32 << 16) | (b[3] as bv32 << 24))
  }

  lemma LowOrderFirst(x: Word)
    ensures ToBytes(x)[0] as bv32 == x.bits & 0xff && ToBytes(x)[1] as bv32 == (x.bits >> 8) & 0xff
    ensures ToBytes(x)[2] as bv32 == (x.bits >> 16) & 0xff && ToBytes(x)[3] as bv32 == x.bits >> 24
  {
  }

  lemma WordOfBytes(x: Word)
    ensures ToWord(ToBytes(x)) == x
  {
  }

  lemma BytesOfWord(b: seq<byte>)
    requires |b| == 4
    ensures ToBytes(ToWord(b)) == b
  {
  }

  // The byte with the eight low-order bits of a number.
  function ByteOf(x: nat): byte {
    (if x % 2 == 1 then 1 else 0) | (if x / 2 % 2 == 1 then 2 else 0)
    | (if x / 4 % 2 == 1 then 4 else 0) | (if x / 8 % 2 == 1 then 8 else 0)
    | (if x / 16 % 2 == 1 then 16 else 0) | (if x / 32 % 2 == 1 then 32 else 0)
    | (if x / 64 % 2 == 1 then 64 else 0) | (if x / 128 % 2 == 1 then 128 else 0)
  }

  // (uint32_t) x, for a number x of any size: its four low-order bytes.
  function FromNat(x: nat): Word {
    ToWord([ByteOf(x), ByteOf(x / 0x100), ByteOf(x / 0x1_0000), ByteOf(x / 0x100_0000)])
  }

  // The bytes of a number, the low-order one first; which bits they have is told by ByteBits.
  lemma FromNatBytes(x: nat)
    ensures ToBytes(FromNat(x)) == [ByteOf(x), ByteOf(x / 0x100), ByteOf(x / 0x1_0000), ByteOf(x / 0x100_0000)]
  {
    hide ByteOf, ToBytes, ToWord;
    BytesOfWord([ByteOf(x), ByteOf(x / 0x100), ByteOf(x / 0x1_0000), ByteOf(x / 0x100_0000)]);
  }

  lemma ByteBits(x: nat)
    ensures ByteOf(x) & 1 != 0 <==> x % 2 == 1
    ensures ByteOf(x) & 2 != 0 <==> x / 2 % 2 == 1
    ensures ByteOf(x) & 4 != 0 <==> x / 4 % 2 == 1
    ensures ByteOf(x) & 8 != 0 <==> x / 8 % 2 == 1
    ensures ByteOf(x) & 16 != 0 <==> x / 16 % 2 == 1
    ensures ByteOf(x) & 32 != 0 <==> x / 32 % 2 == 1
    ensures ByteOf(x) & 64 != 0 <==> x / 64 % 2 == 1
    ensures ByteOf(x) & 128 != 0 <==> x / 128 % 2 == 1
  {
  }

  lemma ByteOfApart(x: nat, y: nat)
    requires ByteOf(x) == ByteOf(y)
    ensures x % 0x100 == y % 0x100
  {
    ByteBits(x);
    ByteBits(y);
    hide ByteOf;
    JoinDigits(x, y, 2, 2);
    JoinDigits(x, y, 4, 2);
    JoinDigits(x, y, 8, 2);
    JoinDigits(x, y, 16, 2);
    JoinDigits(x, y, 32, 2);
    JoinDigits(x, y, 64, 2);
    JoinDigits(x, y, 128, 2);
  }

  // The conversion keeps numbers apart that differ modulo 2^32.
  lemma FromNatApart(x: nat, y: nat)
    requires FromNat(x) == FromNat(y)
    ensures x % 0x1_0000_0000 == y % 0x1_0000_0000
  {
    hide ByteOf, ToWord, ToBytes;
    var p := [ByteOf(x), ByteOf(x / 0x100), ByteOf(x / 0x1_0000), ByteOf(x / 0x100_0000)];
    var q := [ByteOf(y), ByteOf(y / 0x100), ByteOf(y / 0x1_0000), ByteOf(y / 0x100_0000)];
    BytesOfWord(p);
    BytesOfWord(q);
    assert p[0] == q[0] && p[1] == q[1] && p[2] == q[2] && p[3] == q[3];
    ByteOfApart(x, y);
    ByteOfApart(x / 0x100, y / 0x100);
    ByteOfApart(x / 0x1_0000, y / 0x1_0000);
    ByteOfApart(x / 0x100_0000, y / 0x100_0000);
    JoinDigits(x, y, 0x100, 0x100);
    JoinDigits(x, y, 0x1_0000, 0x100);
    JoinDigits(x, y, 0x100_0000, 0x100);
  }
}
