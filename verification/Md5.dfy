// HyMd5sum of src/hy_md5sum.c: the padded message is laid out in a buffer, and every block
// runs through one loop of 64 steps that passes the registers on by renaming them.
module Md5 {
  import opened Basics
  import opened Arith
  import opened Words
  import opened Md5Spec

  const R1: seq<nat> := [7, 12, 17, 22, 7, 12, 17, 22, 7, 12, 17, 22, 7, 12, 17, 22]
  const R2: seq<nat> := [5, 9, 14, 20, 5, 9, 14, 20, 5, 9, 14, 20, 5, 9, 14, 20]
  const R3: seq<nat> := [4, 11, 16, 23, 4, 11, 16, 23, 4, 11, 16, 23, 4, 11, 16, 23]
  const R4: seq<nat> := [6, 10, 15, 21, 6, 10, 15, 21, 6, 10, 15, 21, 6, 10, 15, 21]
  const R: seq<nat> := R1 + R2 + R3 + R4

  // ---- The 64-step loop -------------------------------------------------------------------

  lemma RowsRepeat(m: nat)
    requires m < 16
    ensures R1[m] == [7, 12, 17, 22][m % 4] && R2[m] == [5, 9, 14, 20][m % 4]
    ensures R3[m] == [4, 11, 16, 23][m % 4] && R4[m] == [6, 10, 15, 21][m % 4]
  {
    match m {
      case 0 => case 1 => case 2 => case 3 => case 4 => case 5 => case 6 => case 7 =>
      case 8 => case 9 => case 10 => case 11 => case 12 => case 13 => case 14 => case _ =>
    }
  }

  lemma ShiftTable(i: nat)
    requires i < 64
    ensures |R| == 64 && R[i] == Shift(i)
  {
    hide R1, R2, R3, R4;
    RowsRepeat(i % 16);
    Row(i);
  }

  lemma Row(i: nat)
    requires i < 64
    ensures |R1| == |R2| == |R3| == |R4| == 16 && |R| == 64 && i % 16 % 4 == i % 4
    ensures R[i] == (if i < 16 then R1 else if i < 32 then R2 else if i < 48 then R3 else R4)[i % 16]
  {
    assert |R1| == |R2| == |R3| == |R4| == 16;
    hide R1, R2, R3, R4;
    var m := i % 16;
    if i < 16 {
      assert m == i;
    } else if i < 32 {
      assert m == i - 16;
    } else if i < 48 {
      assert m == i - 32;
    } else {
      assert m == i - 48;
    }
  }

  // The variables a, b, c, d of the loop after i steps, as registers of the specification.
  function Renamed(r: Registers, i: nat): (Word, Word, Word, Word) {
    match i % 4
    case 0 => (r.a, r.b, r.c, r.d)
    case 1 => (r.d, r.a, r.b, r.c)
    case 2 => (r.c, r.d, r.a, r.b)
    case _ => (r.b, r.c, r.d, r.a)
  }

  // The function of the loop's second round is G with its terms exchanged.
  lemma ExchangedG(b: Word, c: Word, d: Word)
    ensures G(b, c, d) == Word((d.bits & b.bits) | (!d.bits & c.bits))
  {
  }

  // One step of the loop is one operation of the specification.
  lemma StepIsOperation(r: Registers, x: seq<Word>, i: nat, a: Word, b: Word, c: Word, d: Word)
    requires i < 64 && |x| == 16 && Renamed(r, i) == (a, b, c, d)
    ensures Renamed(Operation(r, x, i), i + 1) == (d, Mixed(i, a, b, c, d, x), b, c)
  {
    hide Mixed;
    var m := i % 4;
    assert (i + 1) % 4 == if m == 3 then 0 else m + 1;
  }

  // The main loop
  method Steps(h: Registers, w: array<Word>) returns (r: Registers)
    requires w.Length == 16
    ensures r == Rounds(h, w[..], 64)
  {
    hide Mixed, Operation, K, Shift, R, T, RotateLeft, Plus, G;
    ghost var x := w[..];
    var a, b, c, d := h.a, h.b, h.c, h.d;
    for i := 0 to 64
      invariant (a, b, c, d) == Renamed(Rounds(h, x, i), i)
    {
      var f, g;
      if i < 16 {
        f, g := Word((b.bits & c.bits) | (!b.bits & d.bits)), i;
      } else if i < 32 {
        f, g := Word((d.bits & b.bits) | (!d.bits & c.bits)), (5 * i + 1) % 16;
      } else if i < 48 {
        f, g := Word(b.bits ^ c.bits ^ d.bits), (3 * i + 5) % 16;
      } else {
        f, g := Word(c.bits ^ (b.bits | !d.bits)), 7 * i % 16;
      }
      IndexFormula(i);
      ShiftTable(i);
      ExchangedG(b, c, d);
      assert f == Mix(i, b, c, d) && g == K(i);
      StepIsOperation(Rounds(h, x, i), x, i, a, b, c, d);
      MixedIs(i, a, b, c, d, x);
      var temp := d;
      d := c;
      c := b;
      b := Plus(b, RotateLeft(Plus(Plus(Plus(a, f), Word(T[i])), w[g]), R[i]));
      a := temp;
    }
    r := Registers(a, b, c, d);
  }

  lemma MixedIs(i: nat, a: Word, b: Word, c: Word, d: Word, x: seq<Word>)
    requires i < 64 && |x| == 16
    ensures K(i) < 16 && |T| == 64
    ensures Mixed(i, a, b, c, d, x)
            == Plus(b, RotateLeft(Plus(Plus(Plus(a, Mix(i, b, c, d)), Word(T[i])), x[K(i)]), Shift(i)))
  {
    SineTable(i);
    hide K, T, Mix, Shift, RotateLeft, Plus;
    IndexFormula(i);
  }

  // The words of one chunk of 64 bytes
  method LoadWords(msg: array<byte>, offset: nat) returns (w: array<Word>)
    requires offset + 64 <= msg.Length
    ensures fresh(w) && w.Length == 16 && w[..] == BlockWords(msg[offset..offset + 64])
  {
    hide ToWord;
    w := new Word[16](_ => Word(0));
    for i := 0 to 16
      invariant forall k :: 0 <= k < i ==> w[k] == ToWord(msg[offset + 4 * k..offset + 4 * k + 4])
    {
      w[i] := ToWord(msg[offset + i * 4..offset + i * 4 + 4]);
    }
    forall k | 0 <= k < 16
      ensures w[k] == BlockWords(msg[offset..offset + 64])[k]
    {
      SliceOfSlice(msg[..], offset, 64, 4 * k, 4 * k + 4);
    }
  }

  lemma SliceOfSlice(s: seq<byte>, o: nat, n: nat, a: nat, b: nat)
    requires a <= b <= n && o + n <= |s|
    ensures s[o..o + n][a..b] == s[o + a..o + b]
  {
    assert s[o..o + n] == s[o..][..n];
  }

  // ---- The whole digest -------------------------------------------------------------------

  // The length before the two words of the bit count is the least one beyond the message that
  // is 56 modulo 64.
  lemma NewLenLeast(len: nat, n: nat)
    ensures (len + 1 + ZerosAfter(len)) % 64 == 56
    ensures len < n && n % 64 == 56 ==> len + 1 + ZerosAfter(len) <= n
  {
    var m := len + 1 + ZerosAfter(len);
    if len < n < m && n % 64 == 56 {
      ModApart(n, m, 64);
    }
  }

  // to_bytes
  method StoreWord(val: Word, bytes: array<byte>, at: nat)
    requires at + 4 <= bytes.Length
    modifies bytes
    ensures bytes[..] == old(bytes[..])[..at] + ToBytes(val) + old(bytes[..])[at + 4..]
  {
    var b := ToBytes(val);
    bytes[at] := b[0];
    bytes[at + 1] := b[1];
    bytes[at + 2] := b[2];
    bytes[at + 3] := b[3];
  }

  // The two words are the low and the high half of the number of bits.
  lemma LengthHalves(len: nat)
    ensures FromNat(len * 8) == LengthWords(len).0
    ensures FromNat(len / 0x2000_0000) == LengthWords(len).1
  {
    hide FromNat;
    assert len * 8 / 0x1_0000_0000 == len / 0x2000_0000;
  }

  // The preprocessing: a zeroed buffer that holds the padded message.
  method Pad(msg: seq<byte>) returns (buf: array<byte>, newLen: nat)
    requires |msg| + 72 < SIZE_MOD
    ensures fresh(buf) && newLen + 8 == buf.Length && newLen % 64 == 56 && buf[..] == Padded(msg)
  {
    hide ToBytes, FromNat;
    newLen := |msg| + 1;
    while newLen % 64 != 56
      invariant |msg| < newLen <= |msg| + 1 + ZerosAfter(|msg|)
      decreases |msg| + 1 + ZerosAfter(|msg|) - newLen
    {
      newLen := newLen + 1;
    }
    NewLenLeast(|msg|, newLen);
    buf := new byte[newLen + 8](_ => 0);
    forall i | 0 <= i < |msg| {
      buf[i] := msg[i];
    }
    buf[|msg|] := 0x80;
    ghost var body := msg + [0x80] + seq(ZerosAfter(|msg|), _ => 0);
    assert buf[..newLen] == body;
    StoreWord(FromNat(|msg| * 8), buf, newLen);
    StoreWord(FromNat(|msg| / 0x2000_0000), buf, newLen + 4);
    LengthHalves(|msg|);
  }

  // The loop over the chunks
  method HashChunks(buf: array<byte>, newLen: nat) returns (h: Registers)
    requires newLen + 8 == buf.Length && newLen % 64 == 56
    ensures buf.Length % 64 == 0 && h == Blocks(buf[..], buf.Length / 64)
  {
    hide Block, Blocks, Rounds, BlockWords, Plus;
    ghost var p, m := buf[..], buf.Length / 64;
    ModAdd(newLen, 8, 64);
    assert newLen + 8 == 64 * m;
    h := Registers(Word(0x67452301), Word(0xefcdab89), Word(0x98badcfe), Word(0x10325476));
    var offset := 0;
    ghost var n := 0;
    NoBlock(p);
    while offset < newLen
      invariant offset == 64 * n && n <= m && buf[..] == p
      invariant h == Blocks(p, n)
    {
      assert buf[offset..offset + 64] == p[64 * n..64 * (n + 1)];
      var w := LoadWords(buf, offset);
      var r := Steps(h, w);
      NextBlock(p, n);
      h := Registers(Plus(h.a, r.a), Plus(h.b, r.b), Plus(h.c, r.c), Plus(h.d, r.d));
      offset := offset + 64;
      n := n + 1;
    }
  }

  lemma NoBlock(p: seq<byte>)
    ensures Blocks(p, 0) == Registers(Word(0x67452301), Word(0xefcdab89), Word(0x98badcfe), Word(0x10325476))
  {
  }

  lemma NextBlock(p: seq<byte>, n: nat)
    requires 64 * (n + 1) <= |p|
    ensures var h := Blocks(p, n);
            var r := Rounds(h, BlockWords(p[64 * n..64 * (n + 1)]), 64);
            Blocks(p, n + 1) == Registers(Plus(h.a, r.a), Plus(h.b, r.b), Plus(h.c, r.c), Plus(h.d, r.d))
  {
    hide Plus, Rounds, BlockWords;
  }

  // HyMd5sum
  method HyMd5sum(msg: seq<byte>, digest: array<byte>)
    requires |msg| + 72 < SIZE_MOD && digest.Length == 16
    modifies digest
    ensures digest[..] == Digest(msg)
  {
    hide Padded, Blocks, ToBytes;
    var buf, newLen := Pad(msg);
    var h := HashChunks(buf, newLen);
    StoreWord(h.a, digest, 0);
    StoreWord(h.b, digest, 4);
    StoreWord(h.c, digest, 8);
    StoreWord(h.d, digest, 12);
  }
}
