// The digest of "abc" that section A.5 of RFC 1321 lists, operation by operation.
module Md5Vector {
  import opened Basics
  import opened Words
  import opened Md5Spec
  import opened Md5

  const ABC: seq<byte> := [0x61, 0x62, 0x63]

  // The words of the only block: the three letters and the byte 0x80, zeros, and 24 bits of length.
  const X: seq<Word> := [Word(0x80636261), Word(0), Word(0), Word(0), Word(0), Word(0), Word(0), Word(0),
                         Word(0), Word(0), Word(0), Word(0), Word(0), Word(0), Word(24), Word(0)]

  function Reg(a: bv32, b: bv32, c: bv32, d: bv32): Registers {
    Registers(Word(a), Word(b), Word(c), Word(d))
  }

  const START := Reg(0x67452301, 0xefcdab89, 0x98badcfe, 0x10325476)

  // Operation j assigns r.
  predicate Makes(j: nat, a: bv32, b: bv32, c: bv32, d: bv32, r: bv32) {
    j < 64 && Mixed(j, Word(a), Word(b), Word(c), Word(d), X) == Word(r)
  }

  // One operation, by its constants.
  lemma Step(j: nat, a: bv32, b: bv32, c: bv32, d: bv32, t: bv32, k: nat, s: nat, w: bv32, r: bv32)
    requires j < 64 && k < 16 && 0 < s < 32 && X[k] == Word(w)
    requires K(j) == k && Shift(j) == s && |T| == 64 && T[j] == t
    requires Plus(Word(b),
                  RotateLeft(Plus(Plus(Plus(Word(a), Mix(j, Word(b), Word(c), Word(d))), Word(t)), Word(w)), s))
             == Word(r)
    ensures Makes(j, a, b, c, d, r)
  {
    assert |X| == 16;
    hide Mixed, T, K, Shift, X, RotateLeft, Mix, Plus;
    MixedIs(j, Word(a), Word(b), Word(c), Word(d), X);
  }

  // Four operations in turn.
  lemma Four(r: Registers, j: nat, a: bv32, b: bv32, c: bv32, d: bv32)
    requires j % 4 == 0 && j + 4 <= 64 && |X| == 16 && Rounds(START, X, j) == r
    requires Makes(j, r.a.bits, r.b.bits, r.c.bits, r.d.bits, a)
    requires Makes(j + 1, r.d.bits, a, r.b.bits, r.c.bits, d)
    requires Makes(j + 2, r.c.bits, d, a, r.b.bits, c)
    requires Makes(j + 3, r.b.bits, c, d, a, b)
    ensures Rounds(START, X, j + 4) == Reg(a, b, c, d)
  {
    hide Mixed, X, Rounds, START, Operation;
    Next(START, X, j);
    Next(START, X, j + 1);
    Next(START, X, j + 2);
    Next(START, X, j + 3);
    InTurn(r, X, j);
    InTurn(r.(a := Word(a)), X, j);
    InTurn(r.(a := Word(a), d := Word(d)), X, j);
    InTurn(r.(a := Word(a), d := Word(d), c := Word(c)), X, j);
  }

  lemma Next(h: Registers, x: seq<Word>, j: nat)
    requires j < 64 && |x| == 16
    ensures Rounds(h, x, j + 1) == Operation(Rounds(h, x, j), x, j)
  {
    hide Operation;
  }

  lemma InTurn(r: Registers, x: seq<Word>, j: nat)
    requires j % 4 == 0 && j + 4 <= 64 && |x| == 16
    ensures Operation(r, x, j) == r.(a := Mixed(j, r.a, r.b, r.c, r.d, x))
    ensures Operation(r, x, j + 1) == r.(d := Mixed(j + 1, r.d, r.a, r.b, r.c, x))
    ensures Operation(r, x, j + 2) == r.(c := Mixed(j + 2, r.c, r.d, r.a, r.b, x))
    ensures Operation(r, x, j + 3) == r.(b := Mixed(j + 3, r.b, r.c, r.d, r.a, x))
  {
    hide Mixed;
  }

  lemma Operations0()
    requires |X| == 16 && Rounds(START, X, 0) == Reg(0x67452301, 0xefcdab89, 0x98badcfe, 0x10325476)
    ensures Rounds(START, X, 4) == Reg(0xd6d117b4, 0x7ad956f2, 0x2f6fbd72, 0x344a8432)
  {
    hide Rounds, START, Makes;
    assert Makes(0, 0x67452301, 0xefcdab89, 0x98badcfe, 0x10325476, 0xd6d117b4) by {
      SineTable(0);
      Step(0, 0x67452301, 0xefcdab89, 0x98badcfe, 0x10325476, 0xd76aa478, 0, 7, 0x80636261, 0xd6d117b4);
    }
    assert Makes(1, 0x10325476, 0xd6d117b4, 0xefcdab89, 0x98badcfe, 0x344a8432) by {
      SineTable(1);
      Step(1, 0x10325476, 0xd6d117b4, 0xefcdab89, 0x98badcfe, 0xe8c7b756, 1, 12, 0x00000000, 0x344a8432);
    }
    assert Makes(2, 0x98badcfe, 0x344a8432, 0xd6d117b4, 0xefcdab89, 0x2f6fbd72) by {
      SineTable(2);
      Step(2, 0x98badcfe, 0x344a8432, 0xd6d117b4, 0xefcdab89, 0x242070db, 2, 17, 0x00000000, 0x2f6fbd72);
    }
    assert Makes(3, 0xefcdab89, 0x2f6fbd72, 0x344a8432, 0xd6d117b4, 0x7ad956f2) by {
      SineTable(3);
      Step(3, 0xefcdab89, 0x2f6fbd72, 0x344a8432, 0xd6d117b4, 0xc1bdceee, 3, 22, 0x00000000, 0x7ad956f2);
    }
    hide X, T, K, Shift, RotateLeft, Plus, Mix;
    Four(Reg(0x67452301, 0xefcdab89, 0x98badcfe, 0x10325476), 0,
         0xd6d117b4, 0x7ad956f2, 0x2f6fbd72, 0x344a8432);
  }

  lemma Operations4()
    requires |X| == 16 && Rounds(START, X, 4) == Reg(0xd6d117b4, 0x7ad956f2, 0x2f6fbd72, 0x344a8432)
    ensures Rounds(START, X, 8) == Reg(0xc73741ef, 0x928d99f6, 0x207dc67b, 0x8bac3051)
  {
    hide Rounds, START, Makes;
    assert Makes(4, 0xd6d117b4, 0x7ad956f2, 0x2f6fbd72, 0x344a8432, 0xc73741ef) by {
      SineTable(4);
      Step(4, 0xd6d117b4, 0x7ad956f2, 0x2f6fbd72, 0x344a8432, 0xf57c0faf, 4, 7, 0x00000000, 0xc73741ef);
    }
    assert Makes(5, 0x344a8432, 0xc73741ef, 0x7ad956f2, 0x2f6fbd72, 0x8bac3051) by {
      SineTable(5);
      Step(5, 0x344a8432, 0xc73741ef, 0x7ad956f2, 0x2f6fbd72, 0x4787c62a, 5, 12, 0x00000000, 0x8bac3051);
    }
    assert Makes(6, 0x2f6fbd72, 0x8bac3051, 0xc73741ef, 0x7ad956f2, 0x207dc67b) by {
      SineTable(6);
      Step(6, 0x2f6fbd72, 0x8bac3051, 0xc73741ef, 0x7ad956f2, 0xa8304613, 6, 17, 0x00000000, 0x207dc67b);
    }
    assert Makes(7, 0x7ad956f2, 0x207dc67b, 0x8bac3051, 0xc73741ef, 0x928d99f6) by {
      SineTable(7);
      Step(7, 0x7ad956f2, 0x207dc67b, 0x8bac3051, 0xc73741ef, 0xfd469501, 7, 22, 0x00000000, 0x928d99f6);
    }
    hide X, T, K, Shift, RotateLeft, Plus, Mix;
    Four(Reg(0xd6d117b4, 0x7ad956f2, 0x2f6fbd72, 0x344a8432), 4,
         0xc73741ef, 0x928d99f6, 0x207dc67b, 0x8bac3051);
  }

  lemma Operations8()
    requires |X| == 16 && Rounds(START, X, 8) == Reg(0xc73741ef, 0x928d99f6, 0x207dc67b, 0x8bac3051)
    ensures Rounds(START, X, 12) == Reg(0x854b3712, 0x5ed49596, 0x3020401c, 0x74e2f284)
  {
    hide Rounds, START, Makes;
    assert Makes(8, 0xc73741ef, 0x928d99f6, 0x207dc67b, 0x8bac3051, 0x854b3712) by {
      SineTable(8);
      Step(8, 0xc73741ef, 0x928d99f6, 0x207dc67b, 0x8bac3051, 0x698098d8, 8, 7, 0x00000000, 0x854b3712);
    }
    assert Makes(9, 0x8bac3051, 0x854b3712, 0x928d99f6, 0x207dc67b, 0x74e2f284) by {
      SineTable(9);
      Step(9, 0x8bac3051, 0x854b3712, 0x928d99f6, 0x207dc67b, 0x8b44f7af, 9, 12, 0x00000000, 0x74e2f284);
    }
    assert Makes(10, 0x207dc67b, 0x74e2f284, 0x854b3712, 0x928d99f6, 0x3020401c) by {
      SineTable(10);
      Step(10, 0x207dc67b, 0x74e2f284, 0x854b3712, 0x928d99f6, 0xffff5bb1, 10, 17, 0x00000000, 0x3020401c);
    }
    assert Makes(11, 0x928d99f6, 0x3020401c, 0x74e2f284, 0x854b3712, 0x5ed49596) by {
      SineTable(11);
      Step(11, 0x928d99f6, 0x3020401c, 0x74e2f284, 0x854b3712, 0x895cd7be, 11, 22, 0x00000000, 0x5ed49596);
    }
    hide X, T, K, Shift, RotateLeft, Plus, Mix;
    Four(Reg(0xc73741ef, 0x928d99f6, 0x207dc67b, 0x8bac3051), 8,
         0x854b3712, 0x5ed49596, 0x3020401c, 0x74e2f284);
  }

  lemma Operations12()
    requires |X| == 16 && Rounds(START, X, 12) == Reg(0x854b3712, 0x5ed49596, 0x3020401c, 0x74e2f284)
    ensures Rounds(START, X, 16) == Reg(0xdda9b9a6, 0x72aff2e0, 0xe396856b, 0xa1051895)
  {
    hide Rounds, START, Makes;
    assert Makes(12, 0x854b3712, 0x5ed49596, 0x3020401c, 0x74e2f284, 0xdda9b9a6) by {
      SineTable(12);
      Step(12, 0x854b3712, 0x5ed49596, 0x3020401c, 0x74e2f284, 0x6b901122, 12, 7, 0x00000000, 0xdda9b9a6);
    }
    assert Makes(13, 0x74e2f284, 0xdda9b9a6, 0x5ed49596, 0x3020401c, 0xa1051895) by {
      SineTable(13);
      Step(13, 0x74e2f284, 0xdda9b9a6, 0x5ed49596, 0x3020401c, 0xfd987193, 13, 12, 0x00000000, 0xa1051895);
    }
    assert Makes(14, 0x3020401c, 0xa1051895, 0xdda9b9a6, 0x5ed49596, 0xe396856b) by {
      SineTable(14);
      Step(14, 0x3020401c, 0xa1051895, 0xdda9b9a6, 0x5ed49596, 0xa679438e, 14, 17, 0x00000018, 0xe396856b);
    }
    assert Makes(15, 0x5ed49596, 0xe396856b, 0xa1051895, 0xdda9b9a6, 0x72aff2e0) by {
      SineTable(15);
      Step(15, 0x5ed49596, 0xe396856b, 0xa1051895, 0xdda9b9a6, 0x49b40821, 15, 22, 0x00000000, 0x72aff2e0);
    }
    hide X, T, K, Shift, RotateLeft, Plus, Mix;
    Four(Reg(0x854b3712, 0x5ed49596, 0x3020401c, 0x74e2f284), 12,
         0xdda9b9a6, 0x72aff2e0, 0xe396856b, 0xa1051895);
  }

  lemma Operations16()
    requires |X| == 16 && Rounds(START, X, 16) == Reg(0xdda9b9a6, 0x72aff2e0, 0xe396856b, 0xa1051895)
    ensures Rounds(START, X, 20) == Reg(0x3e9e9126, 0xb5b204e4, 0xe25e1652, 0x4a1d804e)
  {
    hide Rounds, START, Makes;
    assert Makes(16, 0xdda9b9a6, 0x72aff2e0, 0xe396856b, 0xa1051895, 0x3e9e9126) by {
      SineTable(16);
      Step(16, 0xdda9b9a6, 0x72aff2e0, 0xe396856b, 0xa1051895, 0xf61e2562, 1, 5, 0x00000000, 0x3e9e9126);
    }
    assert Makes(17, 0xa1051895, 0x3e9e9126, 0x72aff2e0, 0xe396856b, 0x4a1d804e) by {
      SineTable(17);
      Step(17, 0xa1051895, 0x3e9e9126, 0x72aff2e0, 0xe396856b, 0xc040b340, 6, 9, 0x00000000, 0x4a1d804e);
    }
    assert Makes(18, 0xe396856b, 0x4a1d804e, 0x3e9e9126, 0x72aff2e0, 0xe25e1652) by {
      SineTable(18);
      Step(18, 0xe396856b, 0x4a1d804e, 0x3e9e9126, 0x72aff2e0, 0x265e5a51, 11, 14, 0x00000000, 0xe25e1652);
    }
    assert Makes(19, 0x72aff2e0, 0xe25e1652, 0x4a1d804e, 0x3e9e9126, 0xb5b204e4) by {
      SineTable(19);
      Step(19, 0x72aff2e0, 0xe25e1652, 0x4a1d804e, 0x3e9e9126, 0xe9b6c7aa, 0, 20, 0x80636261, 0xb5b204e4);
    }
    hide X, T, K, Shift, RotateLeft, Plus, Mix;
    Four(Reg(0xdda9b9a6, 0x72aff2e0, 0xe396856b, 0xa1051895), 16,
         0x3e9e9126, 0xb5b204e4, 0xe25e1652, 0x4a1d804e);
  }

  lemma Operations20()
    requires |X| == 16 && Rounds(START, X, 20) == Reg(0x3e9e9126, 0xb5b204e4, 0xe25e1652, 0x4a1d804e)
    ensures Rounds(START, X, 24) == Reg(0x59a8ffda, 0x47092c07, 0xabfc7920, 0x6d002f1e)
  {
    hide Rounds, START, Makes;
    assert Makes(20, 0x3e9e9126, 0xb5b204e4, 0xe25e1652, 0x4a1d804e, 0x59a8ffda) by {
      SineTable(20);
      Step(20, 0x3e9e9126, 0xb5b204e4, 0xe25e1652, 0x4a1d804e, 0xd62f105d, 5, 5, 0x00000000, 0x59a8ffda);
    }
    assert Makes(21, 0x4a1d804e, 0x59a8ffda, 0xb5b204e4, 0xe25e1652, 0x6d002f1e) by {
      SineTable(21);
      Step(21, 0x4a1d804e, 0x59a8ffda, 0xb5b204e4, 0xe25e1652, 0x02441453, 10, 9, 0x00000000, 0x6d002f1e);
    }
    assert Makes(22, 0xe25e1652, 0x6d002f1e, 0x59a8ffda, 0xb5b204e4, 0xabfc7920) by {
      SineTable(22);
      Step(22, 0xe25e1652, 0x6d002f1e, 0x59a8ffda, 0xb5b204e4, 0xd8a1e681, 15, 14, 0x00000000, 0xabfc7920);
    }
    assert Makes(23, 0xb5b204e4, 0xabfc7920, 0x6d002f1e, 0x59a8ffda, 0x47092c07) by {
      SineTable(23);
      Step(23, 0xb5b204e4, 0xabfc7920, 0x6d002f1e, 0x59a8ffda, 0xe7d3fbc8, 4, 20, 0x00000000, 0x47092c07);
    }
    hide X, T, K, Shift, RotateLeft, Plus, Mix;
    Four(Reg(0x3e9e9126, 0xb5b204e4, 0xe25e1652, 0x4a1d804e), 20,
         0x59a8ffda, 0x47092c07, 0xabfc7920, 0x6d002f1e);
  }

  lemma Operations24()
    requires |X| == 16 && Rounds(START, X, 24) == Reg(0x59a8ffda, 0x47092c07, 0xabfc7920, 0x6d002f1e)
    ensures Rounds(START, X, 28) == Reg(0xb7f268cf, 0x786acb8f, 0xfe1623b1, 0x09388eff)
  {
    hide Rounds, START, Makes;
    assert Makes(24, 0x59a8ffda, 0x47092c07, 0xabfc7920, 0x6d002f1e, 0xb7f268cf) by {
      SineTable(24);
      Step(24, 0x59a8ffda, 0x47092c07, 0xabfc7920, 0x6d002f1e, 0x21e1cde6, 9, 5, 0x00000000, 0xb7f268cf);
    }
    assert Makes(25, 0x6d002f1e, 0xb7f268cf, 0x47092c07, 0xabfc7920, 0x09388eff) by {
      SineTable(25);
      Step(25, 0x6d002f1e, 0xb7f268cf, 0x47092c07, 0xabfc7920, 0xc33707d6, 14, 9, 0x00000018, 0x09388eff);
    }
    assert Makes(26, 0xabfc7920, 0x09388eff, 0xb7f268cf, 0x47092c07, 0xfe1623b1) by {
      SineTable(26);
      Step(26, 0xabfc7920, 0x09388eff, 0xb7f268cf, 0x47092c07, 0xf4d50d87, 3, 14, 0x00000000, 0xfe1623b1);
    }
    assert Makes(27, 0x47092c07, 0xfe1623b1, 0x09388eff, 0xb7f268cf, 0x786acb8f) by {
      SineTable(27);
      Step(27, 0x47092c07, 0xfe1623b1, 0x09388eff, 0xb7f268cf, 0x455a14ed, 8, 20, 0x00000000, 0x786acb8f);
    }
    hide X, T, K, Shift, RotateLeft, Plus, Mix;
    Four(Reg(0x59a8ffda, 0x47092c07, 0xabfc7920, 0x6d002f1e), 24,
         0xb7f268cf, 0x786acb8f, 0xfe1623b1, 0x09388eff);
  }

  lemma Operations28()
    requires |X| == 16 && Rounds(START, X, 28) == Reg(0xb7f268cf, 0x786acb8f, 0xfe1623b1, 0x09388eff)
    ensures Rounds(START, X, 32) == Reg(0x790a77fb, 0x726342d3, 0xa62884aa, 0x9f47e4f8)
  {
    hide Rounds, START, Makes;
    assert Makes(28, 0xb7f268cf, 0x786acb8f, 0xfe1623b1, 0x09388eff, 0x790a77fb) by {
      SineTable(28);
      Step(28, 0xb7f268cf, 0x786acb8f, 0xfe1623b1, 0x09388eff, 0xa9e3e905, 13, 5, 0x00000000, 0x790a77fb);
    }
    assert Makes(29, 0x09388eff, 0x790a77fb, 0x786acb8f, 0xfe1623b1, 0x9f47e4f8) by {
      SineTable(29);
      Step(29, 0x09388eff, 0x790a77fb, 0x786acb8f, 0xfe1623b1, 0xfcefa3f8, 2, 9, 0x00000000, 0x9f47e4f8);
    }
    assert Makes(30, 0xfe1623b1, 0x9f47e4f8, 0x790a77fb, 0x786acb8f, 0xa62884aa) by {
      SineTable(30);
      Step(30, 0xfe1623b1, 0x9f47e4f8, 0x790a77fb, 0x786acb8f, 0x676f02d9, 7, 14, 0x00000000, 0xa62884aa);
    }
    assert Makes(31, 0x786acb8f, 0xa62884aa, 0x9f47e4f8, 0x790a77fb, 0x726342d3) by {
      SineTable(31);
      Step(31, 0x786acb8f, 0xa62884aa, 0x9f47e4f8, 0x790a77fb, 0x8d2a4c8a, 12, 20, 0x00000000, 0x726342d3);
    }
    hide X, T, K, Shift, RotateLeft, Plus, Mix;
    Four(Reg(0xb7f268cf, 0x786acb8f, 0xfe1623b1, 0x09388eff), 28,
         0x790a77fb, 0x726342d3, 0xa62884aa, 0x9f47e4f8);
  }

  lemma Operations32()
    requires |X| == 16 && Rounds(START, X, 32) == Reg(0x790a77fb, 0x726342d3, 0xa62884aa, 0x9f47e4f8)
    ensures Rounds(START, X, 36) == Reg(0xb3707ebf, 0x3b0875c7, 0x8d212ff5, 0x60127b2e)
  {
    hide Rounds, START, Makes;
    assert Makes(32, 0x790a77fb, 0x726342d3, 0xa62884aa, 0x9f47e4f8, 0xb3707ebf) by {
      SineTable(32);
      Step(32, 0x790a77fb, 0x726342d3, 0xa62884aa, 0x9f47e4f8, 0xfffa3942, 5, 4, 0x00000000, 0xb3707ebf);
    }
    assert Makes(33, 0x9f47e4f8, 0xb3707ebf, 0x726342d3, 0xa62884aa, 0x60127b2e) by {
      SineTable(33);
      Step(33, 0x9f47e4f8, 0xb3707ebf, 0x726342d3, 0xa62884aa, 0x8771f681, 8, 11, 0x00000000, 0x60127b2e);
    }
    assert Makes(34, 0xa62884aa, 0x60127b2e, 0xb3707ebf, 0x726342d3, 0x8d212ff5) by {
      SineTable(34);
      Step(34, 0xa62884aa, 0x60127b2e, 0xb3707ebf, 0x726342d3, 0x6d9d6122, 11, 16, 0x00000000, 0x8d212ff5);
    }
    assert Makes(35, 0x726342d3, 0x8d212ff5, 0x60127b2e, 0xb3707ebf, 0x3b0875c7) by {
      SineTable(35);
      Step(35, 0x726342d3, 0x8d212ff5, 0x60127b2e, 0xb3707ebf, 0xfde5380c, 14, 23, 0x00000018, 0x3b0875c7);
    }
    hide X, T, K, Shift, RotateLeft, Plus, Mix;
    Four(Reg(0x790a77fb, 0x726342d3, 0xa62884aa, 0x9f47e4f8), 32,
         0xb3707ebf, 0x3b0875c7, 0x8d212ff5, 0x60127b2e);
  }

  lemma Operations36()
    requires |X| == 16 && Rounds(START, X, 36) == Reg(0xb3707ebf, 0x3b0875c7, 0x8d212ff5, 0x60127b2e)
    ensures Rounds(START, X, 40) == Reg(0x21b117b9, 0x5a2f5ea5, 0x3575227e, 0x6e7429d5)
  {
    hide Rounds, START, Makes;
    assert Makes(36, 0xb3707ebf, 0x3b0875c7, 0x8d212ff5, 0x60127b2e, 0x21b117b9) by {
      SineTable(36);
      Step(36, 0xb3707ebf, 0x3b0875c7, 0x8d212ff5, 0x60127b2e, 0xa4beea44, 1, 4, 0x00000000, 0x21b117b9);
    }
    assert Makes(37, 0x60127b2e, 0x21b117b9, 0x3b0875c7, 0x8d212ff5, 0x6e7429d5) by {
      SineTable(37);
      Step(37, 0x60127b2e, 0x21b117b9, 0x3b0875c7, 0x8d212ff5, 0x4bdecfa9, 4, 11, 0x00000000, 0x6e7429d5);
    }
    assert Makes(38, 0x8d212ff5, 0x6e7429d5, 0x21b117b9, 0x3b0875c7, 0x3575227e) by {
      SineTable(38);
      Step(38, 0x8d212ff5, 0x6e7429d5, 0x21b117b9, 0x3b0875c7, 0xf6bb4b60, 7, 16, 0x00000000, 0x3575227e);
    }
    assert Makes(39, 0x3b0875c7, 0x3575227e, 0x6e7429d5, 0x21b117b9, 0x5a2f5ea5) by {
      SineTable(39);
      Step(39, 0x3b0875c7, 0x3575227e, 0x6e7429d5, 0x21b117b9, 0xbebfbc70, 10, 23, 0x00000000, 0x5a2f5ea5);
    }
    hide X, T, K, Shift, RotateLeft, Plus, Mix;
    Four(Reg(0xb3707ebf, 0x3b0875c7, 0x8d212ff5, 0x60127b2e), 36,
         0x21b117b9, 0x5a2f5ea5, 0x3575227e, 0x6e7429d5);
  }

  lemma Operations40()
    requires |X| == 16 && Rounds(START, X, 40) == Reg(0x21b117b9, 0x5a2f5ea5, 0x3575227e, 0x6e7429d5)
    ensures Rounds(START, X, 44) == Reg(0x11de1779, 0x4c6124f4, 0x31c465ca, 0xfadcaa38)
  {
    hide Rounds, START, Makes;
    assert Makes(40, 0x21b117b9, 0x5a2f5ea5, 0x3575227e, 0x6e7429d5, 0x11de1779) by {
      SineTable(40);
      Step(40, 0x21b117b9, 0x5a2f5ea5, 0x3575227e, 0x6e7429d5, 0x289b7ec6, 13, 4, 0x00000000, 0x11de1779);
    }
    assert Makes(41, 0x6e7429d5, 0x11de1779, 0x5a2f5ea5, 0x3575227e, 0xfadcaa38) by {
      SineTable(41);
      Step(41, 0x6e7429d5, 0x11de1779, 0x5a2f5ea5, 0x3575227e, 0xeaa127fa, 0, 11, 0x80636261, 0xfadcaa38);
    }
    assert Makes(42, 0x3575227e, 0xfadcaa38, 0x11de1779, 0x5a2f5ea5, 0x31c465ca) by {
      SineTable(42);
      Step(42, 0x3575227e, 0xfadcaa38, 0x11de1779, 0x5a2f5ea5, 0xd4ef3085, 3, 16, 0x00000000, 0x31c465ca);
    }
    assert Makes(43, 0x5a2f5ea5, 0x31c465ca, 0xfadcaa38, 0x11de1779, 0x4c6124f4) by {
      SineTable(43);
      Step(43, 0x5a2f5ea5, 0x31c465ca, 0xfadcaa38, 0x11de1779, 0x04881d05, 6, 23, 0x00000000, 0x4c6124f4);
    }
    hide X, T, K, Shift, RotateLeft, Plus, Mix;
    Four(Reg(0x21b117b9, 0x5a2f5ea5, 0x3575227e, 0x6e7429d5), 40,
         0x11de1779, 0x4c6124f4, 0x31c465ca, 0xfadcaa38);
  }

  lemma Operations44()
    requires |X| == 16 && Rounds(START, X, 44) == Reg(0x11de1779, 0x4c6124f4, 0x31c465ca, 0xfadcaa38)
    ensures Rounds(START, X, 48) == Reg(0x7f2e507b, 0x7beb9700, 0x8fae6399, 0x99d9679d)
  {
    hide Rounds, START, Makes;
    assert Makes(44, 0x11de1779, 0x4c6124f4, 0x31c465ca, 0xfadcaa38, 0x7f2e507b) by {
      SineTable(44);
      Step(44, 0x11de1779, 0x4c6124f4, 0x31c465ca, 0xfadcaa38, 0xd9d4d039, 9, 4, 0x00000000, 0x7f2e507b);
    }
    assert Makes(45, 0xfadcaa38, 0x7f2e507b, 0x4c6124f4, 0x31c465ca, 0x99d9679d) by {
      SineTable(45);
      Step(45, 0xfadcaa38, 0x7f2e507b, 0x4c6124f4, 0x31c465ca, 0xe6db99e5, 12, 11, 0x00000000, 0x99d9679d);
    }
    assert Makes(46, 0x31c465ca, 0x99d9679d, 0x7f2e507b, 0x4c6124f4, 0x8fae6399) by {
      SineTable(46);
      Step(46, 0x31c465ca, 0x99d9679d, 0x7f2e507b, 0x4c6124f4, 0x1fa27cf8, 15, 16, 0x00000000, 0x8fae6399);
    }
    assert Makes(47, 0x4c6124f4, 0x8fae6399, 0x99d9679d, 0x7f2e507b, 0x7beb9700) by {
      SineTable(47);
      Step(47, 0x4c6124f4, 0x8fae6399, 0x99d9679d, 0x7f2e507b, 0xc4ac5665, 2, 23, 0x00000000, 0x7beb9700);
    }
    hide X, T, K, Shift, RotateLeft, Plus, Mix;
    Four(Reg(0x11de1779, 0x4c6124f4, 0x31c465ca, 0xfadcaa38), 44,
         0x7f2e507b, 0x7beb9700, 0x8fae6399, 0x99d9679d);
  }

  lemma Operations48()
    requires |X| == 16 && Rounds(START, X, 48) == Reg(0x7f2e507b, 0x7beb9700, 0x8fae6399, 0x99d9679d)
    ensures Rounds(START, X, 52) == Reg(0x7b201df8, 0x8bf025c4, 0xb298cefd, 0xf4e8e96e)
  {
    hide Rounds, START, Makes;
    assert Makes(48, 0x7f2e507b, 0x7beb9700, 0x8fae6399, 0x99d9679d, 0x7b201df8) by {
      SineTable(48);
      Step(48, 0x7f2e507b, 0x7beb9700, 0x8fae6399, 0x99d9679d, 0xf4292244, 0, 6, 0x80636261, 0x7b201df8);
    }
    assert Makes(49, 0x99d9679d, 0x7b201df8, 0x7beb9700, 0x8fae6399, 0xf4e8e96e) by {
      SineTable(49);
      Step(49, 0x99d9679d, 0x7b201df8, 0x7beb9700, 0x8fae6399, 0x432aff97, 7, 10, 0x00000000, 0xf4e8e96e);
    }
    assert Makes(50, 0x8fae6399, 0xf4e8e96e, 0x7b201df8, 0x7beb9700, 0xb298cefd) by {
      SineTable(50);
      Step(50, 0x8fae6399, 0xf4e8e96e, 0x7b201df8, 0x7beb9700, 0xab9423a7, 14, 15, 0x00000018, 0xb298cefd);
    }
    assert Makes(51, 0x7beb9700, 0xb298cefd, 0xf4e8e96e, 0x7b201df8, 0x8bf025c4) by {
      SineTable(51);
      Step(51, 0x7beb9700, 0xb298cefd, 0xf4e8e96e, 0x7b201df8, 0xfc93a039, 5, 21, 0x00000000, 0x8bf025c4);
    }
    hide X, T, K, Shift, RotateLeft, Plus, Mix;
    Four(Reg(0x7f2e507b, 0x7beb9700, 0x8fae6399, 0x99d9679d), 48,
         0x7b201df8, 0x8bf025c4, 0xb298cefd, 0xf4e8e96e);
  }

  lemma Operations52()
    requires |X| == 16 && Rounds(START, X, 52) == Reg(0x7b201df8, 0x8bf025c4, 0xb298cefd, 0xf4e8e96e)
    ensures Rounds(START, X, 56) == Reg(0x06cc5e8a, 0x3bfa2c27, 0x7d632dd0, 0x5b0d97aa)
  {
    hide Rounds, START, Makes;
    assert Makes(52, 0x7b201df8, 0x8bf025c4, 0xb298cefd, 0xf4e8e96e, 0x06cc5e8a) by {
      SineTable(52);
      Step(52, 0x7b201df8, 0x8bf025c4, 0xb298cefd, 0xf4e8e96e, 0x655b59c3, 12, 6, 0x00000000, 0x06cc5e8a);
    }
    assert Makes(53, 0xf4e8e96e, 0x06cc5e8a, 0x8bf025c4, 0xb298cefd, 0x5b0d97aa) by {
      SineTable(53);
      Step(53, 0xf4e8e96e, 0x06cc5e8a, 0x8bf025c4, 0xb298cefd, 0x8f0ccc92, 3, 10, 0x00000000, 0x5b0d97aa);
    }
    assert Makes(54, 0xb298cefd, 0x5b0d97aa, 0x06cc5e8a, 0x8bf025c4, 0x7d632dd0) by {
      SineTable(54);
      Step(54, 0xb298cefd, 0x5b0d97aa, 0x06cc5e8a, 0x8bf025c4, 0xffeff47d, 10, 15, 0x00000000, 0x7d632dd0);
    }
    assert Makes(55, 0x8bf025c4, 0x7d632dd0, 0x5b0d97aa, 0x06cc5e8a, 0x3bfa2c27) by {
      SineTable(55);
      Step(55, 0x8bf025c4, 0x7d632dd0, 0x5b0d97aa, 0x06cc5e8a, 0x85845dd1, 1, 21, 0x00000000, 0x3bfa2c27);
    }
    hide X, T, K, Shift, RotateLeft, Plus, Mix;
    Four(Reg(0x7b201df8, 0x8bf025c4, 0xb298cefd, 0xf4e8e96e), 52,
         0x06cc5e8a, 0x3bfa2c27, 0x7d632dd0, 0x5b0d97aa);
  }

  lemma Operations56()
    requires |X| == 16 && Rounds(START, X, 56) == Reg(0x06cc5e8a, 0x3bfa2c27, 0x7d632dd0, 0x5b0d97aa)
    ensures Rounds(START, X, 60) == Reg(0x7f81cc35, 0x7327d604, 0x4f9dbe3f, 0x094454ab)
  {
    hide Rounds, START, Makes;
    assert Makes(56, 0x06cc5e8a, 0x3bfa2c27, 0x7d632dd0, 0x5b0d97aa, 0x7f81cc35) by {
      SineTable(56);
      Step(56, 0x06cc5e8a, 0x3bfa2c27, 0x7d632dd0, 0x5b0d97aa, 0x6fa87e4f, 8, 6, 0x00000000, 0x7f81cc35);
    }
    assert Makes(57, 0x5b0d97aa, 0x7f81cc35, 0x3bfa2c27, 0x7d632dd0, 0x094454ab) by {
      SineTable(57);
      Step(57, 0x5b0d97aa, 0x7f81cc35, 0x3bfa2c27, 0x7d632dd0, 0xfe2ce6e0, 15, 10, 0x00000000, 0x094454ab);
    }
    assert Makes(58, 0x7d632dd0, 0x094454ab, 0x7f81cc35, 0x3bfa2c27, 0x4f9dbe3f) by {
      SineTable(58);
      Step(58, 0x7d632dd0, 0x094454ab, 0x7f81cc35, 0x3bfa2c27, 0xa3014314, 6, 15, 0x00000000, 0x4f9dbe3f);
    }
    assert Makes(59, 0x3bfa2c27, 0x4f9dbe3f, 0x094454ab, 0x7f81cc35, 0x7327d604) by {
      SineTable(59);
      Step(59, 0x3bfa2c27, 0x4f9dbe3f, 0x094454ab, 0x7f81cc35, 0x4e0811a1, 13, 21, 0x00000000, 0x7327d604);
    }
    hide X, T, K, Shift, RotateLeft, Plus, Mix;
    Four(Reg(0x06cc5e8a, 0x3bfa2c27, 0x7d632dd0, 0x5b0d97aa), 56,
         0x7f81cc35, 0x7327d604, 0x4f9dbe3f, 0x094454ab);
  }

  lemma Operations60()
    requires |X| == 16 && Rounds(START, X, 60) == Reg(0x7f81cc35, 0x7327d604, 0x4f9dbe3f, 0x094454ab)
    ensures Rounds(START, X, 64) == Reg(0x310ade8f, 0xc08226b3, 0xe484b9d8, 0x624d8cb2)
  {
    hide Rounds, START, Makes;
    assert Makes(60, 0x7f81cc35, 0x7327d604, 0x4f9dbe3f, 0x094454ab, 0x310ade8f) by {
      SineTable(60);
      Step(60, 0x7f81cc35, 0x7327d604, 0x4f9dbe3f, 0x094454ab, 0xf7537e82, 4, 6, 0x00000000, 0x310ade8f);
    }
    assert Makes(61, 0x094454ab, 0x310ade8f, 0x7327d604, 0x4f9dbe3f, 0x624d8cb2) by {
      SineTable(61);
      Step(61, 0x094454ab, 0x310ade8f, 0x7327d604, 0x4f9dbe3f, 0xbd3af235, 11, 10, 0x00000000, 0x624d8cb2);
    }
    assert Makes(62, 0x4f9dbe3f, 0x624d8cb2, 0x310ade8f, 0x7327d604, 0xe484b9d8) by {
      SineTable(62);
      Step(62, 0x4f9dbe3f, 0x624d8cb2, 0x310ade8f, 0x7327d604, 0x2ad7d2bb, 2, 15, 0x00000000, 0xe484b9d8);
    }
    assert Makes(63, 0x7327d604, 0xe484b9d8, 0x624d8cb2, 0x310ade8f, 0xc08226b3) by {
      SineTable(63);
      Step(63, 0x7327d604, 0xe484b9d8, 0x624d8cb2, 0x310ade8f, 0xeb86d391, 9, 21, 0x00000000, 0xc08226b3);
    }
    hide X, T, K, Shift, RotateLeft, Plus, Mix;
    Four(Reg(0x7f81cc35, 0x7327d604, 0x4f9dbe3f, 0x094454ab), 60,
         0x310ade8f, 0xc08226b3, 0xe484b9d8, 0x624d8cb2);
  }

  lemma NoneYet(h: Registers, x: seq<Word>)
    requires |x| == 16
    ensures Rounds(h, x, 0) == h
  {
  }

  lemma AllOperations()
    ensures |X| == 16 && Rounds(START, X, 64) == Reg(0x310ade8f, 0xc08226b3, 0xe484b9d8, 0x624d8cb2)
  {
    hide Rounds;
    assert |X| == 16;
    NoneYet(START, X);
    hide X;
    Operations0();
    Operations4();
    Operations8();
    Operations12();
    Operations16();
    Operations20();
    Operations24();
    Operations28();
    Operations32();
    Operations36();
    Operations40();
    Operations44();
    Operations48();
    Operations52();
    Operations56();
    Operations60();
  }

  lemma PaddedAbc()
    ensures |Padded(ABC)| == 64 && BlockWords(Padded(ABC)) == X
  {
    var p := Padded(ABC);
    LengthOfAbc();
    hide FromNat, LengthWords;
    assert ZerosAfter(3) == 52;
    assert ToBytes(Word(24)) == [24, 0, 0, 0] && ToBytes(Word(0)) == [0, 0, 0, 0];
    assert p == ABC + [0x80] + seq(52, _ => 0) + [24, 0, 0, 0] + [0, 0, 0, 0];
    hide ToBytes;
    assert p[0..4] == [0x61, 0x62, 0x63, 0x80] && p[56..60] == [24, 0, 0, 0];
    forall k | 0 < k < 16 && k != 14
      ensures p[4 * k..4 * k + 4] == [0, 0, 0, 0]
    {
    }
    forall k | 0 <= k < 16
      ensures BlockWords(p)[k] == X[k]
    {
    }
  }

  lemma LengthOfAbc()
    ensures LengthWords(3) == (Word(24), Word(0))
  {
    SmallLength(24);
    SmallLength(0);
  }

  // A number below 256 as a word.
  lemma SmallLength(n: nat)
    requires n == 0 || n == 24
    ensures FromNat(n) == Word(n as bv32)
  {
    if n == 0 {
      assert ByteOf(0) == 0;
    } else {
      assert ByteOf(24) == 24 && ByteOf(0) == 0;
      assert 24 / 0x100 == 0 && 24 / 0x1_0000 == 0 && 24 / 0x100_0000 == 0;
    }
    hide ByteOf;
  }

  // HyMd5sum of "abc" is 900150983cd24fb0d6963f7d28e17f72.
  lemma DigestOfAbc()
    ensures Digest(ABC) == [0x90, 0x01, 0x50, 0x98, 0x3c, 0xd2, 0x4f, 0xb0,
                            0xd6, 0x96, 0x3f, 0x7d, 0x28, 0xe1, 0x7f, 0x72]
  {
    PaddedAbc();
    AllOperations();
    hide Padded, BlockWords, Rounds, X, ABC;
    OnlyBlock(Padded(ABC));
    hide Blocks;
  }

  lemma OnlyBlock(p: seq<byte>)
    requires |p| == 64
    ensures Blocks(p, 1) == Block(START, p)
  {
    hide Block;
    assert p[0..64] == p;
    assert Blocks(p, 0) == START;
  }
}
