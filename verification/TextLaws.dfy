// What the scan formats, atoi and the bit operators that the text codecs use compute, told on
// characters and numbers.
module TextLaws {
  import opened Arith
  import opened Bits
  import opened Codec

  // ---- White space, words and numbers -----------------------------------------------------------

  predicate AllSpace(s: string) {
    forall c <- s :: c as int == 32 || 9 <= c as int <= 13
  }

  predicate AllDigits(s: string) {
    forall i :: 0 <= i < |s| ==> 48 <= s[i] as int <= 57
  }

  // No digit follows.
  predicate Ends(s: string) {
    s != [] ==> s[0] as int < 48 || 57 < s[0] as int
  }

  lemma {:induction false} SpaceGoes(sp: string, s: string)
    requires AllSpace(sp) && (s != [] ==> !AllSpace([s[0]]))
    ensures SkipSpace(sp + s) == s
  {
    if sp == [] {
      assert sp + s == s;
      assert s != [] ==> s[0] in [s[0]];
    } else {
      assert sp[0] in sp && (sp + s)[0] == sp[0] && (sp + s)[1..] == sp[1..] + s;
      assert forall c <- sp[1..] :: c in sp;
      SpaceGoes(sp[1..], s);
    }
  }

  // Decimal digits have their value, and each one more multiplies it by ten.
  lemma DecimalIs(d: string, c: char)
    requires AllDigits(d) && AllDigits([c])
    ensures forall i :: 0 <= i < |d| ==> IsDigit(d[i])
    ensures Decimal([]) == 0 && IsDigit(c) && forall i :: 0 <= i < |d + [c]| ==> IsDigit((d + [c])[i])
    ensures Decimal(d + [c]) == 10 * Decimal(d) + (c as int - 48)
  {
    assert [c][0] == c;
    DecimalStep(d, c);
  }

  lemma LeadingIs(d: string, rest: string)
    requires AllDigits(d) && Ends(rest)
    ensures forall i :: 0 <= i < |d| ==> IsDigit(d[i])
    ensures Span(d + rest) == |d| && Leading(d + rest) == Decimal(d) && (d + rest)[|d|..] == rest
  {
    SpanIs(d + rest, |d|);
    assert (d + rest)[..|d|] == d;
  }

  // atoi reads an optional sign and the digits behind it.
  lemma AtoiReads(d: string, rest: string)
    requires AllDigits(d) && Ends(rest)
    ensures forall i :: 0 <= i < |d| ==> IsDigit(d[i])
    ensures d != [] ==> Atoi(d + rest) == Decimal(d)
    ensures Atoi("-" + (d + rest)) == 0 - Decimal(d) && Atoi("+" + (d + rest)) == Decimal(d)
    ensures d == [] && (rest != [] ==> rest[0] != '-' && rest[0] != '+') ==> Atoi(d + rest) == 0
  {
    LeadingIs(d, rest);
    assert ("-" + (d + rest))[1..] == d + rest && ("+" + (d + rest))[1..] == d + rest;
    assert d != [] ==> (d + rest)[0] == d[0];
    assert d == [] ==> d + rest == rest;
  }

  // A single character is read as atoi reads it.
  lemma CharIsAtoi(c: char)
    ensures CharValue(c) == Atoi([c])
  {
    if AllDigits([c]) {
      DecimalIs([], c);
      assert [] + [c] == [c] && [c] + [] == [c];
      AtoiReads([c], []);
    } else {
      SpanIs([c], 0);
      assert [c][1..] == [];
    }
  }

  // "%3s" skips white space and stores up to three characters of the word behind it.
  lemma ScanWordReads(sp: string, w: string, rest: string)
    requires AllSpace(sp) && (forall i :: 0 <= i < |w| ==> !AllSpace([w[i]]))
    requires |w| <= 3 && (|w| < 3 ==> rest == [] || AllSpace([rest[0]])) && (w == [] ==> rest == [])
    ensures ScanWord(sp + (w + rest)) == w
  {
    assert w != [] ==> (w + rest)[0] == w[0];
    assert w == [] ==> w + rest == [];
    SpaceGoes(sp, w + rest);
    WordIs(w, rest, 3);
  }

  lemma {:induction false} WordIs(w: string, rest: string, n: nat)
    requires |w| <= n && (forall i :: 0 <= i < |w| ==> !AllSpace([w[i]]))
    requires |w| < n ==> rest == [] || AllSpace([rest[0]])
    ensures Word(w + rest, n) == w
    decreases |w|
  {
    if w == [] {
      assert w + rest == rest;
      assert n > 0 && rest != [] ==> rest[0] in [rest[0]];
    } else {
      assert (w + rest)[0] == w[0] && (w + rest)[1..] == w[1..] + rest;
      assert forall i :: 0 <= i < |w[1..]| ==> w[1..][i] == w[i + 1];
      WordIs(w[1..], rest, n - 1);
    }
  }

  lemma ScanDigitsReads(d: string, rest: string)
    requires AllDigits(d) && d != [] && Ends(rest)
    ensures forall i :: 0 <= i < |d| ==> IsDigit(d[i])
    ensures d + rest != [] && !AllSpace([(d + rest)[0]]) && (d + rest)[0] != '-' && (d + rest)[0] != '+'
    ensures ScanDigits(d + rest) == Number(Decimal(d), rest)
  {
    LeadingIs(d, rest);
    hide Decimal, Span;
    var s := d + rest;
    assert s[0] == d[0] && s[..|d|] == d;
    assert s[0] in [s[0]];
  }

  // A text of three digits gives its value modulo 256.
  lemma ByteIsCut(s: string, k: nat, d: string, rest: string)
    requires 3 * k <= |s| && s[3 * k..] == d + rest && AllDigits(d) && |d| == 3
    ensures forall i :: 0 <= i < |d| ==> IsDigit(d[i])
    ensures ByteAt(s, k) == Decimal(d) % 256
  {
    forall i | 0 <= i < |d|
      ensures !AllSpace([d[i]])
    {
      assert d[i] in [d[i]];
    }
    assert AllSpace("") && "" + (d + rest) == d + rest && d + "" == d;
    ScanWordReads("", d, rest);
    AtoiReads(d, "");
  }

  // A number in an address is cut to its low byte, and a negative one wraps around.
  lemma NumberIsCut()
    ensures Low8(300) == 44 && Low8(-1) == 255
  {
    assert 300 == 256 + 44 && -1 == -256 + 255;
  }

  // "%d" skips white space, and reads an optional sign and at least one digit.
  lemma ScanIntReads(sp: string, d: string, rest: string)
    requires AllSpace(sp) && AllDigits(d) && d != [] && Ends(rest)
    ensures forall i :: 0 <= i < |d| ==> IsDigit(d[i])
    ensures ScanInt(sp + (d + rest)) == Number(Decimal(d), rest)
    ensures ScanInt(sp + ("-" + (d + rest))) == Number(0 - Decimal(d), rest)
    ensures ScanInt(sp + ("+" + (d + rest))) == Number(Decimal(d), rest)
  {
    ScanDigitsReads(d, rest);
    hide Decimal, SkipSpace, ScanDigits, AllDigits, Ends;
    SpaceGoes(sp, d + rest);
    SignedScans(sp, "-", d + rest);
    SignedScans(sp, "+", d + rest);
  }

  lemma SignedScans(sp: string, sign: string, s: string)
    requires AllSpace(sp) && (sign == "-" || sign == "+")
    ensures SkipSpace(sp + (sign + s)) == sign + s && (sign + s)[0] == sign[0] && (sign + s)[1..] == s
  {
    assert '-' in ['-'] && '+' in ['+'];
    hide SkipSpace;
    SpaceGoes(sp, sign + s);
  }

  // Anything else is no number.
  lemma ScanIntFails(sp: string, s: string)
    requires AllSpace(sp) && (s != [] ==> !AllSpace([s[0]])) && Ends(s)
    requires s != [] && (s[0] == '-' || s[0] == '+') ==> Ends(s[1..])
    ensures ScanInt(sp + s) == Nothing
  {
    SpaceGoes(sp, s);
    SpanIs(s, 0);
    if s != [] && (s[0] == '-' || s[0] == '+') {
      SpanIs(s[1..], 0);
    }
    hide SkipSpace, Span;
  }

  // "%d.%d.%d.%d" goes on behind a number exactly if a dot follows and more numbers are wanted.
  lemma ScanDottedReads(s: string, n: nat)
    requires n > 0
    ensures ScanInt(s).Nothing? ==> ScanDotted(s, n) == []
    ensures ScanInt(s).Number? ==>
              var v, rest := ScanInt(s).value, ScanInt(s).rest;
              && (n > 1 && "." <= rest ==> ScanDotted(s, n) == [v] + ScanDotted(rest[1..], n - 1))
              && (n == 1 || !("." <= rest) ==> ScanDotted(s, n) == [v])
  {
    hide ScanInt;
  }

  // "10.1x" gives the two numbers 10 and 1, and the other two places stay as they were.
  lemma PartialAddress(unset: seq<int>)
    requires |unset| == 4
    ensures Scanned("10.1x", unset) == [10, 1, unset[2], unset[3]]
  {
    hide ScanInt, ScanDotted, Decimal, AllDigits;
    DecimalOfTen();
    assert "" + ("10" + ".1x") == "10.1x" && "" + ("1" + "x") == "1x" && ".1x"[1..] == "1x";
    ScanIntReads("", "10", ".1x");
    ScanIntReads("", "1", "x");
    TwoNumbers("10.1x", ".1x", "x", unset);
  }

  lemma TwoNumbers(s: string, t: string, u: string, unset: seq<int>)
    requires |unset| == 4 && "." <= t && !("." <= u)
    requires ScanInt(s) == Number(10, t) && ScanInt(t[1..]) == Number(1, u)
    ensures Scanned(s, unset) == [10, 1, unset[2], unset[3]]
  {
    hide ScanInt, ScanDotted;
    ScanDottedReads(s, 4);
    ScanDottedReads(t[1..], 3);
    assert ScanDotted(s, 4) == [10, 1];
  }

  lemma DecimalOfTen()
    ensures AllDigits("10") && AllDigits("1") && Decimal("10") == 10 && Decimal("1") == 1
  {
    DecimalIs("", '1');
    DecimalIs("1", '0');
    assert "" + ['1'] == "1" && "1" + ['0'] == "10";
  }

  // ---- Bits -----------------------------------------------------------------------------------------

  // Bit 0 is the remainder by two, and bit i is bit i - 1 of the half.
  lemma BitIs(num: nat, i: nat)
    ensures Bit(num, i) == if i == 0 then num % 2 else Bit(num / 2, i - 1)
  {
    if i > 0 {
      DivTwice(num, Pow2(i - 1));
    }
  }

  lemma DivTwice(x: nat, p: nat)
    requires p > 0
    ensures x / (2 * p) == x / 2 / p
  {
    DivMod(x, 2);
    DivMod(x / 2, p);
    MulDouble(x / 2 / p, p);
    DivModUnique(x / 2 / p, 2 * p, x / 2 % p * 2 + x % 2);
  }

  lemma Halves(x: nat, y: nat)
    requires x > 0 && y > 0
    ensures BitAnd(x, y) / 2 == BitAnd(x / 2, y / 2) && BitOr(x, y) / 2 == BitOr(x / 2, y / 2)
    ensures BitAnd(x, y) % 2 == (if x % 2 == 1 && y % 2 == 1 then 1 else 0)
    ensures BitOr(x, y) % 2 == (if x % 2 == 1 || y % 2 == 1 then 1 else 0)
  {
    var a, o := BitAnd(x / 2, y / 2), BitOr(x / 2, y / 2);
    assert BitAnd(x, y) == (if x % 2 == 1 && y % 2 == 1 then 1 else 0) + 2 * a;
    assert BitOr(x, y) == (if x % 2 == 1 || y % 2 == 1 then 1 else 0) + 2 * o;
    hide BitAnd, BitOr;
    OddOrEven(if x % 2 == 1 && y % 2 == 1 then 1 else 0, a);
    OddOrEven(if x % 2 == 1 || y % 2 == 1 then 1 else 0, o);
  }

  lemma OddOrEven(b: nat, h: nat)
    requires b < 2
    ensures (b + 2 * h) / 2 == h && (b + 2 * h) % 2 == b
  {
  }

  // x & y and x | y, bit by bit.
  lemma {:induction false} AndByBits(x: nat, y: nat, i: nat)
    ensures Bit(BitAnd(x, y), i) == 1 <==> Bit(x, i) == 1 && Bit(y, i) == 1
    decreases i
  {
    if x == 0 || y == 0 {
      ZeroBit(i);
    } else {
      Halves(x, y);
      hide Bit, BitAnd;
      BitIs(x, i);
      BitIs(y, i);
      BitIs(BitAnd(x, y), i);
      if i > 0 {
        AndByBits(x / 2, y / 2, i - 1);
      }
    }
  }

  lemma {:induction false} OrByBits(x: nat, y: nat, i: nat)
    ensures Bit(BitOr(x, y), i) == 1 <==> Bit(x, i) == 1 || Bit(y, i) == 1
    decreases i
  {
    if x == 0 || y == 0 {
      ZeroBit(i);
    } else {
      Halves(x, y);
      hide Bit, BitOr;
      BitIs(x, i);
      BitIs(y, i);
      BitIs(BitOr(x, y), i);
      if i > 0 {
        OrByBits(x / 2, y / 2, i - 1);
      }
    }
  }

  lemma ZeroBit(i: nat)
    ensures Bit(0, i) == 0
  {
    DivMod(0, Pow2(i));
  }

  // The character at place j of a bit string of length n is the bit n - 1 - j.
  lemma {:induction false} BitStringIs(num: nat, n: nat, j: nat)
    requires j < n
    ensures BitString(num, n)[j] == if Bit(num, n - 1 - j) == 1 then '1' else '0'
  {
    hide Bit;
    if j > 0 {
      BitStringIs(num, n - 1, j - 1);
    }
  }

  // A bit string one longer has twice the value, and its last bit.
  lemma BinaryIs(s: string)
    ensures Binary([]) == 0 && Binary(s + "0") == 2 * Binary(s) && Binary(s + "1") == 2 * Binary(s) + 1
  {
    assert (s + "0")[..|s|] == s && (s + "1")[..|s|] == s;
  }
}
