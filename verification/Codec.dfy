// The text codecs of src/hy_utils.c.
module Codec {
  import opened Basics
  import opened Arith
  import opened Bits
  import opened Fifo

  type Octet = x: int | 0 <= x < 256

  // snprintf to str + at with the room that is left behind `at`: what does not fit is cut off,
  // the text ends in a zero, and the full length is returned.
  method Snprintf(str: array<char>, at: nat, text: string) returns (n: nat)
    requires at <= str.Length
    modifies str
    ensures n == |text|
    ensures at < str.Length ==>
              var m := if |text| < str.Length - at then |text| else str.Length - at - 1;
              str[..] == old(str[..at]) + text[..m] + ['\0'] + old(str[at + m + 1..])
    ensures at == str.Length ==> str[..] == old(str[..])
  {
    n := |text|;
    if at < str.Length {
      var m := if |text| < str.Length - at then |text| else str.Length - at - 1;
      forall i | 0 <= i < m {
        str[at + i] := text[i];
      }
      str[at + m] := '\0';
    }
  }

  // memset of the whole buffer
  method Clear(str: array<char>)
    modifies str
    ensures forall k :: 0 <= k < str.Length ==> str[k] == '\0'
  {
    forall k | 0 <= k < str.Length {
      str[k] := '\0';
    }
  }

  // The buffer s begins with the text p and its zero, or, if there is no room for all of it, with as
  // much of it as leaves room for the zero.
  ghost predicate Holds(s: seq<char>, p: string) {
    s == [] ||
    var m := if |p| < |s| then |p| else |s| - 1;
    s[..m] == p[..m] && (p != [] ==> s[m] == '\0')
  }

  // One more call of snprintf behind the text p.  It leaves alone what is behind the zero.
  method PutText(str: array<char>, at: nat, text: string, ghost p: string) returns (next: nat)
    requires at == |p| <= str.Length && text != [] && Holds(str[..], p)
    modifies str
    ensures next == at + |text| && Holds(str[..], p + text)
    ensures forall k :: next < k < str.Length ==> str[k] == old(str[k])
  {
    assert at < str.Length ==> str[..at] == str[..][..at] == p[..at] == p;
    var n := Snprintf(str, at, text);
    next := at + n;
  }

  // ---- Decimal digits ---------------------------------------------------------------------------

  predicate IsDigit(c: char) {
    '0' <= c <= '9'
  }

  function DigitChar(d: nat): (c: char)
    requires d < 10
    ensures IsDigit(c) && DigitOf(c) == d
  {
    '0' + d as char
  }

  function DigitOf(c: char): (d: nat)
    requires IsDigit(c)
    ensures d < 10
  {
    c as nat - '0' as nat
  }

  // The number of digits that s begins with, and their value.
  function Span(s: string): (n: nat)
    ensures n <= |s| && (forall i :: 0 <= i < n ==> IsDigit(s[i])) && (n < |s| ==> !IsDigit(s[n]))
  {
    if s == [] || !IsDigit(s[0]) then 0 else
      var n := Span(s[1..]);
      assert forall i :: 0 < i < |s| ==> s[i] == s[1..][i - 1];
      1 + n
  }

  function Decimal(d: string): nat
    requires forall i :: 0 <= i < |d| ==> IsDigit(d[i])
  {
    if d == [] then 0 else Decimal(d[..|d| - 1]) * 10 + DigitOf(d[|d| - 1])
  }

  function Leading(s: string): nat {
    Decimal(s[..Span(s)])
  }

  function Atoi(s: string): int {
    if s != [] && s[0] == '-' then 0 - Leading(s[1..])
    else if s != [] && s[0] == '+' then Leading(s[1..])
    else Leading(s)
  }

  lemma SpanIs(s: string, n: nat)
    requires n <= |s| && (forall i :: 0 <= i < n ==> IsDigit(s[i])) && (n < |s| ==> !IsDigit(s[n]))
    ensures Span(s) == n
  {
  }

  lemma DecimalStep(d: string, c: char)
    requires IsDigit(c) && forall i :: 0 <= i < |d| ==> IsDigit(d[i])
    ensures Decimal(d + [c]) == Decimal(d) * 10 + DigitOf(c)
  {
    assert (d + [c])[..|d|] == d;
  }

  // ---- Bytes as three digits each -----------------------------------------------------------------

  // The format "%03d" of a byte.
  function Triple(b: Octet): (t: string)
    ensures |t| == 3 && forall i :: 0 <= i < 3 ==> IsDigit(t[i])
  {
    [DigitChar(b / 100), DigitChar(b / 10 % 10), DigitChar(b % 10)]
  }

  function Triples(bytes: seq<Octet>): (s: string)
    ensures |s| == 3 * |bytes|
  {
    if bytes == [] then [] else Triples(bytes[..|bytes| - 1]) + Triple(bytes[|bytes| - 1])
  }

  // What does not fit is cut off; more than the one text that fills the buffer would run out of it.
  method HyHex2Int2Str(addr: seq<Octet>, str: array<char>)
    requires addr == [] || 3 * (|addr| - 1) <= str.Length
    modifies str
    ensures Holds(str[..], Triples(addr))
    ensures forall k :: 3 * |addr| < k < str.Length ==> str[k] == old(str[k])
  {
    hide Triple;
    var len := 0;
    for i := 0 to |addr|
      invariant len == 3 * i && Holds(str[..], Triples(addr[..i]))
      invariant forall k :: 3 * i < k < str.Length ==> str[k] == old(str[k])
    {
      assert addr[..i + 1][..i] == addr[..i];
      len := PutText(str, len, Triple(addr[i]), Triples(addr[..i]));
    }
    assert addr[..|addr|] == addr;
  }

  predicate IsSpace(c: char) {
    c == ' ' || '\t' <= c <= '\r'
  }

  // What the scan format "%3s" stores: at most n characters of the next word.
  function Word(s: string, n: nat): string {
    if s == [] || n == 0 then []
    else if IsSpace(s[0]) then []
    else [s[0]] + Word(s[1..], n - 1)
  }

  function SkipSpace(s: string): string {
    if s != [] && IsSpace(s[0]) then SkipSpace(s[1..]) else s
  }

  function ScanWord(s: string): string {
    Word(SkipSpace(s), 3)
  }

  // The byte scanned at position 3 * k of a C string.
  function ByteAt(s: string, k: nat): Octet
    requires 3 * k <= |s|
  {
    Atoi(ScanWord(s[3 * k..])) % 256
  }

  // One byte for every three characters that begin in s.
  function BytesOf(s: string): (b: seq<Octet>)
    ensures |b| == (|s| + 2) / 3 && forall k :: 0 <= k < |b| ==> b[k] == ByteAt(s, k)
  {
    seq((|s| + 2) / 3, k requires 0 <= k < (|s| + 2) / 3 => ByteAt(s, k))
  }

  // The loop stops when addr is full, which it finds out after the first byte is stored.
  method HyStr2Int2Hex(str: string, addr: array<Octet>)
    requires str == [] || addr.Length > 0
    modifies addr
    ensures var n := if |BytesOf(str)| < addr.Length then |BytesOf(str)| else addr.Length;
            addr[..] == BytesOf(str)[..n] + old(addr[n..])
  {
    hide Atoi, ScanWord;
    var cnt, i := 0, 0;
    while i < |str|
      invariant i == 3 * cnt && 0 <= cnt <= |BytesOf(str)|
      invariant cnt < addr.Length || str == []
      invariant forall k :: 0 <= k < cnt ==> addr[k] == ByteAt(str, k)
      invariant forall k :: cnt <= k < addr.Length ==> addr[k] == old(addr[k])
    {
      addr[cnt] := Atoi(ScanWord(str[i..])) % 256;
      assert addr[cnt] == ByteAt(str, cnt);
      cnt := cnt + 1;
      i := i + 3;
      if cnt == addr.Length {
        break;
      }
    }
  }

  lemma TripleReadsBack(b: Octet, rest: string)
    ensures Atoi(ScanWord(Triple(b) + rest)) == b
  {
    var t := Triple(b);
    assert SkipSpace(t + rest) == t + rest;
    FirstThree(t, rest);
    SpanIs(t, 3);
    TripleValue(b);
    assert t[..3] == t;
  }

  lemma FirstThree(t: string, rest: string)
    requires |t| == 3 && forall i :: 0 <= i < 3 ==> IsDigit(t[i])
    ensures Word(t + rest, 3) == t
  {
    var s := t + rest;
    assert Word(s[1..][1..][1..], 0) == [];
    assert Word(s[1..][1..], 1) == [t[2]];
    assert Word(s[1..], 2) == [t[1]] + [t[2]];
    assert t == [t[0]] + ([t[1]] + [t[2]]);
  }

  lemma TripleValue(b: Octet)
    ensures Decimal(Triple(b)) == b
  {
    ThreeDigitValue(DigitChar(b / 100), DigitChar(b / 10 % 10), DigitChar(b % 10));
  }

  lemma ThreeDigitValue(x: char, y: char, z: char)
    requires IsDigit(x) && IsDigit(y) && IsDigit(z)
    ensures Decimal([x, y, z]) == DigitOf(x) * 100 + DigitOf(y) * 10 + DigitOf(z)
  {
    var t := [x, y, z];
    assert t[..2] == [x, y] && t[..2][..1] == [x] && t[..2][..1][..0] == [];
    hide IsDigit, DigitOf;
    assert Decimal([x]) == DigitOf(x);
  }

  lemma {:induction false} TriplesAt(bytes: seq<Octet>, k: nat)
    requires k < |bytes|
    ensures Triples(bytes)[3 * k..3 * k + 3] == Triple(bytes[k])
  {
    var front, n := bytes[..|bytes| - 1], |bytes| - 1;
    if k < n {
      TriplesAt(front, k);
      assert Triples(bytes)[3 * k..3 * k + 3] == Triples(front)[3 * k..3 * k + 3];
    }
  }

  lemma ByteReadsBack(bytes: seq<Octet>, k: nat)
    requires k < |bytes|
    ensures ByteAt(Triples(bytes), k) == bytes[k]
  {
    hide Triples, Triple, Atoi, ScanWord;
    var s := Triples(bytes);
    TriplesAt(bytes, k);
    assert s[3 * k..] == Triple(bytes[k]) + s[3 * k + 3..];
    TripleReadsBack(bytes[k], s[3 * k + 3..]);
  }

  // HyStr2Int2Hex undoes HyHex2Int2Str for byte strings of any length.
  lemma BytesReadBack(bytes: seq<Octet>)
    ensures BytesOf(Triples(bytes)) == bytes
  {
    hide Triples, ByteAt;
    var s := Triples(bytes);
    forall k | 0 <= k < |bytes|
      ensures ByteAt(s, k) == bytes[k]
    {
      ByteReadsBack(bytes, k);
    }
  }

  // ---- Bits -------------------------------------------------------------------------------------

  // Bit i of num.
  function Bit(num: nat, i: nat): (b: nat)
    ensures b < 2
  {
    num / Pow2(i) % 2
  }

  // The n lowest bits, the highest first.
  function BitString(num: nat, n: nat): (s: string)
    ensures |s| == n
  {
    if n == 0 then [] else [if Bit(num, n - 1) == 1 then '1' else '0'] + BitString(num, n - 1)
  }

  // Masking with a single bit.
  lemma {:induction false} OneBit(num: nat, k: nat)
    ensures BitAnd(num, Pow2(k)) == Bit(num, k) * Pow2(k)
  {
    if num == 0 {
      DivMod(0, Pow2(k));
    } else if k > 0 {
      OneBit(num / 2, k - 1);
      HalfBit(num, k);
      var b := Bit(num, k);
      assert b == 0 || b == 1;
    } else {
      assert BitAnd(num / 2, 0) == 0;
    }
  }

  lemma BitTest(num: nat, k: nat)
    ensures BitAnd(num, Pow2(k)) != 0 <==> Bit(num, k) == 1
  {
    OneBit(num, k);
    hide BitAnd, Pow2, Bit;
    assert Bit(num, k) == 0 || Bit(num, k) == 1;
  }

  lemma HalfBit(num: nat, k: nat)
    requires k > 0
    ensures Bit(num / 2, k - 1) == Bit(num, k)
  {
    var p, h := Pow2(k - 1), num / 2;
    DivMod(h, p);
    MulDouble(h / p, p);
    DivModUnique(h / p, 2 * p, 2 * (h % p) + num % 2);
    assert num == h / p * (2 * p) + (2 * (h % p) + num % 2);
  }

  // The same as to the room; behind the text the buffer is cleared.
  method HyDec2BitStr(num: nat, numLen: nat, bitStr: array<char>)
    requires num < U32_MOD && numLen <= 32 && numLen <= bitStr.Length + 1
    modifies bitStr
    ensures Holds(bitStr[..], BitString(num, numLen))
    ensures forall k :: numLen <= k < bitStr.Length ==> bitStr[k] == '\0'
  {
    Clear(bitStr);
    hide Pow2, BitAnd, Holds, HoldsOnly, BitString, FirstBits;
    var len, i := 0, numLen;
    ghost var text := "";
    NoText(bitStr[..], num, numLen);
    while i > 0
      invariant 0 <= i && len == |text| == numLen - i && FirstBits(num, numLen, i, text)
      invariant HoldsOnly(bitStr[..], text)
    {
      i := i - 1;
      var c := if BitAnd(num, Pow2(i)) != 0 then "1" else "0";
      len := PutBit(bitStr, len, c, text);
      NextBit(num, numLen, i, text, c);
      text := text + c;
    }
    AllBits(num, numLen, text, bitStr[..]);
  }

  // The buffer holds the text, and zeros behind it.
  ghost predicate HoldsOnly(s: seq<char>, p: string) {
    Holds(s, p) && forall k :: |p| <= k < |s| ==> s[k] == '\0'
  }

  // The text is the bit string without its last i bits.
  ghost predicate FirstBits(num: nat, n: nat, i: nat, text: string) {
    text + BitString(num, i) == BitString(num, n)
  }

  // The same for one character, in a buffer that is cleared behind the text.
  method PutBit(str: array<char>, at: nat, c: string, ghost p: string) returns (next: nat)
    requires at == |p| <= str.Length && |c| == 1 && HoldsOnly(str[..], p)
    modifies str
    ensures next == |p + c| && HoldsOnly(str[..], p + c)
  {
    assert forall k :: at <= k < str.Length ==> str[k] == str[..][k] == '\0';
    next := PutText(str, at, c, p);
    hide Holds;
    ZeroBehind(str[..], p + c);
  }

  lemma NoText(s: seq<char>, num: nat, n: nat)
    requires forall k :: 0 <= k < |s| ==> s[k] == '\0'
    ensures HoldsOnly(s, "") && FirstBits(num, n, n, "")
  {
    assert "" + BitString(num, n) == BitString(num, n);
  }

  lemma ZeroBehind(s: seq<char>, p: string)
    requires Holds(s, p) && p != []
    ensures |p| < |s| ==> s[|p|] == '\0'
  {
  }

  lemma AllBits(num: nat, n: nat, text: string, s: seq<char>)
    requires FirstBits(num, n, 0, text) && HoldsOnly(s, text)
    ensures text == BitString(num, n) && Holds(s, text)
    ensures forall k :: |text| <= k < |s| ==> s[k] == '\0'
  {
    assert text + BitString(num, 0) == text;
  }

  lemma NextBit(num: nat, n: nat, i: nat, text: string, c: string)
    requires FirstBits(num, n, i + 1, text) && c == if BitAnd(num, Pow2(i)) != 0 then "1" else "0"
    ensures FirstBits(num, n, i, text + c)
  {
    BitTest(num, i);
    hide Bit, Pow2, BitAnd;
    assert text + c + BitString(num, i) == text + (c + BitString(num, i));
  }

  // x | y
  function BitOr(x: nat, y: nat): nat {
    if x == 0 then y else if y == 0 then x
    else (if x % 2 == 1 || y % 2 == 1 then 1 else 0) + 2 * BitOr(x / 2, y / 2)
  }

  // A number below 2^k and a multiple of 2^k share no bits.
  lemma {:induction false} OrIsSum(h: nat, k: nat, y: nat)
    requires y < Pow2(k)
    ensures BitOr(h * Pow2(k), y) == h * Pow2(k) + y
    decreases k
  {
    if k > 0 && h > 0 && y > 0 {
      var p := Pow2(k - 1);
      assert h * Pow2(k) == 2 * (h * p);
      OrIsSum(h, k - 1, y / 2);
    }
  }

  predicate IsBit(c: char) {
    c == '0' || c == '1'
  }

  // A string of bits read as a number, and a single character as atoi reads it.
  function Binary(s: string): nat {
    if s == [] then 0 else 2 * Binary(s[..|s| - 1]) + CharValue(s[|s| - 1])
  }

  function CharValue(c: char): (v: nat)
    ensures v < 10 && (IsBit(c) ==> v < 2)
  {
    if IsDigit(c) then DigitOf(c) else 0
  }

  // What is collected from the first i characters of a string of length n.
  function Collected(s: string, n: nat, i: nat): nat
    requires i <= n <= |s|
  {
    if i == 0 then 0 else BitOr(Collected(s, n, i - 1), CharValue(s[i - 1]) * Pow2(n - i) % U32_MOD)
  }

  method HyBitStr2Dec(bitStr: string, len: nat) returns (num: nat)
    requires len <= |bitStr| && len <= 32
    ensures num == Collected(bitStr, len, len)
    ensures (forall k :: 0 <= k < len ==> IsBit(bitStr[k])) ==> num == Binary(bitStr[..len])
  {
    num := 0;
    for i := 0 to len
      invariant num == Collected(bitStr, len, i)
    {
      num := BitOr(num, CharValue(bitStr[i]) * Pow2(len - 1 - i) % U32_MOD);
    }
    if forall k :: 0 <= k < len ==> IsBit(bitStr[k]) {
      BitsAreCollected(bitStr, len, len);
    }
  }

  lemma CollectStep(b: nat, v: nat, k: nat)
    requires v < 2 && k < 32
    ensures BitOr(b * Pow2(k + 1), v * Pow2(k) % U32_MOD) == (2 * b + v) * Pow2(k)
  {
    Pow2Monotone(k + 1, 32);
    Pow2Is64();
    Pow2Doubles(k);
    hide Pow2, BitOr;
    TimesBit(v, Pow2(k));
    var y := v * Pow2(k);
    DivMod(y, U32_MOD);
    OrIsSum(b, k + 1, y);
    JoinBit(b, v, Pow2(k));
  }

  lemma JoinBit(b: nat, v: nat, p: nat)
    ensures b * (2 * p) + v * p == (2 * b + v) * p
  {
    MulDouble(b, p);
    MulSum(2 * b, v, p);
    MulMul(2, b, p);
  }

  lemma TimesBit(v: nat, p: nat)
    requires v < 2 && p > 0
    ensures v * p == (if v == 1 then p else 0) < 2 * p
  {
  }

  lemma {:induction false} BitsAreCollected(s: string, n: nat, i: nat)
    requires i <= n <= |s| && n <= 32 && forall k :: 0 <= k < n ==> IsBit(s[k])
    ensures Collected(s, n, i) == Binary(s[..i]) * Pow2(n - i)
  {
    hide Pow2, BitOr, CharValue;
    if i > 0 {
      BitsAreCollected(s, n, i - 1);
      assert s[..i][..i - 1] == s[..i - 1];
      CollectStep(Binary(s[..i - 1]), CharValue(s[i - 1]), n - i);
    } else {
      TimesZero(Binary(s[..i]), Pow2(n - i));
    }
  }

  lemma {:induction false} BinaryOfFirst(c: char, t: string)
    ensures Binary([c] + t) == CharValue(c) * Pow2(|t|) + Binary(t)
  {
    if t == [] {
      assert ([c] + t)[..0] == [];
      assert [c] + t == [c];
    } else {
      assert ([c] + t)[..|t|] == [c] + t[..|t| - 1];
      BinaryOfFirst(c, t[..|t| - 1]);
      var v, p := CharValue(c), Pow2(|t| - 1);
      MulDouble(v, p);
    }
  }

  lemma {:induction false} OnlyBits(num: nat, n: nat)
    ensures forall k :: 0 <= k < n ==> IsBit(BitString(num, n)[k])
  {
    if n > 0 {
      OnlyBits(num, n - 1);
      hide Bit;
      assert forall k :: 0 < k < n ==> BitString(num, n)[k] == BitString(num, n - 1)[k - 1];
    }
  }

  lemma {:induction false} BitsOfNumber(num: nat, n: nat)
    ensures Binary(BitString(num, n)) == num % Pow2(n)
  {
    if n == 0 {
      DivMod(num, 1);
    } else {
      Pow2Doubles(n - 1);
      hide Pow2, Binary;
      var t, p := BitString(num, n - 1), Pow2(n - 1);
      var c := if Bit(num, n - 1) == 1 then '1' else '0';
      BitsOfNumber(num, n - 1);
      BinaryOfFirst(c, t);
      ModMul(num, p, 2);
      assert CharValue(c) == Bit(num, n - 1);
      TimesCommutes(Bit(num, n - 1), p);
      TimesCommutes(p, 2);
    }
  }

  lemma TimesCommutes(a: nat, b: nat)
    ensures a * b == b * a
  {
  }

  // HyBitStr2Dec undoes HyDec2BitStr exactly for the numbers that fit into the bits asked for.
  lemma BitsReadBackExactly(num: nat, n: nat)
    requires n <= 32
    ensures Collected(BitString(num, n), n, n) == num <==> num < Pow2(n)
  {
    BitsOfNumber(num, n);
    OnlyBits(num, n);
    assert Pow2(0) == 1;
    hide BitString, Pow2, Binary, Collected, IsBit;
    var s := BitString(num, n);
    BitsAreCollected(s, n, n);
    assert s[..n] == s;
    DivMod(num, Pow2(n));
  }

  // ---- Addresses ----------------------------------------------------------------------------------

  // The format "%d" of a byte.
  function Text(b: Octet): (t: string)
    ensures 1 <= |t| <= 3 && forall i :: 0 <= i < |t| ==> IsDigit(t[i])
  {
    if b < 10 then [DigitChar(b)] else if b < 100 then [DigitChar(b / 10), DigitChar(b % 10)] else Triple(b)
  }

  // The bytes of an address, the highest first.
  function Quad(num: nat): (q: seq<Octet>)
    requires num < U32_MOD
    ensures |q| == 4
  {
    [num / 256 / 256 / 256, num / 256 / 256 % 256, num / 256 % 256, num % 256]
  }

  function Join(a: nat, b: nat, c: nat, d: nat): nat {
    a * 0x100_0000 + b * 0x1_0000 + c * 0x100 + d
  }

  // The first i bytes as text, each with a dot behind it; and the dotted notation.
  function Parts(q: seq<Octet>, i: nat): (s: string)
    requires i <= |q|
    ensures i <= |s| <= 4 * i && (i > 0 ==> s[|s| - 1] == '.')
  {
    if i == 0 then [] else Parts(q, i - 1) + Text(q[i - 1]) + "."
  }

  function Dotted(num: nat): (s: string)
    requires num < U32_MOD
    ensures |s| < 16
  {
    var p := Parts(Quad(num), 4);
    p[..|p| - 1]
  }

  lemma LastDotGoes(s: seq<char>, p: string)
    requires Holds(s, p) && 0 < |p| <= |s| && forall k :: |p| < k < |s| ==> s[k] == '\0'
    ensures var t := s[|p| - 1 := '\0'];
            t[..|p| - 1] == p[..|p| - 1] && forall k :: |p| - 1 <= k < |s| ==> t[k] == '\0'
  {
    assert s[..|p| - 1] == p[..|p| - 1] by {
      var m := if |p| < |s| then |p| else |s| - 1;
      assert s[..m][..|p| - 1] == p[..m][..|p| - 1];
    }
  }

  // The loop of HyIpInt2Str.
  method PutParts(bytes: seq<Octet>, ipStr: array<char>) returns (len: nat)
    requires |bytes| == 4 && |Parts(bytes, 4)| <= ipStr.Length
    modifies ipStr
    ensures len == |Parts(bytes, 4)| && Holds(ipStr[..], Parts(bytes, 4))
    ensures forall k :: len < k < ipStr.Length ==> ipStr[k] == old(ipStr[k])
  {
    assert Parts(bytes, 0) == [];
    hide Text, Parts;
    len := 0;
    for i := 0 to 4
      invariant len == |Parts(bytes, i)| && Holds(ipStr[..], Parts(bytes, i))
      invariant forall k :: len < k < ipStr.Length ==> ipStr[k] == old(ipStr[k])
    {
      hide Holds;
      PartsGrow(bytes, i, 4);
      PartsGrow(bytes, i + 1, 4);
      len := PutText(ipStr, len, Text(bytes[i]) + ".", Parts(bytes, i));
    }
  }

  // Every buffer works that holds the text and its zero, so one of 16 characters always does,
  // although the text with its last dot may fill it.
  method HyIpInt2Str(ipNum: nat, ipStr: array<char>)
    requires ipNum < U32_MOD && |Dotted(ipNum)| < ipStr.Length
    modifies ipStr
    ensures ipStr[..|Dotted(ipNum)|] == Dotted(ipNum)
    ensures forall k :: |Dotted(ipNum)| <= k < ipStr.Length ==> ipStr[k] == '\0'
  {
    hide Quad, Text, Parts, Holds;
    Clear(ipStr);
    var len := PutParts(Quad(ipNum), ipStr);
    LastDotGoes(ipStr[..], Parts(Quad(ipNum), 4));
    ghost var before := ipStr[..];
    ipStr[len - 1] := '\0';
    assert ipStr[..] == before[len - 1 := '\0'];
    assert ipStr[..len - 1] == ipStr[..][..len - 1];
  }

  lemma {:induction false} PartsGrow(q: seq<Octet>, i: nat, j: nat)
    requires i <= j <= |q|
    ensures |Parts(q, j)| >= |Parts(q, i)| + (j - i)
    ensures i < j ==> Parts(q, i + 1) == Parts(q, i) + (Text(q[i]) + ".")
    decreases j
  {
    hide Text;
    if i < j {
      PartsGrow(q, i, j - 1);
    }
  }

  // The scan format "%d": white space, a sign and at least one digit; what is left follows.
  datatype Scan = Nothing | Number(value: int, rest: string)

  function ScanDigits(s: string): Scan {
    if Span(s) == 0 then Nothing else Number(Decimal(s[..Span(s)]), s[Span(s)..])
  }

  function ScanInt(s: string): Scan {
    var t := SkipSpace(s);
    if t != [] && t[0] == '-' then
      match ScanDigits(t[1..])
      case Number(v, rest) => Number(0 - v, rest)
      case Nothing => Nothing
    else if t != [] && t[0] == '+' then ScanDigits(t[1..])
    else ScanDigits(t)
  }

  // n numbers with dots between them; sscanf assigns the numbers up to the first mismatch.
  function ScanDotted(s: string, n: nat): (v: seq<int>)
    ensures |v| <= n
    decreases n
  {
    if n == 0 then []
    else
      match ScanInt(s)
      case Nothing => []
      case Number(v, rest) =>
        if n > 1 && rest != [] && rest[0] == '.' then [v] + ScanDotted(rest[1..], n - 1) else [v]
  }

  function Low8(x: int): Octet {
    x % 256
  }

  // The place of byte i in an address.
  function Weight(i: nat): nat
    requires i < 4
  {
    if i == 0 then 0x100_0000 else if i == 1 then 0x1_0000 else if i == 2 then 0x100 else 1
  }

  // What the array num holds after sscanf: the numbers scanned, and behind them what was there
  // before, because the result of sscanf is not looked at.
  function Scanned(ipStr: string, unset: seq<int>): (num: seq<int>)
    requires |unset| == 4
    ensures |num| == 4
  {
    ScanDotted(ipStr, 4) + unset[|ScanDotted(ipStr, 4)|..]
  }

  method HyIpStr2Int(ipStr: string, unset: seq<int>) returns (ipNum: nat)
    requires |unset| == 4
    ensures var v := Scanned(ipStr, unset); ipNum == Join(Low8(v[0]), Low8(v[1]), Low8(v[2]), Low8(v[3]))
    ensures ipNum < U32_MOD
  {
    var num := Scanned(ipStr, unset);
    ghost var v := [Low8(num[0]), Low8(num[1]), Low8(num[2]), Low8(num[3])];
    hide Scanned, Low8, Join, Weight, Partial;
    ipNum := 0;
    PartialIsJoin(v);
    for i := 0 to 4
      invariant ipNum == Partial(v, i)
    {
      assert v[i] == Low8(num[i]);
      PartialStep(v, i);
      ipNum := AddByte(ipNum, Low8(num[i]), i);
    }
  }

  // The sum of the first i bytes at their places.
  ghost function Partial(v: seq<Octet>, i: nat): nat
    requires |v| == 4 && i <= 4
  {
    if i == 0 then 0 else Partial(v, i - 1) + v[i - 1] * Weight(i - 1)
  }

  lemma PartialFits(v: seq<Octet>, i: nat)
    requires |v| == 4 && i <= 3
    ensures Partial(v, i) + 256 * Weight(i) <= U32_MOD
  {
    if i > 0 {
      PartialFits(v, i - 1);
      ByteFits(v[i - 1], i - 1);
      hide Partial, Weight;
      assert Weight(i - 1) == 256 * Weight(i) by { WeightStep(i); }
    }
  }

  lemma WeightStep(i: nat)
    requires 0 < i < 4
    ensures Weight(i - 1) == 256 * Weight(i)
  {
  }

  lemma ByteFits(b: Octet, i: nat)
    requires i < 4
    ensures b * Weight(i) + Weight(i) <= 256 * Weight(i)
  {
    var w, k := Weight(i), 255 - b;
    assert k * w >= 0;
    assert 256 * w == (b + 1 + k) * w == (b + 1) * w + k * w;
  }

  lemma PartialStep(v: seq<Octet>, i: nat)
    requires |v| == 4 && i < 4
    ensures Partial(v, i) + v[i] * Weight(i) == Partial(v, i + 1) < U32_MOD
  {
    PartialFits(v, i);
    ByteFits(v[i], i);
    assert Weight(i) > 0;
  }

  lemma PartialIsJoin(v: seq<Octet>)
    requires |v| == 4
    ensures Partial(v, 0) == 0 && Partial(v, 4) == Join(v[0], v[1], v[2], v[3])
  {
    assert Partial(v, 1) == v[0] as nat * 0x100_0000;
    assert Partial(v, 2) == Partial(v, 1) + v[1] as nat * 0x1_0000;
    assert Partial(v, 3) == Partial(v, 2) + v[2] as nat * 0x100;
    assert Partial(v, 4) == Partial(v, 3) + v[3];
  }

  // *ip_num += byte << (8 * (3 - i)), in 32-bit arithmetic.
  method AddByte(ipNum: nat, byte: Octet, i: nat) returns (sum: nat)
    requires i < 4
    ensures sum < U32_MOD
    ensures ipNum + byte * Weight(i) < U32_MOD ==> sum == ipNum + byte * Weight(i)
  {
    sum := (ipNum + byte * Weight(i)) % U32_MOD;
  }

  // A number as "%d" writes it: digits, and no zero in front of another one.
  predicate Canonical(d: string) {
    && d != [] && (forall i :: 0 <= i < |d| ==> IsDigit(d[i]))
    && (|d| > 1 ==> d[0] != '0')
  }

  lemma TextIsCanonical(b: Octet)
    ensures Canonical(Text(b)) && Decimal(Text(b)) == b
  {
    TextValue(b);
    hide Decimal;
  }

  lemma DigitsEqual(x: char, y: char)
    requires IsDigit(x) && IsDigit(y) && DigitOf(x) == DigitOf(y)
    ensures x == y
  {
  }

  lemma {:induction false} DecimalGrows(d: string)
    requires Canonical(d) && |d| > 1
    ensures Decimal(d) >= 10
  {
    var front := d[..|d| - 1];
    if |front| > 1 {
      assert Canonical(front);
      DecimalGrows(front);
    } else {
      assert front == [d[0]] && front[..0] == [];
      assert Decimal(front) == DigitOf(d[0]) > 0;
    }
  }

  // The text of a number is the only one that is written in this way.
  lemma {:induction false} CanonicalIsUnique(x: string, y: string)
    requires Canonical(x) && Canonical(y) && Decimal(x) == Decimal(y)
    ensures x == y
  {
    if |x| == 1 || |y| == 1 {
      if |x| > 1 {
        DecimalGrows(x);
      }
      if |y| > 1 {
        DecimalGrows(y);
      }
      OneDigit(x);
      OneDigit(y);
      assert |x| == |y| == 1;
      DigitsEqual(x[0], y[0]);
    } else {
      var p, q := x[..|x| - 1], y[..|y| - 1];
      assert Canonical(p) && Canonical(q);
      DigitsEqual(x[|x| - 1], y[|y| - 1]);
      CanonicalIsUnique(p, q);
      assert x == p + [x[|x| - 1]] && y == q + [y[|y| - 1]];
    }
  }

  lemma OneDigit(d: string)
    requires Canonical(d)
    ensures |d| == 1 ==> Decimal(d) == DigitOf(d[0]) < 10
  {
    assert |d| == 1 ==> d[..0] == [];
  }

  function Joined(w: string, x: string, y: string, z: string): string {
    w + "." + (x + "." + (y + "." + z))
  }

  // The number that a canonical text stands for.
  function ValueOf(d: string): nat
    requires Canonical(d)
  {
    Decimal(d)
  }

  lemma TextIs(b: Octet, d: string)
    requires Canonical(d)
    ensures Text(b) == d <==> ValueOf(d) == b
  {
    TextIsCanonical(b);
    if ValueOf(d) == b {
      hide Decimal;
      CanonicalIsUnique(Text(b), d);
    }
  }

  // The dotted text is the only one of four numbers from 0 to 255, each as "%d" writes it, that
  // stands for the address with the first number as its highest byte.
  lemma DottedIsUnique(num: nat, w: string, x: string, y: string, z: string)
    requires num < U32_MOD && Canonical(w) && Canonical(x) && Canonical(y) && Canonical(z)
    requires ValueOf(w) < 256 && ValueOf(x) < 256 && ValueOf(y) < 256 && ValueOf(z) < 256
    ensures Dotted(num) == Joined(w, x, y, z)
            <==> ValueOf(w) * 0x100_0000 + ValueOf(x) * 0x1_0000 + ValueOf(y) * 0x100 + ValueOf(z) == num
  {
    hide Canonical, ValueOf, Dotted, Text, Quad;
    DottedParts(num);
    var q := Quad(num);
    assert Dotted(num) == Joined(Text(q[0]), Text(q[1]), Text(q[2]), Text(q[3]));
    hide Joined;
    QuadIs(num, ValueOf(w), ValueOf(x), ValueOf(y), ValueOf(z));
    TextIs(q[0], w);
    TextIs(q[1], x);
    TextIs(q[2], y);
    TextIs(q[3], z);
    JoinedApart(q[0], q[1], q[2], q[3], w, x, y, z);
  }

  lemma JoinedApart(a: Octet, b: Octet, c: Octet, d: Octet, w: string, x: string, y: string, z: string)
    requires Canonical(w) && Canonical(x) && Canonical(y) && Canonical(z)
    ensures Joined(Text(a), Text(b), Text(c), Text(d)) == Joined(w, x, y, z)
            <==> Text(a) == w && Text(b) == x && Text(c) == y && Text(d) == z
  {
    TextIsCanonical(a);
    TextIsCanonical(b);
    TextIsCanonical(c);
    TextIsCanonical(d);
    hide Canonical, Text, Decimal;
    if Joined(Text(a), Text(b), Text(c), Text(d)) == Joined(w, x, y, z) {
      PartsAreEqual(Text(a), Text(b) + "." + (Text(c) + "." + Text(d)), w, x + "." + (y + "." + z));
      PartsAreEqual(Text(b), Text(c) + "." + Text(d), x, y + "." + z);
      PartsAreEqual(Text(c), Text(d), y, z);
    }
  }

  // The bytes of a number are the only four that make it up.
  lemma QuadIs(num: nat, a: nat, b: nat, c: nat, d: nat)
    requires num < U32_MOD && a < 256 && b < 256 && c < 256 && d < 256
    ensures Quad(num) == [a, b, c, d] <==> a * 0x100_0000 + b * 0x1_0000 + c * 0x100 + d == num
  {
    QuadJoins(num);
    if a * 0x100_0000 + b * 0x1_0000 + c * 0x100 + d == num {
      OneByteOff(num, (a * 256 + b) * 256 + c, d);
      OneByteOff((a * 256 + b) * 256 + c, a * 256 + b, c);
      OneByteOff(a * 256 + b, a, b);
    }
  }

  lemma OneByteOff(n: nat, h: nat, l: nat)
    requires n == h * 256 + l && l < 256
    ensures n / 256 == h && n % 256 == l
  {
    DivModUnique(h, 256, l);
  }

  // The dot ends the first number.
  lemma PartsAreEqual(u: string, s: string, v: string, t: string)
    requires Canonical(u) && Canonical(v) && u + "." + s == v + "." + t
    ensures u == v && s == t
  {
    var p := u + "." + s;
    assert p[|u|] == '.' && p[|v|] == '.';
    assert forall i :: 0 <= i < |u| ==> IsDigit(p[i]);
    assert forall i :: 0 <= i < |v| ==> IsDigit(p[i]) by {
      assert forall i :: 0 <= i < |v| ==> (v + "." + t)[i] == v[i];
    }
    assert |u| == |v|;
    assert u == p[..|u|] && v == (v + "." + t)[..|v|];
    assert s == p[|u| + 1..] && t == (v + "." + t)[|v| + 1..];
  }

  lemma TextValue(b: Octet)
    ensures Decimal(Text(b)) == b
  {
    if b < 10 {
      DecimalStep([], DigitChar(b));
      assert [] + [DigitChar(b)] == Text(b);
    } else if b < 100 {
      var x, y := DigitChar(b / 10), DigitChar(b % 10);
      DecimalStep([], x);
      DecimalStep([x], y);
      assert [] + [x] == [x] && [x] + [y] == Text(b);
    } else {
      TripleValue(b);
    }
  }

  lemma TextScans(b: Octet, rest: string)
    requires rest != [] ==> !IsDigit(rest[0])
    ensures ScanInt(Text(b) + rest) == Number(b, rest)
  {
    TextValue(b);
    hide Text, Decimal;
    var s, n := Text(b) + rest, |Text(b)|;
    assert s[0] == Text(b)[0];
    assert n < |s| ==> s[n] == rest[0];
    SpanIs(s, n);
    assert s[..n] == Text(b) && s[n..] == rest;
  }

  lemma PartScans(b: Octet, rest: string, n: nat)
    requires n > 1
    ensures ScanDotted(Text(b) + "." + rest, n) == [b as int] + ScanDotted(rest, n - 1)
  {
    assert Text(b) + "." + rest == Text(b) + ("." + rest);
    TextScans(b, "." + rest);
    hide ScanInt, Text;
    assert ("." + rest)[1..] == rest;
  }

  lemma DottedParts(num: nat)
    requires num < U32_MOD
    ensures var q := Quad(num);
            Dotted(num) == Text(q[0]) + "." + (Text(q[1]) + "." + (Text(q[2]) + "." + Text(q[3])))
  {
    hide Text;
    var q := Quad(num);
    var t := Text(q[0]) + "." + (Text(q[1]) + "." + (Text(q[2]) + "." + Text(q[3])));
    assert Parts(q, 1) == Text(q[0]) + ".";
    assert Parts(q, 2) == Parts(q, 1) + Text(q[1]) + ".";
    assert Parts(q, 3) == Parts(q, 2) + Text(q[2]) + ".";
    assert Parts(q, 4) == Parts(q, 3) + Text(q[3]) + ".";
    assert Parts(q, 4) == t + ".";
  }

  lemma QuadJoins(num: nat)
    requires num < U32_MOD
    ensures var q := Quad(num); Join(q[0], q[1], q[2], q[3]) == num
  {
  }

  // HyIpStr2Int undoes HyIpInt2Str for every address.
  lemma AddressReadsBack(num: nat, unset: seq<int>)
    requires num < U32_MOD && |unset| == 4
    ensures var v := Scanned(Dotted(num), unset); Join(Low8(v[0]), Low8(v[1]), Low8(v[2]), Low8(v[3])) == num
  {
    DottedParts(num);
    QuadJoins(num);
    var q := Quad(num);
    hide Quad, Text, Dotted, Join, ScanInt, ScanDotted, Low8;
    var s2 := Text(q[2]) + "." + Text(q[3]);
    var s1 := Text(q[1]) + "." + s2;
    LastScans(q[3]);
    PartScans(q[2], Text(q[3]), 2);
    PartScans(q[1], s2, 3);
    PartScans(q[0], s1, 4);
    assert forall x: Octet :: Low8(x) == x by {
      LowOfByte();
    }
  }

  lemma LowOfByte()
    ensures forall x: Octet :: Low8(x) == x
  {
  }

  lemma LastScans(b: Octet)
    ensures ScanDotted(Text(b), 1) == [b as int]
  {
    TextScans(b, "");
    assert Text(b) + "" == Text(b);
    hide ScanInt, Text;
  }
}
