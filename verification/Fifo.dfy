// The byte ring buffer of src/hy_fifo.c.  The counters run freely and wrap around at 2^64;
// the buffer index is a counter masked with size - 1.
module Fifo {
  import opened Basics
  import opened Arith
  import opened Bits

  const MAX_SIZE := 0x8000_0000

  // The arithmetic of size_t.
  function Sub(a: nat, b: nat): nat
    requires a < SIZE_MOD && b < SIZE_MOD
  {
    (a + (SIZE_MOD - b)) % SIZE_MOD
  }

  function Add(a: nat, b: nat): (r: nat)
    ensures r < SIZE_MOD
  {
    (a + b) % SIZE_MOD
  }

  lemma SubBack(a: nat, b: nat)
    requires a < SIZE_MOD && b < SIZE_MOD
    ensures Sub(a, b) == if a >= b then a - b else a + SIZE_MOD - b
    ensures Add(b, Sub(a, b)) == a
  {
  }

  // The cell i places behind cell s on a ring of n cells.
  function Cell(s: nat, i: nat, n: nat): (c: nat)
    requires s < n && i <= n
    ensures c < n
  {
    if s + i < n then s + i else s + i - n
  }

  // n bytes of the ring b from cell `start` on.
  function Window(b: seq<byte>, start: nat, n: nat): (w: seq<byte>)
    requires start < |b| && n <= |b|
    ensures |w| == n
    ensures forall i :: 0 <= i < n ==> w[i] == b[Cell(start, i, |b|)]
  {
    if start + n <= |b| then b[start..start + n] else b[start..] + b[..start + n - |b|]
  }

  // The ring b with data written over it from cell `start` on.
  function Written(b: seq<byte>, start: nat, data: seq<byte>): (c: seq<byte>)
    requires start < |b| && |data| <= |b|
    ensures |c| == |b|
    ensures forall i :: 0 <= i < |data| ==> c[Cell(start, i, |b|)] == data[i]
    ensures forall i :: |data| <= i < |b| ==> c[Cell(start, i, |b|)] == b[Cell(start, i, |b|)]
  {
    var n := |b| - start;
    if |data| <= n then b[..start] + data + b[start + |data|..]
    else data[n..] + b[|data| - n..start] + data[..n]
  }

  // Bytes written right behind a window that leaves room for them extend it.
  lemma WindowWritten(b: seq<byte>, out: nat, used: nat, data: seq<byte>)
    requires out < |b| && used + |data| <= |b|
    ensures Window(Written(b, Cell(out, used, |b|), data), out, used + |data|) == Window(b, out, used) + data
  {
    hide Written, Window;
    var c, s, n := Written(b, Cell(out, used, |b|), data), Cell(out, used, |b|), |b|;
    forall i | 0 <= i < used
      ensures c[Cell(out, i, n)] == b[Cell(out, i, n)]
    {
      assert Cell(s, n - used + i, n) == Cell(out, i, n);
    }
    forall j | 0 <= j < |data|
      ensures c[Cell(out, used + j, n)] == data[j]
    {
      assert Cell(s, j, n) == Cell(out, used + j, n);
    }
  }

  lemma WindowSuffix(b: seq<byte>, out: nat, used: nat, len: nat)
    requires out < |b| && len <= used <= |b|
    ensures Window(b, out, used)[..len] == Window(b, out, len)
    ensures Window(b, out, used)[len..] == Window(b, Cell(out, len, |b|), used - len)
  {
    var d := Cell(out, len, |b|);
    forall i | 0 <= i < used - len
      ensures Cell(out, len + i, |b|) == Cell(d, i, |b|)
    {
    }
  }

  lemma WrapStep(x: nat, len: nat, size: nat, mod: nat)
    requires x < mod && 0 < size <= mod && mod % size == 0 && len <= size
    ensures (x + len) % mod % size == Cell(x % size, len, size)
  {
    WrapOnce(x + len, mod, size);
    ModAdd(x, len, size);
    DivMod(x, size);
    CellIsMod(x % size, len, size);
  }

  lemma WrapOnce(y: nat, mod: nat, size: nat)
    requires 0 < size && y < 2 * mod && mod % size == 0
    ensures y % mod % size == y % size
  {
    if y >= mod {
      DivModUnique(1, mod, y - mod);
      ModMinus(y, mod, size);
    } else {
      DivModUnique(0, mod, y);
    }
  }

  lemma CellIsMod(r: nat, len: nat, size: nat)
    requires r < size && len <= size
    ensures (r + len) % size == Cell(r, len, size)
  {
    if r + len < size {
      DivModUnique(0, size, r + len);
    } else {
      DivModUnique(1, size, r + len - size);
    }
  }

  // The masked counter, len steps later, is len cells on, also across the end of size_t.
  lemma MaskStep(x: nat, len: nat, size: nat)
    requires x < SIZE_MOD && IsPow2(size) && len <= size <= MAX_SIZE
    ensures Add(x, len) % size == Cell(x % size, len, size)
    ensures BitAnd(x, size - 1) == x % size
  {
    var k: nat :| size == Pow2(k);
    MaskIsMod(x, k);
    SizeDivides(k);
    WrapStep(x, len, size, SIZE_MOD);
  }

  lemma SizeDivides(k: nat)
    requires Pow2(k) <= MAX_SIZE
    ensures SIZE_MOD % Pow2(k) == 0
  {
    Pow2Is64();
    if k > 64 {
      Pow2Monotone(64, k);
    }
    Pow2Divides(k, 64);
  }

  lemma Pow2Is64()
    ensures Pow2(64) == SIZE_MOD && Pow2(32) == U32_MOD && Pow2(31) == MAX_SIZE
  {
    assert Pow2(8) == 256;
    assert Pow2(16) == 65536;
    assert Pow2(24) == 0x100_0000;
    assert Pow2(31) == MAX_SIZE;
    assert Pow2(40) == 0x100_0000_0000;
    assert Pow2(48) == 0x1_0000_0000_0000;
    assert Pow2(56) == 0x100_0000_0000_0000;
  }

  // What memcpy leaves of a buffer.
  function Copied(b: seq<byte>, d: nat, src: seq<byte>): (c: seq<byte>)
    requires d + |src| <= |b|
    ensures |c| == |b|
    ensures forall i :: 0 <= i < |b| ==> c[i] == if d <= i < d + |src| then src[i - d] else b[i]
  {
    b[..d] + src + b[d + |src|..]
  }

  // A copy in two parts, up to the end of the buffer and from its beginning, wraps around.
  lemma TwoParts(b: seq<byte>, start: nat, data: seq<byte>, x: seq<byte>, y: seq<byte>)
    requires start < |b| && data == x + y && |x| == Min(|data|, |b| - start) && |data| <= |b|
    ensures Copied(Copied(b, start, x), 0, y) == Written(b, start, data)
  {
    var c, w := Copied(Copied(b, start, x), 0, y), Written(b, start, data);
    hide Copied, Written;
    forall i | 0 <= i < |b|
      ensures c[i] == w[i]
    {
      var j := if start <= i then i - start else i + (|b| - start);
      assert Cell(start, j, |b|) == i;
      PartAt(b, start, x, y, i);
    }
  }

  // The byte at index i after both copies.
  lemma PartAt(b: seq<byte>, start: nat, x: seq<byte>, y: seq<byte>, i: nat)
    requires i < |b| && start + |x| <= |b| && |y| <= start
    ensures Copied(Copied(b, start, x), 0, y)[i] ==
            if start <= i < start + |x| then x[i - start] else if i < |y| then y[i] else b[i]
  {
    hide Copied;
  }

  // ---- The counters -----------------------------------------------------------------------

  lemma FreeCells(size: nat, inn: nat, outt: nat)
    requires size <= MAX_SIZE && inn < SIZE_MOD && outt < SIZE_MOD && Sub(inn, outt) <= size
    ensures Add(Sub(size, inn), outt) == size - Sub(inn, outt)
  {
    SubBack(size, inn);
    SubBack(inn, outt);
  }

  lemma PutCounters(inn: nat, outt: nat, len: nat, untold: nat)
    requires inn < SIZE_MOD && outt < SIZE_MOD && Sub(inn, outt) + len <= MAX_SIZE
    ensures Add(inn, len) < SIZE_MOD && Sub(Add(inn, len), outt) == Sub(inn, outt) + len
    ensures Add(Add(Sub(inn, outt), untold), len) == Add(Sub(inn, outt) + len, untold)
  {
    ModWrap(inn, len, SIZE_MOD);
    SubBack(inn, outt);
    SubBack(Add(inn, len), outt);
    ModAdd(Sub(inn, outt) + untold, len, SIZE_MOD);
  }

  lemma GetCounters(inn: nat, outt: nat, len: nat, untold: nat)
    requires inn < SIZE_MOD && outt < SIZE_MOD && len <= Sub(inn, outt) <= MAX_SIZE
    ensures Add(outt, len) < SIZE_MOD && Sub(inn, Add(outt, len)) == Sub(inn, outt) - len
    ensures Sub(Add(Sub(inn, outt), untold), len) == Add(Sub(inn, outt) - len, untold)
    ensures Add(Sub(inn, outt), untold) == Add(Sub(inn, outt) - len, untold + len)
  {
    ModWrap(outt, len, SIZE_MOD);
    SubBack(inn, outt);
    SubBack(inn, Add(outt, len));
    SubAfterAdd(Sub(inn, outt) - len, untold, len);
  }

  lemma SubAfterAdd(rest: nat, untold: nat, len: nat)
    requires len < SIZE_MOD
    ensures Sub(Add(rest + len, untold), len) == Add(rest, untold)
  {
    var x := rest + len + untold;
    ModAdd(x, SIZE_MOD - len, SIZE_MOD);
    DivModUnique(1, SIZE_MOD, 0);
    ModMinus(x + (SIZE_MOD - len), SIZE_MOD, SIZE_MOD);
  }

  lemma UsedExact(used: nat, untold: nat)
    requires used < SIZE_MOD
    ensures Add(used, untold) == used <==> untold % SIZE_MOD == 0
  {
    ModAdd(untold, used, SIZE_MOD);
    ModWrap(untold % SIZE_MOD, used, SIZE_MOD);
  }

  lemma FreeExact(size: nat, inn: nat, outt: nat)
    requires size < SIZE_MOD && inn < SIZE_MOD && outt < SIZE_MOD && Sub(inn, outt) <= size
    ensures Sub(size, Add(inn, outt)) == size - Sub(inn, outt) <==> outt == 0 || outt == SIZE_MOD / 2
  {
    SubBack(inn, outt);
    ModWrap(inn, outt, SIZE_MOD);
    SubBack(size, Add(inn, outt));
  }

  // What the free length is, when it is not right.
  lemma FreeValue(size: nat, inn: nat, outt: nat)
    requires size < SIZE_MOD && inn < SIZE_MOD && outt < SIZE_MOD
    ensures var val := Sub(size, Add(inn, outt));
            val < SIZE_MOD && (val + Sub(inn, outt) + 2 * outt) % SIZE_MOD == size
  {
    SubBack(inn, outt);
    ModWrap(inn, outt, SIZE_MOD);
    SubBack(size, Add(inn, outt));
  }

  // memcpy into dst from position d on.
  method MemCopy(dst: array<byte>, d: nat, src: seq<byte>)
    requires d + |src| <= dst.Length
    modifies dst
    ensures dst[..] == Copied(old(dst[..]), d, src)
  {
    forall i | 0 <= i < |src| {
      dst[d + i] := src[i];
    }
  }

  // The two copies into the ring, up to the end of the buffer and on from its beginning.
  method CopyIn(buf: array<byte>, start: nat, data: seq<byte>)
    requires start < buf.Length && |data| <= buf.Length
    modifies buf
    ensures buf[..] == Written(old(buf[..]), start, data)
  {
    hide Copied, Written;
    var lenTmp := Min(|data|, buf.Length - start);
    assert data == data[..lenTmp] + data[lenTmp..];
    TwoParts(buf[..], start, data, data[..lenTmp], data[lenTmp..]);
    MemCopy(buf, start, data[..lenTmp]);
    MemCopy(buf, 0, data[lenTmp..]);
  }

  // The two copies out of the ring.
  method CopyOut(buf: array<byte>, start: nat, n: nat, dst: array<byte>)
    requires start < buf.Length && n <= buf.Length && n <= dst.Length && dst != buf
    modifies dst
    ensures dst[..] == Window(buf[..], start, n) + old(dst[..])[n..]
  {
    hide Copied, Window;
    var lenTmp := Min(n, buf.Length - start);
    ghost var d := dst[..];
    var first, second := buf[..][start..start + lenTmp], buf[..][..n - lenTmp];
    MemCopy(dst, 0, first);
    MemCopy(dst, lenTmp, second);
    OutParts(d, first, second);
    WindowParts(buf[..], start, n);
  }

  lemma OutParts(d: seq<byte>, x: seq<byte>, y: seq<byte>)
    requires |x| + |y| <= |d|
    ensures Copied(Copied(d, 0, x), |x|, y) == x + y + d[|x| + |y|..]
  {
    var e, f := Copied(Copied(d, 0, x), |x|, y), x + y + d[|x| + |y|..];
    hide Copied;
    forall i | 0 <= i < |d|
      ensures e[i] == f[i]
    {
    }
  }

  lemma WindowParts(b: seq<byte>, start: nat, n: nat)
    requires start < |b| && n <= |b|
    ensures var l := Min(n, |b| - start); Window(b, start, n) == b[start..start + l] + b[..n - l]
  {
  }

  // The power of two chosen by _HyUtilsNumTo2N2, in 32-bit arithmetic.
  method NumTo2N2(num: nat) returns (r: nat)
    requires num < U32_MOD
    ensures num <= MAX_SIZE ==> IsPow2(r) && num <= r && forall p :: IsPow2(p) && num <= p ==> r <= p
    ensures num > MAX_SIZE ==> r == 0
  {
    var i: nat, n: nat := 1, num;
    ghost var k: nat := 0;
    assert i == Pow2(k);
    hide Pow2;
    while n / 2 != 0
      invariant i == Pow2(k) && n * i <= num < (n + 1) * i
      invariant if num == 0 then k == 0 else n > 0
      decreases n
    {
      Halve(n, i, num);
      Pow2Doubles(k);
      n := n / 2;
      i := i * 2 % U32_MOD;
      k := k + 1;
    }
    assert num > 0 ==> n == 1 && i <= num < 2 * i;
    r := if i < num then i * 2 % U32_MOD else i;
    NextPow2(k, num);
  }

  lemma NextPow2(k: nat, num: nat)
    requires num < U32_MOD && (if num == 0 then k == 0 else Pow2(k) <= num < 2 * Pow2(k))
    ensures var r := if Pow2(k) < num then Pow2(k) * 2 % U32_MOD else Pow2(k);
            && (num <= MAX_SIZE ==> IsPow2(r) && num <= r && forall p :: IsPow2(p) && num <= p ==> r <= p)
            && (num > MAX_SIZE ==> r == 0)
  {
    hide Pow2;
    Pow2Is64();
    Pow2Doubles(k);
    var i := Pow2(k);
    if k < 31 {
      Pow2Monotone(k + 1, 31);
    } else if k > 31 {
      Pow2Monotone(32, k);
    }
    assert k <= 31;
    assert k < 31 ==> 2 * i <= MAX_SIZE;
    if num <= MAX_SIZE {
      var m := if i < num then k + 1 else k;
      assert Pow2(m) == if i < num then i * 2 % U32_MOD else i;
      forall p | IsPow2(p) && num <= p
        ensures Pow2(m) <= p
      {
        var j: nat :| p == Pow2(j);
        if m > j {
          Pow2Monotone(j, m - 1);
        } else {
          Pow2Monotone(m, j);
        }
      }
    }
  }

  lemma Halve(n: nat, i: nat, num: nat)
    requires n * i <= num < (n + 1) * i && n >= 2 && num < U32_MOD
    ensures n / 2 * (i * 2) <= num < (n / 2 + 1) * (i * 2) && i * 2 < U32_MOD
  {
    var h := n / 2;
    MulDouble(h, i);
    MulSum(h, h, i);
    MulSum(h + 1, h + 1, i);
    MulDouble(h + 1, i);
    if n == 2 * h {
      MulStep(n, n + 1, i);
    }
    MulStep(1, n, i);
  }

  // The size HyFifoCreate allocates for a request.  It is a power of two that holds the
  // request exactly for the requests up to 2^31; larger ones are cut to 32 bits.
  method ChooseSize(request: nat) returns (size: nat)
    requires request < SIZE_MOD
    ensures request <= MAX_SIZE ==> forall p :: IsPow2(p) && request <= p ==> size <= p
    ensures IsPow2(size) && request <= size <==> request <= MAX_SIZE
    ensures if request % U32_MOD <= MAX_SIZE then IsPow2(size) && size <= MAX_SIZE else size == 0
  {
    hide IsPow2, IsPowerOf2;
    size := request;
    IsPowerOf2Exactly(size);
    MaxIsPow2();
    if !IsPowerOf2(size) || size > MAX_SIZE {
      size := NumTo2N2(size % U32_MOD);
    }
  }

  lemma MaxIsPow2()
    ensures IsPow2(MAX_SIZE)
  {
    Pow2Is64();
  }

  datatype InfoType = TotalLen | UsedLen | FreeLen

  class HyFifo {
    const buf: array<byte>
    const size: nat
    var useCnt: nat
    var inn: nat
    var outt: nat
    // The bytes that HyFifoUpdateOut and HyFifoClean took out without telling useCnt.
    ghost var untold: nat

    function Used(): nat
      reads this
      requires inn < SIZE_MOD && outt < SIZE_MOD
    {
      Sub(inn, outt)
    }

    ghost predicate Valid()
      reads this
    {
      && buf.Length == size && IsPow2(size) && 0 < size <= MAX_SIZE
      && inn < SIZE_MOD && outt < SIZE_MOD && Used() <= size
      && useCnt == Add(Used(), untold)
    }

    // The bytes put and not yet taken out, oldest first.
    ghost function Contents(): (c: seq<byte>)
      reads this, buf
      requires Valid()
      ensures |c| == Used()
    {
      Window(buf[..], outt % size, Used())
    }

    // HyFifoCreate.  A request whose lower 32 bits are above 2^31 ends in a buffer of no bytes.
    constructor (request: nat)
      requires request < SIZE_MOD
      ensures fresh(buf) && buf.Length == size && useCnt == inn == outt == untold == 0
      ensures if request % U32_MOD <= MAX_SIZE then Valid() && Contents() == [] else size == 0
      ensures request <= MAX_SIZE ==> request <= size && forall p :: IsPow2(p) && request <= p ==> size <= p
    {
      var n := ChooseSize(request);
      size := n;
      buf := new byte[n](_ => 0);
      useCnt, inn, outt, untold := 0, 0, 0, 0;
    }

    // HyFifoPut
    method Put(data: seq<byte>) returns (len: nat)
      requires Valid() && |data| < SIZE_MOD
      modifies this`inn, this`useCnt, buf
      ensures Valid()
      ensures len == Min(|data|, size - |old(Contents())|)
      ensures Contents() == old(Contents()) + data[..len]
    {
      hide Window, Written, BitAnd, IsPow2, Add, Sub;
      FreeCells(size, inn, outt);
      len := Min(|data|, Add(Sub(size, inn), outt));
      var inIndex := BitAnd(inn, size - 1);
      MaskStep(inn, len, size);
      MaskStep(outt, Used(), size);
      SubBack(inn, outt);
      PutCounters(inn, outt, len, untold);
      CopyIn(buf, inIndex, data[..len]);
      WindowWritten(old(buf[..]), outt % size, old(Used()), data[..len]);
      inn := Add(inn, len);
      useCnt := Add(useCnt, len);
    }

    // _get_data_com: the length is cut to 32 bits on the way in.
    method GetDataCom(dst: array<byte>, length: nat) returns (len: nat)
      requires Valid() && dst != buf && Min(length % U32_MOD, |Contents()|) <= dst.Length
      modifies dst
      ensures len == Min(length % U32_MOD, |Contents()|)
      ensures dst[..] == Contents()[..len] + old(dst[..])[len..]
    {
      hide Window, BitAnd, IsPow2, Add, Sub;
      len := Min(length % U32_MOD, Sub(inn, outt));
      var outIndex := BitAnd(outt, size - 1);
      MaskStep(outt, 0, size);
      WindowSuffix(buf[..], outIndex, Used(), len);
      CopyOut(buf, outIndex, len, dst);
    }

    // HyFifoGet
    method Get(dst: array?<byte>, length: nat) returns (len: nat)
      requires Valid() && dst != buf && (dst != null ==> Min(length % U32_MOD, |Contents()|) <= dst.Length)
      modifies this`outt, this`useCnt, dst
      ensures Valid()
      ensures len == if dst == null then 0 else Min(length % U32_MOD, |old(Contents())|)
      ensures Contents() == old(Contents())[len..]
      ensures dst != null ==> dst[..] == old(Contents())[..len] + old(dst[..])[len..]
    {
      if dst == null || length == 0 {
        return 0;
      }
      hide Window, BitAnd, IsPow2, Add, Sub;
      len := GetDataCom(dst, length);
      TakeOut(len);
      outt := Add(outt, len);
      useCnt := Sub(useCnt, len);
    }

    // HyFifoPeek
    method Peek(dst: array?<byte>, length: nat) returns (len: nat)
      requires Valid() && dst != buf && (dst != null ==> Min(length % U32_MOD, |Contents()|) <= dst.Length)
      modifies dst
      ensures Valid()
      ensures len == if dst == null then 0 else Min(length % U32_MOD, |Contents()|)
      ensures Contents() == old(Contents())
      ensures dst != null ==> dst[..] == Contents()[..len] + old(dst[..])[len..]
    {
      if dst == null || length == 0 {
        return 0;
      }
      hide Window, BitAnd, IsPow2, Add, Sub;
      len := GetDataCom(dst, length);
    }

    // HyFifoUpdateOut.  The bytes dropped pass through a scratch buffer of 1024 bytes.
    method UpdateOut(length: nat) returns (len: nat)
      requires Valid() && Min(length % U32_MOD, |Contents()|) <= 1024
      modifies this`outt, this`untold
      ensures Valid() && untold == old(untold) + len
      ensures len == Min(length % U32_MOD, |old(Contents())|)
      ensures Contents() == old(Contents())[len..]
    {
      hide Window, BitAnd, IsPow2, Add, Sub;
      len := 0;
      if length != 0 {
        TakeOut(Min(length % U32_MOD, |Contents()|));
        hide Min;
        var scratch := new byte[1024];
        len := GetDataCom(scratch, length);
        outt := Add(outt, len);
        untold := untold + len;
      }
    }

    lemma TakeOut(len: nat)
      requires Valid() && len <= |Contents()|
      ensures Add(outt, len) < SIZE_MOD && Sub(inn, Add(outt, len)) == Used() - len
      ensures Window(buf[..], Add(outt, len) % size, Used() - len) == Contents()[len..]
      ensures Sub(useCnt, len) == Add(Used() - len, untold) && useCnt == Add(Used() - len, untold + len)
    {
      hide Window, BitAnd, IsPow2, Add, Sub;
      MaskStep(outt, len, size);
      WindowSuffix(buf[..], outt % size, Used(), len);
      GetCounters(inn, outt, len, untold);
    }

    // HyFifoClean
    method Clean()
      requires Valid()
      modifies this`inn, this`outt, this`untold, buf
      ensures Valid() && Contents() == [] && untold == old(useCnt)
    {
      forall i | 0 <= i < size {
        buf[i] := 0;
      }
      inn, outt := 0, 0;
      untold := useCnt;
    }

    // HyFifoGetInfo
    method GetInfo(kind: InfoType) returns (val: nat)
      requires Valid()
      ensures kind == TotalLen ==> val == size
      ensures kind == UsedLen ==> val == (|Contents()| + untold) % SIZE_MOD
      ensures kind == UsedLen ==> (val == |Contents()| <==> untold % SIZE_MOD == 0)
      ensures kind == FreeLen ==> val < SIZE_MOD && (val + |Contents()| + 2 * outt) % SIZE_MOD == size
      ensures kind == FreeLen ==> (val == size - |Contents()| <==> outt == 0 || outt == SIZE_MOD / 2)
    {
      UsedExact(Used(), untold);
      FreeExact(size, inn, outt);
      FreeValue(size, inn, outt);
      hide Sub;
      match kind {
        case TotalLen => val := size;
        case UsedLen => val := useCnt;
        case FreeLen => val := Sub(size, Add(inn, outt));
      }
    }

    // Peek followed by UpdateOut is Get.
    method PeekThenDrop(dst: array<byte>, length: nat) returns (len: nat)
      requires Valid() && dst != buf && Min(length % U32_MOD, |Contents()|) <= Min(dst.Length, 1024)
      modifies this`outt, this`untold, dst
      ensures Valid()
      ensures len == Min(length % U32_MOD, |old(Contents())|)
      ensures Contents() == old(Contents())[len..]
      ensures dst[..] == old(Contents())[..len] + old(dst[..])[len..]
    {
      hide Window, IsPow2, Add, Sub;
      CutLength(length, |Contents()|);
      hide HyFifo.Valid, HyFifo.Contents;
      len := Peek(dst, length);
      var dropped := UpdateOut(len);
    }
  }

  lemma CutLength(length: nat, used: nat)
    ensures Min(length % U32_MOD, used) % U32_MOD == Min(length % U32_MOD, used)
  {
  }

  // A get or a peek delivers what is asked for and there, exactly if the part of the length
  // that is lost in the cut to 32 bits does not matter.
  lemma CutLengthExactly(length: nat, used: nat)
    requires used <= MAX_SIZE
    ensures Min(length % U32_MOD, used) == Min(length, used) <==> length < U32_MOD || used <= length % U32_MOD
  {
    DivMod(length, U32_MOD);
  }
}
