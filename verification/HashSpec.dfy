// The hash functions of src/utils_hash.c, and its table as lists of items and as a map.
module HashSpec {
  import opened Basics
  import opened Bits
  import opened HyList

  // The plain char of the target, which is signed.
  type SChar = x: int | -128 <= x < 128

  const HALF := 0x8000_0000
  const SEED := 31
  const FACTOR := 1103515245

  // ---- UtilsHashGenerate ----------------------------------------------------------------------

  function Power(b: int, n: nat): int {
    if n == 0 then 1 else b * Power(b, n - 1)
  }

  // The polynomial in SEED whose coefficients are the characters, the first one leading.
  function Polynomial(key: seq<SChar>): int {
    if key == [] then 0 else key[0] * Power(SEED, |key| - 1) + Polynomial(key[1..])
  }

  function KeyHash(key: seq<SChar>): (h: nat)
    ensures h < U32_MOD
  {
    Polynomial(key) % U32_MOD
  }

  lemma {:induction false} PolynomialStep(key: seq<SChar>, c: SChar)
    ensures Polynomial(key + [c]) == Polynomial(key) * SEED + c
  {
    if key == [] {
      assert Polynomial([c]) == c * Power(SEED, 0) + Polynomial([c][1..]);
    } else {
      assert (key + [c])[1..] == key[1..] + [c];
      PolynomialStep(key[1..], c);
      var p := Power(SEED, |key| - 1);
      assert Power(SEED, |key|) == SEED * p;
      assert key[0] * (SEED * p) == key[0] * p * SEED;
    }
  }

  lemma HornerStep(key: seq<SChar>, c: SChar)
    ensures (KeyHash(key) * SEED + c) % U32_MOD == KeyHash(key + [c])
  {
    PolynomialStep(key, c);
    hide Polynomial;
    var p := Polynomial(key);
    AddLaps(p % U32_MOD * SEED + c, p / U32_MOD * SEED);
  }

  lemma AddLaps(x: int, k: int)
    ensures (x + k * U32_MOD) % U32_MOD == x % U32_MOD
  {
  }

  // The hash of a longer key, in the constants of the code.
  lemma HashOfMore(key: seq<SChar>, c: SChar)
    ensures KeyHash([]) == 0 && KeyHash(key + [c]) == (KeyHash(key) * 31 + c) % 0x1_0000_0000
  {
    HornerStep(key, c);
    hide Polynomial;
    assert KeyHash([]) == 0 by {
      NoPolynomial();
    }
  }

  lemma NoPolynomial()
    ensures Polynomial([]) == 0
  {
  }

  // The Horner loop in 32-bit arithmetic computes the polynomial modulo 2^32.
  method UtilsHashGenerate(key: seq<SChar>) returns (hash: nat)
    ensures hash == KeyHash(key)
  {
    hash := 0;
    var i := 0;
    while i < |key|
      invariant 0 <= i <= |key| && hash == KeyHash(key[..i])
    {
      HornerStep(key[..i], key[i]);
      assert key[..i + 1] == key[..i] + [key[i]];
      hash := (hash * SEED + key[i]) % U32_MOD;
      i := i + 1;
    }
    assert key[..|key|] == key;
  }

  // ---- _key_to_index ----------------------------------------------------------------------------

  // The value of a 32-bit signed integer after an overflow has wrapped around.
  function Wrap(x: int): (w: int)
    ensures -HALF <= w < HALF
  {
    (x + HALF) % U32_MOD - HALF
  }

  lemma WrapProduct(a: int, b: int)
    ensures Wrap(Wrap(a) * b) == Wrap(a * b)
  {
    var k := (a + HALF) / U32_MOD;
    assert a == Wrap(a) + k * U32_MOD;
    assert a * b == Wrap(a) * b + k * b * U32_MOD;
    WrapPeriod(Wrap(a) * b, k * b);
  }

  lemma WrapPeriod(x: int, k: int)
    ensures Wrap(x + k * U32_MOD) == Wrap(x)
  {
  }

  // The first character times FACTOR plus each of the others.
  function Product(key: seq<SChar>): int {
    if key == [] then 0
    else if |key| == 1 then key[0]
    else Product(key[..|key| - 1]) * (FACTOR + key[|key| - 1])
  }

  // The bucket that the five leading bits choose, as a signed number.
  function Bucket(top: int, bucketMaxLen: nat): (i: nat)
    requires bucketMaxLen > 0
    ensures i < bucketMaxLen
  {
    BitAndBelow(top % U32_MOD, bucketMaxLen - 1);
    BitAnd(top % U32_MOD, bucketMaxLen - 1)
  }

  function KeyIndex(key: seq<SChar>, bucketMaxLen: nat): (i: nat)
    requires bucketMaxLen > 0
    ensures i < bucketMaxLen
  {
    Bucket(Wrap(Product(key)) / 0x800_0000, bucketMaxLen)
  }

  lemma TopIsSmall(key: seq<SChar>, bucketMaxLen: nat)
    requires bucketMaxLen > 0
    ensures exists j :: -16 <= j < 16 && KeyIndex(key, bucketMaxLen) == Bucket(j, bucketMaxLen)
  {
    var top := Wrap(Product(key)) / 0x800_0000;
    assert -16 <= top < 16 && KeyIndex(key, bucketMaxLen) == Bucket(top, bucketMaxLen);
  }

  // The buckets of the first m values the leading bits can have.
  function FirstBuckets(bucketMaxLen: nat, m: nat): (b: set<nat>)
    requires bucketMaxLen > 0
    ensures |b| <= m && forall j :: -16 <= j < m - 16 ==> Bucket(j, bucketMaxLen) in b
  {
    if m == 0 then {} else FirstBuckets(bucketMaxLen, m - 1) + {Bucket(m - 17, bucketMaxLen)}
  }

  lemma {:induction false} SubsetIsSmaller(a: set<nat>, b: set<nat>)
    requires a <= b
    ensures |a| <= |b|
  {
    if a != {} {
      var x :| x in a;
      SubsetIsSmaller(a - {x}, b - {x});
    }
  }

  // However many buckets there are and however many keys, no more than 32 buckets are ever used.
  lemma UsesFewBuckets(keys: set<seq<SChar>>, bucketMaxLen: nat)
    requires bucketMaxLen > 0
    ensures |set key <- keys :: KeyIndex(key, bucketMaxLen)| <= 32
  {
    var used := set key <- keys :: KeyIndex(key, bucketMaxLen);
    forall i | i in used
      ensures i in FirstBuckets(bucketMaxLen, 32)
    {
      var key :| key in keys && i == KeyIndex(key, bucketMaxLen);
      TopIsSmall(key, bucketMaxLen);
    }
    SubsetIsSmaller(used, FirstBuckets(bucketMaxLen, 32));
  }

  // The product for a longer key, in the constants of the code.
  lemma ProductOfMore(key: seq<SChar>, c: SChar)
    ensures Product(key + [c]) == if key == [] then c else Product(key) * (1103515245 + c)
  {
    assert (key + [c])[..|key|] == key;
  }

  // The index is the five leading bits of the 32-bit product, extended by their sign to 32 bits, under
  // the mask.
  lemma IndexIsTopBits(key: seq<SChar>, bucketMaxLen: nat)
    requires bucketMaxLen > 0
    ensures var top := Product(key) % 0x1_0000_0000 / 0x800_0000;
            && top < 32
            && KeyIndex(key, bucketMaxLen)
               == BitAnd(if top < 16 then top else top + 0xffff_ffe0, bucketMaxLen - 1)
  {
    hide BitAnd, Wrap, Product;
    WrapIs(Product(key));
    TopOfWrapped(Product(key) % U32_MOD, Wrap(Product(key)));
  }

  lemma WrapIs(x: int)
    ensures Wrap(x) == if x % U32_MOD < HALF then x % U32_MOD else x % U32_MOD - U32_MOD
  {
    var u, k := x % U32_MOD, x / U32_MOD;
    assert x == u + k * U32_MOD;
    WrapPeriod(u, k);
  }

  lemma TopOfWrapped(u: nat, w: int)
    requires u < U32_MOD && w == if u < HALF then u else u - U32_MOD
    ensures var top := u / 0x800_0000;
            top < 32 && w / 0x800_0000 % U32_MOD == if top < 16 then top else top + 0xffff_ffe0
  {
  }

  method KeyToIndex(bucketMaxLen: nat, key: seq<SChar>) returns (index: nat)
    requires 0 < bucketMaxLen < HALF
    ensures index == KeyIndex(key, bucketMaxLen)
  {
    var value := if key == [] then 0 else key[0];
    var i := 1;
    while i < |key|
      invariant i >= 1 && (i <= |key| || i == 1)
      invariant value == Wrap(Product(if i <= |key| then key[..i] else key))
    {
      assert key[..i + 1][..i] == key[..i];
      WrapProduct(Product(key[..i]), FACTOR + key[i]);
      value := Wrap(value * (FACTOR + key[i]));
      i := i + 1;
    }
    assert i <= |key| ==> key[..i] == key;
    value := value / 0x800_0000;
    index := BitAnd(value % U32_MOD, bucketMaxLen - 1);
  }

  // ---- A bucket as a list of items ----------------------------------------------------------------

  datatype Item = Item(keyHash: nat, val: string)

  function Find(items: seq<Item>, hash: nat): (k: nat)
    ensures k <= |items| && forall j :: 0 <= j < k ==> items[j].keyHash != hash
    ensures k < |items| ==> items[k].keyHash == hash
  {
    if items == [] || items[0].keyHash == hash then 0 else
      var k := Find(items[1..], hash);
      assert forall j :: 0 < j < |items| ==> items[j] == items[1..][j - 1];
      1 + k
  }

  function AddTo(items: seq<Item>, hash: nat, val: string): seq<Item> {
    var k := Find(items, hash);
    if k < |items| then items[k := Item(hash, val)] else [Item(hash, val)] + items
  }

  function DelFrom(items: seq<Item>, hash: nat): seq<Item> {
    var k := Find(items, hash);
    if k < |items| then RemoveAt(items, k) else items
  }

  function Lookup(items: seq<Item>, hash: nat): Option<string> {
    var k := Find(items, hash);
    if k < |items| then Some(items[k].val) else None
  }

  lemma FoundOrNot(items: seq<Item>, hash: nat, val: string)
    ensures Lookup(items, hash).None? <==> Find(items, hash) == |items|
    ensures Lookup(items, hash).None? ==> AddTo(items, hash, val) == [Item(hash, val)] + items
  {
  }

  // No two items of a bucket have the same hash.
  ghost predicate OneEach(items: seq<Item>) {
    forall i, j :: 0 <= i < j < |items| ==> items[i].keyHash != items[j].keyHash
  }

  lemma FoundAt(items: seq<Item>, hash: nat, k: nat)
    requires OneEach(items) && k < |items| && items[k].keyHash == hash
    ensures Find(items, hash) == k
  {
  }

  // ---- A table of buckets, and the map it stands for ------------------------------------------------

  // A key is known to the table by its bucket and its hash only.
  datatype Id = Id(index: nat, hash: nat)

  function IdOf(key: seq<SChar>, n: nat): (id: Id)
    requires n > 0
    ensures id.index < n
  {
    Id(KeyIndex(key, n), KeyHash(key))
  }

  ghost predicate ValidTable(t: seq<seq<Item>>) {
    |t| > 0 && forall i :: 0 <= i < |t| ==> OneEach(t[i])
  }

  // The map from ids to values.
  function Value(t: seq<seq<Item>>, id: Id): Option<string> {
    if id.index < |t| then Lookup(t[id.index], id.hash) else None
  }

  // UtilsHashItemAdd as it is written: for a hash that is in the bucket the value is copied to a
  // null pointer, and then nothing is defined any more.
  function AddWritten(t: seq<seq<Item>>, id: Id, val: string): (u: Option<seq<seq<Item>>>)
    requires id.index < |t|
    ensures u.Some? ==> |u.value| == |t|
  {
    var c := t[id.index];
    if Find(c, id.hash) < |c| then None else Some(t[id.index := [Item(id.hash, val)] + c])
  }

  // Adding, as it is meant, sets one id of the map.  The code as it is written does the same if
  // the id is not in the map, and otherwise is not defined.
  lemma AddRefinesMap(t: seq<seq<Item>>, id: Id, val: string, other: Id)
    requires ValidTable(t) && id.index < |t|
    ensures var u := t[id.index := AddTo(t[id.index], id.hash, val)];
            && ValidTable(u)
            && Value(u, other) == (if other == id then Some(val) else Value(t, other))
            && AddWritten(t, id, val) == if Value(t, id).None? then Some(u) else None
  {
    var c := t[id.index];
    var d := AddTo(c, id.hash, val);
    AddKeepsOneEach(c, id.hash, val);
    if other.index == id.index {
      AddLooksUp(c, id.hash, val, other.hash);
    }
  }

  lemma AddKeepsOneEach(items: seq<Item>, hash: nat, val: string)
    requires OneEach(items)
    ensures OneEach(AddTo(items, hash, val))
  {
  }

  lemma AddLooksUp(items: seq<Item>, hash: nat, val: string, other: nat)
    requires OneEach(items)
    ensures Lookup(AddTo(items, hash, val), other) == if other == hash then Some(val) else Lookup(items, other)
  {
    AddKeepsOneEach(items, hash, val);
    var d, k, j := AddTo(items, hash, val), Find(items, hash), Find(items, other);
    if k < |items| {
      FoundAt(d, hash, k);
      if j < |items| {
        FoundAt(d, other, j);
      }
    } else {
      FoundAt(d, hash, 0);
      if j < |items| {
        FoundAt(d, other, j + 1);
      }
    }
  }

  lemma DelRefinesMap(t: seq<seq<Item>>, id: Id, other: Id)
    requires ValidTable(t) && id.index < |t|
    ensures var u := t[id.index := DelFrom(t[id.index], id.hash)];
            && ValidTable(u)
            && Value(u, other) == if other == id then None else Value(t, other)
  {
    if other.index == id.index {
      DelLooksUp(t[id.index], id.hash, other.hash);
    }
  }

  lemma DelKeepsOneEach(items: seq<Item>, hash: nat)
    requires OneEach(items)
    ensures OneEach(DelFrom(items, hash))
  {
    hide Find;
  }

  lemma DelLooksUp(items: seq<Item>, hash: nat, other: nat)
    requires OneEach(items)
    ensures OneEach(DelFrom(items, hash))
    ensures Lookup(DelFrom(items, hash), other) == if other == hash then None else Lookup(items, other)
  {
    var d, k, j := DelFrom(items, hash), Find(items, hash), Find(items, other);
    DelKeepsOneEach(items, hash);
    hide Find, OneEach;
    if k < |items| && j < |items| && j != k {
      FoundAt(d, other, After(k, j));
    } else if k < |items| && Find(d, other) < |d| {
      DelFindsNothing(items, hash, other);
    }
  }

  lemma DelFindsNothing(items: seq<Item>, hash: nat, other: nat)
    requires OneEach(items) && Find(items, hash) < |items|
    requires other == hash || Find(items, other) == |items|
    ensures Find(DelFrom(items, hash), other) == |DelFrom(items, hash)|
  {
    var d, k := DelFrom(items, hash), Find(items, hash);
    forall i | 0 <= i < |d|
      ensures d[i].keyHash != other
    {
      assert d[i] == items[if i < k then i else i + 1];
    }
  }

  // ---- Histories --------------------------------------------------------------------------------

  datatype Event = Add(key: seq<SChar>, val: string) | Del(key: seq<SChar>)

  // UtilsHashItemAdd and UtilsHashItemDel
  function Apply(t: seq<seq<Item>>, ev: Event): (u: seq<seq<Item>>)
    requires |t| > 0
    ensures |u| == |t|
  {
    var id := IdOf(ev.key, |t|);
    match ev
    case Add(_, val) => t[id.index := AddTo(t[id.index], id.hash, val)]
    case Del(_) => t[id.index := DelFrom(t[id.index], id.hash)]
  }

  function Exec(t: seq<seq<Item>>, run: seq<Event>): (u: seq<seq<Item>>)
    requires |t| > 0
    ensures |u| == |t|
  {
    if run == [] then t else Apply(Exec(t, run[..|run| - 1]), run[|run| - 1])
  }

  // The events as the code is written.
  function ExecWritten(t: seq<seq<Item>>, run: seq<Event>): (u: Option<seq<seq<Item>>>)
    requires |t| > 0
    ensures u.Some? ==> |u.value| == |t|
  {
    if run == [] then Some(t)
    else
      match ExecWritten(t, run[..|run| - 1])
      case None => None
      case Some(u) =>
        var ev := run[|run| - 1];
        if ev.Add? then AddWritten(u, IdOf(ev.key, |u|), ev.val) else Some(Apply(u, ev))
  }

  // The value of the last Add for the id that no Del for it follows.
  function LastAdded(run: seq<Event>, id: Id, n: nat): Option<string>
    requires n > 0
  {
    if run == [] then None
    else
      var ev := run[|run| - 1];
      if IdOf(ev.key, n) != id then LastAdded(run[..|run| - 1], id, n)
      else if ev.Add? then Some(ev.val)
      else None
  }

  // No Add of the run is for an id that an earlier one has added and none deleted since.
  predicate AddsAreNew(run: seq<Event>, n: nat)
    requires n > 0
  {
    forall k :: 0 <= k < |run| && run[k].Add? ==> LastAdded(run[..k], IdOf(run[k].key, n), n).None?
  }

  // After any history from the empty table, with a replacement as it is meant, Get finds exactly
  // the value last added and not deleted since; operations on keys with another id do not matter.
  lemma {:induction false} MeantIsLastAdded(n: nat, run: seq<Event>, id: Id)
    requires n > 0
    ensures ValidTable(Exec(seq(n, _ => []), run))
    ensures Value(Exec(seq(n, _ => []), run), id) == LastAdded(run, id, n)
  {
    var empty: seq<seq<Item>> := seq(n, _ => []);
    if run != [] {
      var t, ev := Exec(empty, run[..|run| - 1]), run[|run| - 1];
      MeantIsLastAdded(n, run[..|run| - 1], id);
      hide AddTo, DelFrom, Value, ValidTable, KeyIndex, KeyHash;
      match ev
      case Add(key, val) => AddRefinesMap(t, IdOf(key, n), val, id);
      case Del(key) => DelRefinesMap(t, IdOf(key, n), id);
    }
  }

  lemma NewUpToLast(run: seq<Event>, n: nat)
    requires n > 0 && run != []
    ensures var front, ev := run[..|run| - 1], run[|run| - 1];
            AddsAreNew(run, n) <==>
              AddsAreNew(front, n) && (ev.Add? ==> LastAdded(front, IdOf(ev.key, n), n).None?)
  {
    var front := run[..|run| - 1];
    hide LastAdded, IdOf;
    assert forall k :: 0 <= k < |front| ==> front[k] == run[k] && front[..k] == run[..k];
  }

  // The code as it is written has defined all of a history exactly if every Add in it is for an id
  // that Get does not find at that point, and then it does what is meant.
  lemma {:induction false} WrittenExactly(n: nat, run: seq<Event>)
    requires n > 0
    ensures ExecWritten(seq(n, _ => []), run)
            == if AddsAreNew(run, n) then Some(Exec(seq(n, _ => []), run)) else None
  {
    var empty: seq<seq<Item>> := seq(n, _ => []);
    if run != [] {
      var front, ev := run[..|run| - 1], run[|run| - 1];
      WrittenExactly(n, front);
      NewUpToLast(run, n);
      var t, id := Exec(empty, front), IdOf(ev.key, n);
      MeantIsLastAdded(n, front, id);
      hide AddsAreNew, LastAdded, AddTo, DelFrom, Value, ValidTable, KeyIndex, KeyHash, AddWritten;
      if ev.Add? {
        AddRefinesMap(t, id, ev.val, id);
      }
    }
  }

  // So after any history Get finds exactly the value last added and not deleted since, if no Add
  // was for an id that Get would have found; and otherwise nothing is defined.
  lemma GetIsLastAdded(n: nat, run: seq<Event>, id: Id)
    requires n > 0
    ensures var t := ExecWritten(seq(n, _ => []), run);
            && (t.Some? <==> AddsAreNew(run, n))
            && (t.Some? ==> ValidTable(t.value) && Value(t.value, id) == LastAdded(run, id, n))
  {
    hide ExecWritten, AddsAreNew;
    WrittenExactly(n, run);
    MeantIsLastAdded(n, run, id);
  }

  // The simplest history that is not defined: a value is to be replaced.
  lemma ReplaceIsNotDefined(n: nat, key: seq<SChar>, val: string, other: string)
    requires n > 0
    ensures ExecWritten(seq(n, _ => []), [Add(key, val), Add(key, other)]) == None
  {
    var run := [Add(key, val), Add(key, other)];
    WrittenExactly(n, run);
    hide IdOf, ExecWritten, Exec;
    assert run[..1] == [Add(key, val)];
    assert LastAdded(run[..1], IdOf(run[1].key, n), n) == Some(val);
  }

  const KEY1: seq<SChar> := [107, 101, 121, 49]

  lemma HashOfKey1()
    ensures KeyHash(KEY1) == 3288498
  {
    var k1: seq<SChar>, k2: seq<SChar>, k3: seq<SChar> := [107], [107, 101], [107, 101, 121];
    assert [] + [107] == k1 && k1 + [101] == k2 && k2 + [121] == k3 && k3 + [49] == KEY1;
    hide KeyHash, KEY1;
    HashOfMore([], 107);
    HashOfMore(k1, 101);
    HashOfMore(k2, 121);
    HashOfMore(k3, 49);
  }

  lemma ProductOfKey1()
    ensures Product(KEY1) == 143786759507394595078973935288
  {
    var k1: seq<SChar>, k2: seq<SChar>, k3: seq<SChar> := [107], [107, 101], [107, 101, 121];
    assert [] + [107] == k1 && k1 + [101] == k2 && k2 + [121] == k3 && k3 + [49] == KEY1;
    hide Product, KEY1;
    ProductOfMore([], 107);
    ProductOfMore(k1, 101);
    ProductOfMore(k2, 121);
    ProductOfMore(k3, 49);
  }

  // The key "key1" has bucket 6 of 16.
  lemma IndexOfKey1()
    ensures KeyIndex(KEY1, 16) == 6
  {
    hide KeyIndex, Product, BitAnd, KEY1;
    ProductOfKey1();
    assert 143786759507394595078973935288 % 0x1_0000_0000 == 2982661816;
    IndexIsTopBits(KEY1, 16);
    MaskIsMod(22 + 0xffff_ffe0, 4);
    assert Pow2(4) == 16;
  }
}
