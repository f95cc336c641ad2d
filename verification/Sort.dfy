// The in-place sorts of src/hy_sort.c for any comparison function that is a total preorder.
module Sort {

  ghost predicate TotalPreorder<T(!new)>(cmp: (T, T) -> int) {
    && (forall x, y :: cmp(x, y) < 0 <==> cmp(y, x) > 0)
    && (forall x, y, z :: cmp(x, y) <= 0 && cmp(y, z) <= 0 ==> cmp(x, z) <= 0)
  }

  ghost predicate Sorted<T>(s: seq<T>, cmp: (T, T) -> int) {
    forall i, j :: 0 <= i < j < |s| ==> cmp(s[i], s[j]) <= 0
  }

  // t is s with the elements from lo up to hi in another order.
  ghost predicate Rearranged<T>(s: seq<T>, t: seq<T>, lo: int, hi: int) {
    && 0 <= lo <= hi <= |s| == |t|
    && t[..lo] == s[..lo] && t[hi..] == s[hi..]
    && multiset(t[lo..hi]) == multiset(s[lo..hi])
  }

  function Swap<T>(s: seq<T>, i: nat, j: nat): seq<T>
    requires i < |s| && j < |s|
  {
    s[i := s[j]][j := s[i]]
  }

  lemma SwapMultiset<T>(s: seq<T>, i: nat, j: nat)
    requires i < |s| && j < |s|
    ensures multiset(Swap(s, i, j)) == multiset(s)
  {
  }

  lemma SwapRearranges<T>(s: seq<T>, i: nat, j: nat, lo: nat, hi: nat)
    requires lo <= i <= j < hi <= |s|
    ensures Rearranged(s, Swap(s, i, j), lo, hi)
  {
    assert Swap(s, i, j)[lo..hi] == Swap(s[lo..hi], i - lo, j - lo);
    SwapMultiset(s[lo..hi], i - lo, j - lo);
  }

  lemma RearrangedTrans<T>(s: seq<T>, t: seq<T>, u: seq<T>, lo: int, hi: int)
    requires Rearranged(s, t, lo, hi) && Rearranged(t, u, lo, hi)
    ensures Rearranged(s, u, lo, hi)
  {
  }

  lemma RearrangedWiden<T>(s: seq<T>, t: seq<T>, lo: int, hi: int, a: int, b: int)
    requires Rearranged(s, t, lo, hi) && 0 <= a <= lo && hi <= b <= |s|
    ensures Rearranged(s, t, a, b)
  {
    assert s[a..b] == s[a..lo] + s[lo..hi] + s[hi..b];
    assert t[a..b] == t[a..lo] + t[lo..hi] + t[hi..b];
    assert s[a..lo] == s[..lo][a..] == t[..lo][a..] == t[a..lo];
    assert s[hi..b] == s[hi..][..b - hi] == t[hi..][..b - hi] == t[hi..b];
    assert t[..a] == t[..lo][..a] == s[..lo][..a] == s[..a];
    assert t[b..] == t[hi..][b - hi..] == s[hi..][b - hi..] == s[b..];
  }

  // ---- Quick sort -------------------------------------------------------------------------

  // _partition: tmp keeps the pivot, which sits at low whenever the outer loop starts over.
  method Partition<T>(a: array<T>, low0: int, high0: int, cmp: (T, T) -> int) returns (low: int)
    requires 0 <= low0 < high0 < a.Length
    modifies a
    ensures low0 <= low <= high0 && Rearranged(old(a[..]), a[..], low0, high0 + 1)
    ensures forall k :: low0 <= k < low ==> cmp(a[k], a[low]) <= 0
    ensures forall k :: low < k <= high0 ==> cmp(a[k], a[low]) >= 0
  {
    ghost var s := a[..];
    assert Rearranged(s, a[..], low0, high0 + 1);
    hide Rearranged;
    low := low0;
    var high := high0;
    var tmp := a[low];
    while low < high
      invariant low0 <= low <= high <= high0 && a[low] == tmp
      invariant forall k :: low0 <= k < low ==> cmp(a[k], tmp) <= 0
      invariant forall k :: high < k <= high0 ==> cmp(a[k], tmp) >= 0
      invariant Rearranged(s, a[..], low0, high0 + 1)
      decreases high - low
    {
      ghost var gap := high - low;
      while low < high && cmp(a[high], tmp) >= 0
        invariant low <= high <= high0 && high - low <= gap
        invariant forall k :: high < k <= high0 ==> cmp(a[k], tmp) >= 0
      {
        high := high - 1;
      }
      ghost var stuck := high - low == gap;
      Exchange(a, low, high, low0, high0, s);
      while low < high && cmp(a[low], tmp) <= 0
        invariant low0 <= low <= high && a[high] == tmp && high - low <= gap
        invariant stuck && high - low == gap ==> cmp(a[low], tmp) <= 0
        invariant forall k :: low0 <= k < low ==> cmp(a[k], tmp) <= 0
      {
        low := low + 1;
      }
      Exchange(a, low, high, low0, high0, s);
    }
    label done:
    a[low] := tmp;
    assert a[..] == old@done(a[..]);
  }

  // _mem_swap of the elements at i and j, within the range that is being sorted.
  method Exchange<T>(a: array<T>, i: int, j: int, ghost lo: int, ghost hi: int, ghost s: seq<T>)
    requires 0 <= lo <= i <= j <= hi < a.Length
    requires Rearranged(s, a[..], lo, hi + 1)
    modifies a
    ensures a[i] == old(a[j]) && a[j] == old(a[i])
    ensures forall k :: 0 <= k < a.Length && k != i && k != j ==> a[k] == old(a[k])
    ensures Rearranged(s, a[..], lo, hi + 1)
  {
    SwapRearranges(a[..], i, j, lo, hi + 1);
    var tmp := a[j];
    a[j] := a[i];
    a[i] := tmp;
    assert a[..] == Swap(old(a[..]), i, j);
  }

  // HySortQuick
  method HySortQuick<T(!new)>(a: array<T>, low: int, high: int, cmp: (T, T) -> int)
    requires TotalPreorder(cmp)
    requires 0 <= low && -1 <= high < a.Length && low <= high + 1
    modifies a
    ensures Rearranged(old(a[..]), a[..], low, high + 1)
    ensures Sorted(a[low..high + 1], cmp)
    decreases high - low
  {
    hide TotalPreorder, Rearranged, Sorted;
    ghost var s := a[..];
    SameRearranged(s, low, high + 1);
    if low < high {
      var p := Partition(a, low, high, cmp);
      ghost var s1, x := a[..], a[p];
      HySortQuick(a, low, p - 1, cmp);
      ghost var s2 := a[..];
      HySortQuick(a, p + 1, high, cmp);
      Joined(s, s1, s2, a[..], low, p, high, cmp);
    } else {
      ShortIsSorted(a[low..high + 1], cmp);
    }
  }

  lemma SameRearranged<T>(s: seq<T>, lo: int, hi: int)
    requires 0 <= lo <= hi <= |s|
    ensures Rearranged(s, s, lo, hi)
  {
  }

  lemma ShortIsSorted<T>(s: seq<T>, cmp: (T, T) -> int)
    requires |s| <= 1
    ensures Sorted(s, cmp)
  {
  }

  lemma RearrangedKeeps<T>(s: seq<T>, t: seq<T>, lo: int, hi: int)
    requires Rearranged(s, t, lo, hi)
    ensures 0 <= lo <= hi <= |t| == |s|
    ensures forall k :: lo <= k < hi ==> t[k] in s[lo..hi]
    ensures forall k :: 0 <= k < lo || hi <= k < |s| ==> t[k] == s[k]
  {
    forall k | lo <= k < hi
      ensures t[k] in s[lo..hi]
    {
      assert t[k] == t[lo..hi][k - lo];
      assert t[k] in multiset(t[lo..hi]);
    }
    forall k | 0 <= k < lo || hi <= k < |s|
      ensures t[k] == s[k]
    {
      if k < lo {
        assert t[k] == t[..lo][k] == s[..lo][k];
      } else {
        assert t[k] == t[hi..][k - hi] == s[hi..][k - hi];
      }
    }
  }

  // What became of the elements when the parts on either side of p were sorted.
  lemma PartsStayApart<T>(s1: seq<T>, s2: seq<T>, s3: seq<T>, low: int, p: int, high: int, cmp: (T, T) -> int)
    requires 0 <= low <= p <= high < |s1|
    requires Rearranged(s1, s2, low, p) && Rearranged(s2, s3, p + 1, high + 1)
    requires forall k :: low <= k < p ==> cmp(s1[k], s1[p]) <= 0
    requires forall k :: p < k <= high ==> cmp(s1[k], s1[p]) >= 0
    ensures |s3| == |s2| == |s1| && s3[low..p] == s2[low..p] && s3[p] == s1[p]
    ensures forall k :: low <= k < p ==> cmp(s3[k], s1[p]) <= 0
    ensures forall k :: p < k <= high ==> cmp(s3[k], s1[p]) >= 0
  {
    hide Rearranged;
    RearrangedKeeps(s1, s2, low, p);
    RearrangedKeeps(s2, s3, p + 1, high + 1);
    assert s2[p + 1..high + 1] == s1[p + 1..high + 1];
    assert s3[low..p] == s2[low..p];
    forall x | x in s1[low..p]
      ensures cmp(x, s1[p]) <= 0
    {
      var k :| 0 <= k < p - low && s1[low..p][k] == x;
      assert x == s1[low + k];
    }
    forall x | x in s1[p + 1..high + 1]
      ensures cmp(x, s1[p]) >= 0
    {
      var k :| 0 <= k < high - p && s1[p + 1..high + 1][k] == x;
      assert x == s1[p + 1 + k];
    }
  }

  // Two sorted parts around an element that separates them are one sorted sequence.
  lemma SortedAround<T(!new)>(s: seq<T>, low: int, p: int, high: int, cmp: (T, T) -> int)
    requires TotalPreorder(cmp) && 0 <= low <= p <= high < |s|
    requires Sorted(s[low..p], cmp) && Sorted(s[p + 1..high + 1], cmp)
    requires forall k :: low <= k < p ==> cmp(s[k], s[p]) <= 0
    requires forall k :: p < k <= high ==> cmp(s[k], s[p]) >= 0
    ensures Sorted(s[low..high + 1], cmp)
  {
    forall i, j | low <= i < j <= high
      ensures cmp(s[i], s[j]) <= 0
    {
      if j < p {
        assert s[i] == s[low..p][i - low] && s[j] == s[low..p][j - low];
      } else if i > p {
        assert s[i] == s[p + 1..high + 1][i - p - 1] && s[j] == s[p + 1..high + 1][j - p - 1];
      } else if i < p < j {
        assert cmp(s[i], s[p]) <= 0 && cmp(s[p], s[j]) <= 0;
      }
    }
  }

  // Partitioned around position p, and then sorted on either side of it, the range is sorted.
  lemma Joined<T(!new)>(s: seq<T>, s1: seq<T>, s2: seq<T>, s3: seq<T>, low: int, p: int, high: int, cmp: (T, T) -> int)
    requires TotalPreorder(cmp) && 0 <= low <= p <= high < |s|
    requires Rearranged(s, s1, low, high + 1) && Rearranged(s1, s2, low, p) && Rearranged(s2, s3, p + 1, high + 1)
    requires forall k :: low <= k < p ==> cmp(s1[k], s1[p]) <= 0
    requires forall k :: p < k <= high ==> cmp(s1[k], s1[p]) >= 0
    requires Sorted(s2[low..p], cmp) && Sorted(s3[p + 1..high + 1], cmp)
    ensures Rearranged(s, s3, low, high + 1) && Sorted(s3[low..high + 1], cmp)
  {
    hide Rearranged, Sorted, TotalPreorder;
    RearrangedKeeps(s, s1, low, high + 1);
    RearrangedKeeps(s1, s2, low, p);
    RearrangedWiden(s1, s2, low, p, low, high + 1);
    RearrangedWiden(s2, s3, p + 1, high + 1, low, high + 1);
    RearrangedTrans(s, s1, s2, low, high + 1);
    RearrangedTrans(s, s2, s3, low, high + 1);
    PartsStayApart(s1, s2, s3, low, p, high, cmp);
    SortedAround(s3, low, p, high, cmp);
  }

  // ---- Bubble sort ------------------------------------------------------------------------

  // The elements that compare equal to x, in their order of appearance.
  ghost function Class<T>(s: seq<T>, x: T, cmp: (T, T) -> int): seq<T> {
    if s == [] then []
    else
      Class(s[..|s| - 1], x, cmp) + if cmp(s[|s| - 1], x) == 0 then [s[|s| - 1]] else []
  }

  // t has the elements of s, and those that compare equal are in the order they had in s.
  ghost predicate StableOf<T(!new)>(s: seq<T>, t: seq<T>, cmp: (T, T) -> int) {
    multiset(s) == multiset(t) && forall x :: Class(t, x, cmp) == Class(s, x, cmp)
  }

  lemma {:induction false} ClassOfSum<T>(s: seq<T>, t: seq<T>, x: T, cmp: (T, T) -> int)
    ensures Class(s + t, x, cmp) == Class(s, x, cmp) + Class(t, x, cmp)
  {
    if t == [] {
      assert s + t == s;
    } else {
      assert (s + t)[..|s + t| - 1] == s + t[..|t| - 1];
      ClassOfSum(s, t[..|t| - 1], x, cmp);
    }
  }

  lemma ClassOfPair<T>(u: T, v: T, x: T, cmp: (T, T) -> int)
    ensures Class([u, v], x, cmp) == (if cmp(u, x) == 0 then [u] else []) + (if cmp(v, x) == 0 then [v] else [])
  {
    assert [u, v][..1] == [u] && [u][..0] == [];
    assert Class([u], x, cmp) == if cmp(u, x) == 0 then [u] else [];
  }

  lemma ClassOfSwap<T(!new)>(s: seq<T>, j: nat, x: T, cmp: (T, T) -> int)
    requires TotalPreorder(cmp) && j + 1 < |s| && cmp(s[j], s[j + 1]) > 0
    ensures Class(Swap(s, j, j + 1), x, cmp) == Class(s, x, cmp)
  {
    hide TotalPreorder;
    var u, v := s[j], s[j + 1];
    EqualsOf(u, v, x, cmp);
    assert s == s[..j] + [u, v] + s[j + 2..];
    assert Swap(s, j, j + 1) == s[..j] + [v, u] + s[j + 2..];
    hide Class, Swap;
    ClassOfThree(s[..j], [u, v], s[j + 2..], x, cmp);
    ClassOfThree(s[..j], [v, u], s[j + 2..], x, cmp);
    ClassOfPair(u, v, x, cmp);
    ClassOfPair(v, u, x, cmp);
  }

  lemma ClassOfThree<T>(s: seq<T>, t: seq<T>, r: seq<T>, x: T, cmp: (T, T) -> int)
    ensures Class(s + t + r, x, cmp) == Class(s, x, cmp) + Class(t, x, cmp) + Class(r, x, cmp)
  {
    ClassOfSum(s + t, r, x, cmp);
    ClassOfSum(s, t, x, cmp);
  }

  lemma EqualsOf<T(!new)>(u: T, v: T, x: T, cmp: (T, T) -> int)
    requires TotalPreorder(cmp)
    ensures cmp(u, u) == 0 && (cmp(u, v) == 0 <==> cmp(v, u) == 0)
    ensures cmp(u, x) == 0 && cmp(v, x) == 0 ==> cmp(u, v) == 0
    ensures cmp(u, v) <= 0 || cmp(v, u) <= 0
  {
  }

  lemma SwapIsStable<T(!new)>(s: seq<T>, t: seq<T>, j: nat, cmp: (T, T) -> int)
    requires TotalPreorder(cmp) && j + 1 < |t| && cmp(t[j], t[j + 1]) > 0 && StableOf(s, t, cmp)
    ensures StableOf(s, Swap(t, j, j + 1), cmp)
  {
    hide TotalPreorder;
    SwapMultiset(t, j, j + 1);
    forall x
      ensures Class(Swap(t, j, j + 1), x, cmp) == Class(s, x, cmp)
    {
      ClassOfSwap(t, j, x, cmp);
    }
  }

  lemma {:induction false} InClass<T(!new)>(s: seq<T>, k: nat, cmp: (T, T) -> int)
    requires TotalPreorder(cmp) && k < |s|
    ensures s[k] in Class(s, s[k], cmp)
  {
    hide TotalPreorder;
    EqualsOf(s[k], s[k], s[k], cmp);
    if k < |s| - 1 {
      InClass(s[..|s| - 1], k, cmp);
    }
  }

  lemma {:induction false} OnlyFromClass<T>(s: seq<T>, x: T, y: T, cmp: (T, T) -> int)
    requires y in Class(s, x, cmp)
    ensures y in s
  {
    if y in Class(s[..|s| - 1], x, cmp) {
      OnlyFromClass(s[..|s| - 1], x, y, cmp);
    }
  }

  lemma NoneAboveLast<T(!new)>(t: seq<T>, k: nat, cmp: (T, T) -> int)
    requires TotalPreorder(cmp) && Sorted(t, cmp) && k < |t|
    ensures cmp(t[k], t[|t| - 1]) <= 0
  {
    hide TotalPreorder;
    EqualsOf(t[k], t[k], t[k], cmp);
  }

  // What the last element of one sequence says about the last element of the other.
  lemma LastIsLeast<T(!new)>(s: seq<T>, t: seq<T>, cmp: (T, T) -> int)
    requires TotalPreorder(cmp) && Sorted(t, cmp) && s != []
    requires forall x :: Class(s, x, cmp) == Class(t, x, cmp)
    ensures t != [] && cmp(s[|s| - 1], t[|t| - 1]) <= 0
  {
    hide TotalPreorder, Class, Sorted;
    var u := s[|s| - 1];
    InClass(s, |s| - 1, cmp);
    OnlyFromClass(t, u, u, cmp);
    var k :| 0 <= k < |t| && t[k] == u;
    NoneAboveLast(t, k, cmp);
  }

  lemma LastOfClass<T>(s: seq<T>, x: T, cmp: (T, T) -> int)
    requires s != []
    ensures Class(s, x, cmp) == Class(s[..|s| - 1], x, cmp) + if cmp(s[|s| - 1], x) == 0 then [s[|s| - 1]] else []
  {
  }

  lemma CutsFromSorted<T>(s: seq<T>, cmp: (T, T) -> int)
    requires Sorted(s, cmp) && s != []
    ensures Sorted(s[..|s| - 1], cmp)
  {
  }

  // The last elements of two sorted sequences with the same classes are the same.
  lemma SameLast<T(!new)>(s: seq<T>, t: seq<T>, cmp: (T, T) -> int)
    requires TotalPreorder(cmp) && Sorted(s, cmp) && Sorted(t, cmp) && s != []
    requires forall x :: Class(s, x, cmp) == Class(t, x, cmp)
    ensures t != [] && s[|s| - 1] == t[|t| - 1]
  {
    LastIsLeast(s, t, cmp);
    LastIsLeast(t, s, cmp);
    var u, v := s[|s| - 1], t[|t| - 1];
    assert cmp(u, v) == 0;
    hide TotalPreorder, Sorted, Class;
    EqualsOf(u, v, u, cmp);
    LastOfClass(s, u, cmp);
    LastOfClass(t, u, cmp);
    assert Class(s, u, cmp)[|Class(s, u, cmp)| - 1] == u;
    assert Class(t, u, cmp)[|Class(t, u, cmp)| - 1] == v;
  }

  // A stable sort has one result: being sorted and keeping each class in order determine it.
  lemma {:induction false} StableSortIsUnique<T(!new)>(s: seq<T>, t: seq<T>, cmp: (T, T) -> int)
    requires TotalPreorder(cmp) && Sorted(s, cmp) && Sorted(t, cmp)
    requires forall x :: Class(s, x, cmp) == Class(t, x, cmp)
    ensures s == t
  {
    hide TotalPreorder, Sorted, Class;
    if s != [] {
      SameLast(s, t, cmp);
      var s1, t1 := s[..|s| - 1], t[..|t| - 1];
      forall x
        ensures Class(s1, x, cmp) == Class(t1, x, cmp)
      {
        LastOfClass(s, x, cmp);
        LastOfClass(t, x, cmp);
        assert Class(s1, x, cmp) == Class(s, x, cmp)[..|Class(s1, x, cmp)|];
        assert Class(t1, x, cmp) == Class(t, x, cmp)[..|Class(t1, x, cmp)|];
      }
      CutsFromSorted(s, cmp);
      CutsFromSorted(t, cmp);
      StableSortIsUnique(s1, t1, cmp);
      assert s == s1 + [s[|s| - 1]] && t == t1 + [t[|t| - 1]];
    } else if t != [] {
      SameLast(t, s, cmp);
    }
  }

  // HySortBubble. The loop variables are 32 bits wide, the length is not.
  method HySortBubble<T(!new)>(a: array<T>, cmp: (T, T) -> int)
    requires TotalPreorder(cmp) && a.Length < 0x1_0000_0000
    modifies a
    ensures Sorted(a[..], cmp) && StableOf(old(a[..]), a[..], cmp)
  {
    hide TotalPreorder, StableOf;
    ghost var s := a[..];
    StableItself(s, cmp);
    var len, i := a.Length, 0;
    while i < len
      invariant 0 <= i <= len
      invariant Settled(a[..], len - i, cmp)
      invariant StableOf(s, a[..], cmp)
    {
      var j := 0;
      while j + 1 < len - i
        invariant 0 <= j < len - i
        invariant forall k :: 0 <= k < j ==> cmp(a[k], a[j]) <= 0
        invariant Settled(a[..], len - i, cmp)
        invariant StableOf(s, a[..], cmp)
      {
        BubbleStep(a, j, len - i, cmp, s);
        j := j + 1;
      }
      assert Settled(a[..], len - i - 1, cmp);
      i := i + 1;
    }
    assert Sorted(a[..], cmp);
  }

  lemma StableItself<T(!new)>(s: seq<T>, cmp: (T, T) -> int)
    ensures StableOf(s, s, cmp)
  {
  }

  // From position m on every element is in its place.
  ghost predicate Settled<T>(s: seq<T>, m: int, cmp: (T, T) -> int) {
    forall k, l :: 0 <= k < l < |s| && m <= l ==> cmp(s[k], s[l]) <= 0
  }

  lemma Through<T(!new)>(x: T, y: T, z: T, cmp: (T, T) -> int)
    requires TotalPreorder(cmp) && cmp(x, y) <= 0 && cmp(y, z) <= 0
    ensures cmp(x, z) <= 0
  {
  }

  // The body of the inner loop.
  method BubbleStep<T(!new)>(a: array<T>, j: int, ghost m: int, cmp: (T, T) -> int, ghost s: seq<T>)
    requires TotalPreorder(cmp) && 0 <= j && j + 1 < m <= a.Length
    requires Settled(a[..], m, cmp) && StableOf(s, a[..], cmp)
    requires forall k :: 0 <= k < j ==> cmp(a[k], a[j]) <= 0
    modifies a
    ensures Settled(a[..], m, cmp) && StableOf(s, a[..], cmp)
    ensures forall k :: 0 <= k < j + 1 ==> cmp(a[k], a[j + 1]) <= 0
  {
    hide Settled, StableOf;
    ghost var u, v := a[j], a[j + 1];
    if cmp(a[j], a[j + 1]) > 0 {
      SwapIsStable(s, a[..], j, cmp);
      SwapStaysSettled(a[..], j, m, cmp);
      var tmp := a[j + 1];
      a[j + 1] := a[j];
      a[j] := tmp;
      assert a[..] == Swap(old(a[..]), j, j + 1);
      assert cmp(v, u) <= 0;
    } else {
      hide TotalPreorder;
      forall k | 0 <= k < j
        ensures cmp(a[k], v) <= 0
      {
        Through(a[k], u, v, cmp);
      }
    }
  }

  lemma SwapStaysSettled<T>(s: seq<T>, j: int, m: int, cmp: (T, T) -> int)
    requires 0 <= j && j + 1 < m <= |s| && Settled(s, m, cmp)
    ensures Settled(Swap(s, j, j + 1), m, cmp)
  {
  }
}
