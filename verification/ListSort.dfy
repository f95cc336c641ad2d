// Sorting a linked list by relinking its nodes, as example/hy_list_test.c does.  Position 0 of
// the ring r is the list head, and position i + 1 the node with index i.
module ListSort {
  import opened Arith
  import opened HyList
  import opened Sort

  // _get_node_ptr; an index beyond the last one runs on around the ring.
  method GetNodePtr(list: ListHead<int>, index: nat, ghost r: seq<ListHead<int>>) returns (tmp: ListHead<int>)
    requires Ring(r) && list == r[0]
    ensures tmp == r[(index + 1) % |r|]
  {
    tmp := list;
    var i := 0;
    while i <= index
      invariant 0 <= i <= index + 1 && tmp == r[i % |r|]
    {
      RingFacts(r, i % |r|);
      NextOnRing(i, |r|);
      tmp := tmp.next;
      i := i + 1;
    }
  }

  lemma NextOnRing(i: nat, n: nat)
    requires n > 0
    ensures (i + 1) % n == Succ(i % n, n)
  {
    ModAdd(i, 1, n);
    if n > 1 {
      ModWrap(i % n, 1, n);
    } else {
      DivMod(i, n);
      DivMod(i + 1, n);
    }
  }

  // list_add_tail in front of a node, and then list_del of that node: x takes its place.
  method TakePlace(x: ListHead<int>, node: ListHead<int>, ghost r: seq<ListHead<int>>, ghost k: nat)
    requires Ring(r) && 0 < k < |r| && node == r[k] && x !in r
    modifies r`next, r`prev, x`next, x`prev
    ensures Ring(r[k := x])
  {
    hide Ring, Distinct, InsertAfter, RemoveAt;
    RingFacts(r, k);
    ListAddTail(x, node, r, k);
    ghost var q := InsertAfter(r, k - 1, [x]);
    InsertThenRemove(r, k, x);
    RingFacts(q, k + 1);
    ListDel(node, q, k + 1);
  }

  lemma InsertThenRemove<X>(r: seq<X>, k: nat, x: X)
    requires 0 < k < |r|
    ensures var q := InsertAfter(r, k - 1, [x]);
            |q| == |r| + 1 && q[k + 1] == r[k] && (forall y <- q :: y in r || y == x)
    ensures RemoveAt(InsertAfter(r, k - 1, [x]), k + 1) == r[k := x]
  {
    var q := InsertAfter(r, k - 1, [x]);
    assert q[..k + 1] == r[..k] + [x];
    assert q[k + 2..] == r[k + 1..];
    assert r[k := x] == r[..k] + [x] + r[k + 1..];
  }

  // _swap_node_prt: exactly the two nodes change places, adjacent or not, in either order.
  method SwapNodePtr(list: ListHead<int>, a: nat, b: nat, ghost r: seq<ListHead<int>>)
    requires Ring(r) && list == r[0] && a != b && a + 1 < |r| && b + 1 < |r|
    modifies r`next, r`prev
    ensures Ring(Swap(r, a + 1, b + 1))
  {
    hide Ring, Distinct;
    RingFacts(r, 0);
    var nodeA := GetNodePtr(list, a, r);
    var nodeB := GetNodePtr(list, b, r);
    var tmp := new ListHead<int>(0);
    SwapFacts(r, a + 1, b + 1, tmp);
    TakePlace(tmp, nodeA, r, a + 1);
    ghost var r2 := r[a + 1 := tmp];
    TakePlace(nodeA, nodeB, r2, b + 1);
    ghost var r4 := r2[b + 1 := nodeA];
    TakePlace(nodeB, tmp, r4, a + 1);
  }

  lemma SwapFacts<X>(r: seq<X>, i: nat, j: nat, x: X)
    requires Distinct(r) && 0 < i < |r| && 0 < j < |r| && i != j && x !in r
    ensures i % |r| == i && j % |r| == j
    ensures var r2 := r[i := x]; var r4 := r2[j := r[i]];
            && r[i] !in r2 && r2[j] == r[j] && r[j] !in r4 && r4[i] == x
            && r4[i := r[j]] == Swap(r, i, j)
            && (forall y :: y in r2 || y in r4 ==> y in r || y == x)
  {
    DivMod(i, |r|);
    DivMod(j, |r|);
  }

  // The ids of the nodes at the indices from low up to high are in order.
  ghost predicate Ascending(r: seq<ListHead<int>>, low: int, high: int)
    requires 0 <= low && high + 1 < |r|
    reads r
  {
    forall i, j :: low < i < j <= high + 1 ==> r[i].entry <= r[j].entry
  }

  // The node with index p separates the smaller ids below it from the greater ones above.
  ghost predicate Parted(r: seq<ListHead<int>>, low: int, p: int, high: int)
    requires 0 <= low <= p <= high && high + 1 < |r|
    reads r
  {
    && (forall k :: low < k <= p ==> r[k].entry <= r[p + 1].entry)
    && (forall k :: p + 1 < k <= high + 1 ==> r[k].entry >= r[p + 1].entry)
  }

  // The nodes of r are on one ring that starts at the list head, and all of them are in nodes.
  ghost predicate OnList(r: seq<ListHead<int>>, list: ListHead<int>, nodes: set<ListHead<int>>)
    reads r
  {
    Ring(r) && r[0] == list && forall x <- r :: x in nodes
  }

  // _get_node_data
  method GetNodeData(list: ListHead<int>, index: nat, ghost r: seq<ListHead<int>>, ghost nodes: set<ListHead<int>>)
    returns (id: int)
    requires OnList(r, list, nodes) && index + 1 < |r|
    ensures id == r[index + 1].entry
  {
    DivMod(index + 1, |r|);
    var tmp := GetNodePtr(list, index, r);
    id := tmp.entry;
  }

  lemma SwapStep<X>(r0: seq<X>, r: seq<X>, i: nat, j: nat, lo: int, hi: int, nodes: set<X>)
    requires Rearranged(r0, r, lo, hi) && 0 <= lo <= i <= j < hi && hi <= |r|
    requires forall x <- r :: x in nodes
    ensures Rearranged(r0, Swap(r, i, j), lo, hi)
    ensures forall x <- Swap(r, i, j) :: x in nodes
  {
    SwapRearranges(r, i, j, lo, hi);
    RearrangedTrans(r0, r, Swap(r, i, j), lo, hi);
    hide Rearranged;
    assert r[i] in r && r[j] in r;
  }

  // A swap within the range that is being sorted; r0 is the ring as it was at first.
  method SwapWithin(list: ListHead<int>, a: int, b: int, ghost low: int, ghost high: int,
                    ghost r0: seq<ListHead<int>>, ghost r: seq<ListHead<int>>, ghost nodes: set<ListHead<int>>)
    returns (ghost q: seq<ListHead<int>>)
    requires OnList(r, list, nodes) && 0 <= low <= a < b <= high && high + 1 < |r|
    requires Rearranged(r0, r, low + 1, high + 2)
    modifies nodes`next, nodes`prev
    ensures OnList(q, list, nodes) && q == Swap(r, a + 1, b + 1) && Rearranged(r0, q, low + 1, high + 2)
  {
    hide Ring, Rearranged;
    q := Swap(r, a + 1, b + 1);
    SwapStep(r0, r, a + 1, b + 1, low + 1, high + 2, nodes);
    SwapNodePtr(list, a, b, r);
  }

  // The two inner loops of _get_partition.
  method ScanDown(list: ListHead<int>, low: int, high0: int, pivot: int, ghost q: seq<ListHead<int>>,
                  ghost nodes: set<ListHead<int>>)
    returns (high: int)
    requires OnList(q, list, nodes) && 0 <= low <= high0 && high0 + 1 < |q|
    ensures low <= high <= high0 && forall k :: high + 1 < k <= high0 + 1 ==> q[k].entry >= pivot
    ensures high == low || q[high + 1].entry < pivot
  {
    hide OnList;
    high := high0;
    var id := GetNodeData(list, high, q, nodes);
    while low < high && id >= pivot
      invariant low <= high <= high0 && id == q[high + 1].entry
      invariant forall k :: high + 1 < k <= high0 + 1 ==> q[k].entry >= pivot
    {
      high := high - 1;
      id := GetNodeData(list, high, q, nodes);
    }
  }

  method ScanUp(list: ListHead<int>, low0: int, high: int, pivot: int, ghost q: seq<ListHead<int>>,
                ghost nodes: set<ListHead<int>>)
    returns (low: int)
    requires OnList(q, list, nodes) && 0 <= low0 <= high && high + 1 < |q|
    ensures low0 <= low <= high && forall k :: low0 < k <= low ==> q[k].entry <= pivot
    ensures low == high || q[low + 1].entry > pivot
  {
    hide OnList;
    low := low0;
    var id := GetNodeData(list, low, q, nodes);
    while low < high && id <= pivot
      invariant low0 <= low <= high && id == q[low + 1].entry
      invariant forall k :: low0 < k <= low ==> q[k].entry <= pivot
    {
      low := low + 1;
      id := GetNodeData(list, low, q, nodes);
    }
  }

  // _get_partition
  method GetPartition(list: ListHead<int>, low0: int, high0: int,
                      ghost r: seq<ListHead<int>>, ghost nodes: set<ListHead<int>>)
    returns (low: int, ghost q: seq<ListHead<int>>)
    requires OnList(r, list, nodes) && 0 <= low0 < high0 && high0 + 1 < |r|
    modifies nodes`next, nodes`prev
    ensures OnList(q, list, nodes) && |q| == |r| && Rearranged(r, q, low0 + 1, high0 + 2)
    ensures low0 <= low <= high0 && Parted(q, low0, low, high0)
  {
    hide OnList, Rearranged;
    SameRearranged(r, low0 + 1, high0 + 2);
    low := low0;
    q := r;
    var high := high0;
    var pivot := GetNodeData(list, low, q, nodes);
    while low < high
      invariant low0 <= low <= high <= high0 && |q| == |r|
      invariant OnList(q, list, nodes) && Rearranged(r, q, low0 + 1, high0 + 2)
      invariant q[low + 1].entry == pivot
      invariant forall k :: low0 < k <= low ==> q[k].entry <= pivot
      invariant forall k :: high + 1 < k <= high0 + 1 ==> q[k].entry >= pivot
      decreases high - low
    {
      high := ScanDown(list, low, high, pivot, q, nodes);
      if low != high {
        q := SwapWithin(list, low, high, low0, high0, r, q, nodes);
      }
      low := ScanUp(list, low, high, pivot, q, nodes);
      if low != high {
        q := SwapWithin(list, low, high, low0, high0, r, q, nodes);
      }
    }
  }

  // The parts on either side of index p, sorted, stay on their sides of the node that parts them.
  lemma PartsKeepSides(s1: seq<ListHead<int>>, s2: seq<ListHead<int>>, s3: seq<ListHead<int>>,
                       low: int, p: int, high: int)
    requires 0 <= low <= p <= high && high + 1 < |s1| && Parted(s1, low, p, high)
    requires Rearranged(s1, s2, low + 1, p + 1) && Rearranged(s2, s3, p + 2, high + 2)
    ensures |s3| == |s2| == |s1| && Parted(s3, low, p, high)
    ensures forall k :: low < k <= p ==> s3[k] == s2[k]
  {
    RearrangedKeeps(s1, s2, low + 1, p + 1);
    RearrangedKeeps(s2, s3, p + 2, high + 2);
    hide Rearranged;
    assert s3[p + 1] == s1[p + 1];
    forall k | low < k <= p
      ensures s3[k] == s2[k] && s3[k].entry <= s3[p + 1].entry
    {
      var i :| 0 <= i < p - low && s1[low + 1..p + 1][i] == s2[k];
      assert s1[low + 1 + i] == s2[k];
    }
    forall k | p + 1 < k <= high + 1
      ensures s3[k].entry >= s3[p + 1].entry
    {
      var i :| 0 <= i < high - p && s2[p + 2..high + 2][i] == s3[k];
      assert s2[p + 2 + i] == s3[k] && s2[p + 2 + i] == s1[p + 2 + i];
    }
  }

  lemma SortedAroundNode(s1: seq<ListHead<int>>, s2: seq<ListHead<int>>, s3: seq<ListHead<int>>,
                         low: int, p: int, high: int)
    requires 0 <= low <= p <= high && high + 1 < |s1| == |s2| == |s3| && Parted(s1, low, p, high)
    requires Rearranged(s1, s2, low + 1, p + 1) && Rearranged(s2, s3, p + 2, high + 2)
    requires Ascending(s2, low, p - 1) && Ascending(s3, p + 1, high)
    ensures Ascending(s3, low, high)
  {
    PartsKeepSides(s1, s2, s3, low, p, high);
    hide Rearranged;
  }

  lemma RearrangedInSteps(s: seq<ListHead<int>>, s1: seq<ListHead<int>>, s2: seq<ListHead<int>>, s3: seq<ListHead<int>>,
                          low: int, p: int, high: int)
    requires 0 <= low <= p <= high && high + 1 < |s|
    requires Rearranged(s, s1, low + 1, high + 2)
    requires Rearranged(s1, s2, low + 1, p + 1) && Rearranged(s2, s3, p + 2, high + 2)
    ensures Rearranged(s, s3, low + 1, high + 2)
  {
    RearrangedKeeps(s, s1, low + 1, high + 2);
    RearrangedKeeps(s1, s2, low + 1, p + 1);
    hide Rearranged;
    RearrangedWiden(s1, s2, low + 1, p + 1, low + 1, high + 2);
    RearrangedWiden(s2, s3, p + 2, high + 2, low + 1, high + 2);
    RearrangedTrans(s, s1, s2, low + 1, high + 2);
    RearrangedTrans(s, s2, s3, low + 1, high + 2);
  }

  // _sort: the nodes from index low up to high are relinked in the order of their ids, and the
  // others stay where they are.
  method SortNodes(list: ListHead<int>, low: int, high: int,
                   ghost r: seq<ListHead<int>>, ghost nodes: set<ListHead<int>>)
    returns (ghost q: seq<ListHead<int>>)
    requires OnList(r, list, nodes) && 0 <= low && low <= high + 1 < |r|
    modifies nodes`next, nodes`prev
    ensures OnList(q, list, nodes) && Rearranged(r, q, low + 1, high + 2)
    ensures |q| == |r| && Ascending(q, low, high)
    decreases high - low
  {
    hide OnList, Rearranged;
    SameRearranged(r, low + 1, high + 2);
    q := r;
    if low < high {
      var p;
      ghost var q1, q2;
      p, q1 := GetPartition(list, low, high, r, nodes);
      q2 := SortNodes(list, low, p - 1, q1, nodes);
      q := SortNodes(list, p + 1, high, q2, nodes);
      SortedAroundNode(q1, q2, q, low, p, high);
      RearrangedInSteps(r, q1, q2, q, low, p, high);
    }
  }
}
