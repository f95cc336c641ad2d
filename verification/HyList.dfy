// The intrusive circular doubly linked list of include/hy_list.h.
//
// A node carries the rest of the structure it is embedded in as `entry`, so that
// `list_entry(node)` is `node.entry`.  A list is a ring of nodes; the ghost sequence of the
// nodes in `next` order, starting at any of them (usually the head), describes it.
module HyList {

  class ListHead<T> {
    var next: ListHead?<T>
    var prev: ListHead?<T>
    var entry: T

    // INIT_LIST_HEAD on a node just allocated.
    constructor (e: T)
      ensures next == this && prev == this && entry == e
    {
      next, prev, entry := this, this, e;
    }
  }

  ghost predicate Distinct<X>(s: seq<X>) {
    forall i, j :: 0 <= i < j < |s| ==> s[i] != s[j]
  }

  ghost predicate Disjoint<X>(r: seq<X>, s: seq<X>) {
    forall x <- r :: x !in s
  }

  // Consecutive nodes of s are linked to each other.
  ghost predicate Linked<T>(s: seq<ListHead<T>>)
    reads s
  {
    && (forall i {:trigger s[i].next} :: 0 <= i < |s| - 1 ==> s[i].next == s[i + 1])
    && (forall i {:trigger s[i].prev} :: 0 < i < |s| ==> s[i].prev == s[i - 1])
  }

  // The nodes of r, in order, are linked into one ring; next and prev are mutually inverse.
  ghost predicate Ring<T>(r: seq<ListHead<T>>)
    reads r
  {
    |r| > 0 && Distinct(r) && Linked(r) && r[|r| - 1].next == r[0] && r[0].prev == r[|r| - 1]
  }

  // The positions next to position i on a ring of n nodes.
  function Succ(i: nat, n: nat): (s: nat)
    requires i < n
    ensures s < n
  {
    if i + 1 < n then i + 1 else 0
  }

  function Pred(i: nat, n: nat): (p: nat)
    requires i < n
    ensures p < n && Succ(p, n) == i
  {
    if i == 0 then n - 1 else i - 1
  }

  // The sequence s with the sequence t put in behind position k, and s without position k.
  function InsertAfter<X>(s: seq<X>, k: nat, t: seq<X>): seq<X>
    requires k < |s|
  {
    s[..k + 1] + t + s[k + 1..]
  }

  function RemoveAt<X>(s: seq<X>, k: nat): seq<X>
    requires k < |s|
  {
    s[..k] + s[k + 1..]
  }

  // Where position j of s is found in RemoveAt(s, i).
  function After(i: nat, j: nat): nat {
    if j <= i then j else j - 1
  }

  lemma RemoveAtFacts<X>(s: seq<X>, k: nat)
    requires k < |s| && Distinct(s)
    ensures Distinct(RemoveAt(s, k)) && |RemoveAt(s, k)| == |s| - 1
    ensures s[k] !in RemoveAt(s, k)
    ensures forall x <- RemoveAt(s, k) :: x in s
  {
  }

  lemma RemoveAtIndex<X>(s: seq<X>, k: nat, j: nat)
    requires k < |s| && j < |s| && j != k
    ensures After(k, j) < |RemoveAt(s, k)| && RemoveAt(s, k)[After(k, j)] == s[j]
  {
  }

  lemma InsertAfterFacts<X>(s: seq<X>, k: nat, t: seq<X>)
    requires k < |s| && Distinct(s) && Distinct(t) && Disjoint(t, s)
    ensures Distinct(InsertAfter(s, k, t))
    ensures forall i, j :: 0 <= i < |t| && 0 <= j < |s| ==> t[i] != s[j]
    ensures forall x :: x in InsertAfter(s, k, t) <==> x in s || x in t
  {
    assert s == s[..k + 1] + s[k + 1..];
    assert forall i :: 0 <= i < |t| ==> t[i] in t;
  }

  // Where everything stands afterwards.
  lemma InsertAfterIndex<X>(s: seq<X>, k: nat, t: seq<X>)
    requires k < |s|
    ensures var r := InsertAfter(s, k, t);
            && |r| == |s| + |t|
            && (forall i :: 0 <= i <= k ==> r[i] == s[i]) && (forall i :: 0 <= i < |t| ==> r[k + 1 + i] == t[i])
            && forall i :: k < i < |s| ==> r[|t| + i] == s[i]
  {
  }

  // What a user of Ring needs to know without looking into it.
  lemma RingFacts<T>(r: seq<ListHead<T>>, k: nat)
    requires Ring(r) && k < |r|
    ensures Distinct(r)
    ensures r[k].next == r[Succ(k, |r|)] && r[k].prev == r[Pred(k, |r|)]
    ensures r[k].next in r && r[k].prev in r
  {
  }

  twostate lemma RingFrame<T>(r: seq<ListHead<T>>)
    requires old(Ring(r))
    requires forall x <- r :: x.next == old(x.next) && x.prev == old(x.prev)
    ensures Ring(r)
  {
    assert forall i :: 0 <= i < |r| ==> r[i] in r;
  }

  // INIT_LIST_HEAD
  method InitListHead<T>(list: ListHead<T>)
    modifies list`next, list`prev
    ensures Ring([list])
  {
    list.next := list;
    list.prev := list;
  }

  // __list_add
  method AddBetween<T>(node: ListHead<T>, prev: ListHead<T>, next: ListHead<T>, ghost r: seq<ListHead<T>>, ghost k: nat)
    requires Ring(r) && k < |r| && prev == r[k] && next == r[Succ(k, |r|)]
    requires node !in r
    modifies node`next, node`prev, prev`next, next`prev
    ensures Ring(InsertAfter(r, k, [node]))
  {
    next.prev := node;
    node.next := next;
    node.prev := prev;
    prev.next := node;
    ghost var q := InsertAfter(r, k, [node]);
    InsertAfterFacts(r, k, [node]);
    forall i | 0 <= i < |q| - 1
      ensures q[i].next == q[i + 1] && q[i + 1].prev == q[i]
    {
      if i < k {
        assert q[i] == r[i] && q[i + 1] == r[i + 1];
      } else if k + 1 < i {
        assert q[i] == r[i - 1] && q[i + 1] == r[i];
      }
    }
  }

  // list_add
  method ListAdd<T>(node: ListHead<T>, head: ListHead<T>, ghost r: seq<ListHead<T>>, ghost k: nat)
    requires Ring(r) && k < |r| && head == r[k] && node !in r
    modifies node`next, node`prev, head`next, head.next`prev
    ensures Ring(InsertAfter(r, k, [node]))
  {
    AddBetween(node, head, head.next, r, k);
  }

  // list_add_tail
  method ListAddTail<T>(node: ListHead<T>, head: ListHead<T>, ghost r: seq<ListHead<T>>, ghost k: nat)
    requires Ring(r) && k < |r| && head == r[k] && node !in r
    modifies node`next, node`prev, head`prev, head.prev`next
    ensures Ring(InsertAfter(r, Pred(k, |r|), [node]))
  {
    AddBetween(node, head.prev, head, r, Pred(k, |r|));
  }

  // __list_del_entry
  method DelEntry<T>(node: ListHead<T>, ghost r: seq<ListHead<T>>, ghost k: nat)
    requires Ring(r) && k < |r| && node == r[k]
    modifies node.prev`next, node.next`prev
    ensures |r| > 1 ==> Ring(RemoveAt(r, k)) && node.next == old(node.next) && node.prev == old(node.prev)
  {
    var prev, next := node.prev, node.next;
    RingFacts(r, k);
    RemoveAtFacts(r, k);
    next.prev := prev;
    prev.next := next;
    ghost var q := RemoveAt(r, k);
    if |r| > 1 {
      forall i | 0 <= i < |q| - 1
        ensures q[i].next == q[i + 1] && q[i + 1].prev == q[i]
      {
        assert q[i] == (if i < k then r[i] else r[i + 1]) && q[i + 1] == if i + 1 < k then r[i + 1] else r[i + 2];
      }
      assert q[0] == (if k == 0 then r[1] else r[0]) && q[|q| - 1] == r[if k == |q| then |q| - 1 else |q|];
    }
  }

  // list_del; null stands for the two poison values.
  method ListDel<T>(node: ListHead<T>, ghost r: seq<ListHead<T>>, ghost k: nat)
    requires Ring(r) && k < |r| && node == r[k]
    modifies node`next, node`prev, node.prev`next, node.next`prev
    ensures |r| > 1 ==> Ring(RemoveAt(r, k))
    ensures node.next == null && node.prev == null
  {
    DelEntry(node, r, k);
    node.next := null;
    node.prev := null;
  }

  // list_del_init
  method ListDelInit<T>(node: ListHead<T>, ghost r: seq<ListHead<T>>, ghost k: nat)
    requires Ring(r) && k < |r| && node == r[k]
    modifies node`next, node`prev, node.prev`next, node.next`prev
    ensures |r| > 1 ==> Ring(RemoveAt(r, k))
    ensures Ring([node])
  {
    DelEntry(node, r, k);
    InitListHead(node);
  }

  // list_replace: node takes the place of out, also where out is alone on its ring.
  method ListReplace<T>(out: ListHead<T>, node: ListHead<T>, ghost r: seq<ListHead<T>>, ghost k: nat)
    requires Ring(r) && k < |r| && out == r[k] && node !in r
    modifies node`next, node`prev, out.next`prev, out.prev`next
    ensures Ring(r[k := node])
    ensures |r| > 1 ==> out.next == old(out.next) && out.prev == old(out.prev)
  {
    node.next := out.next;
    node.next.prev := node;
    node.prev := out.prev;
    node.prev.next := node;
  }

  // list_replace_init
  method ListReplaceInit<T>(out: ListHead<T>, node: ListHead<T>, ghost r: seq<ListHead<T>>, ghost k: nat)
    requires Ring(r) && k < |r| && out == r[k] && node !in r
    modifies node`next, node`prev, out`next, out`prev, out.next`prev, out.prev`next
    ensures Ring(r[k := node]) && Ring([out])
  {
    ListReplace(out, node, r, k);
    InitListHead(out);
  }

  // list_move: node r[i] goes behind the node s[j] of the same ring or of another one.
  method ListMove<T>(node: ListHead<T>, head: ListHead<T>, ghost r: seq<ListHead<T>>, ghost i: nat,
                     ghost s: seq<ListHead<T>>, ghost j: nat)
    requires Ring(r) && Ring(s) && i < |r| && j < |s| && node == r[i] && head == s[j] && node != head
    requires r == s || Disjoint(r, s)
    modifies node`next, node`prev, node.prev`next, node.next`prev, head`next, head.next`prev
    ensures r == s ==> Ring(InsertAfter(RemoveAt(r, i), After(i, j), [node]))
    ensures r != s ==> Ring(InsertAfter(s, j, [node])) && (|r| > 1 ==> Ring(RemoveAt(r, i)))
  {
    hide Ring, RemoveAt, InsertAfter, Distinct;
    RingFacts(r, i);
    RingFacts(s, j);
    RemoveAtFacts(r, i);
    DelEntry(node, r, i);
    ghost var q, k := RemoveAt(r, i), After(i, j);
    if r == s {
      RemoveAtIndex(r, i, j);
      RemoveAtIndex(r, i, if Succ(j, |r|) != i then Succ(j, |r|) else Succ(i, |r|));
    } else {
      RingFrame(s);
      q, k := s, j;
    }
    RingFacts(q, k);
    assert head.next == old(head.next) || head.next == old(node.next);
    label removed:
    ListAdd(node, head, q, k);
    if r != s && |r| > 1 {
      RingFrame@removed(RemoveAt(r, i));
    }
  }

  // list_move_tail: as list_move, but in front of s[j].
  method ListMoveTail<T>(node: ListHead<T>, head: ListHead<T>, ghost r: seq<ListHead<T>>, ghost i: nat,
                         ghost s: seq<ListHead<T>>, ghost j: nat)
    requires Ring(r) && Ring(s) && i < |r| && j < |s| && node == r[i] && head == s[j] && node != head
    requires r == s || Disjoint(r, s)
    modifies node`next, node`prev, node.prev`next, node.next`prev, head`prev, head.prev`next
    ensures r == s ==> Ring(InsertAfter(RemoveAt(r, i), Pred(After(i, j), |r| - 1), [node]))
    ensures r != s ==> Ring(InsertAfter(s, Pred(j, |s|), [node])) && (|r| > 1 ==> Ring(RemoveAt(r, i)))
  {
    hide Ring, RemoveAt, InsertAfter, Distinct;
    RingFacts(r, i);
    RingFacts(s, j);
    RemoveAtFacts(r, i);
    DelEntry(node, r, i);
    ghost var q, k := RemoveAt(r, i), After(i, j);
    if r == s {
      RemoveAtIndex(r, i, j);
      RemoveAtIndex(r, i, if Pred(j, |r|) != i then Pred(j, |r|) else Pred(i, |r|));
    } else {
      RingFrame(s);
      q, k := s, j;
    }
    RingFacts(q, k);
    assert head.prev == old(head.prev) || head.prev == old(node.prev);
    label removed:
    ListAddTail(node, head, q, k);
    if r != s && |r| > 1 {
      RingFrame@removed(RemoveAt(r, i));
    }
  }

  // list_empty, list_is_last and list_is_singular say what they say of the ring.
  method ListEmpty<T>(head: ListHead<T>, ghost r: seq<ListHead<T>>) returns (b: bool)
    requires Ring(r) && head == r[0]
    ensures b <==> r == [head]
  {
    b := head.next == head;
  }

  method ListIsLast<T>(node: ListHead<T>, head: ListHead<T>, ghost r: seq<ListHead<T>>, ghost k: nat) returns (b: bool)
    requires Ring(r) && head == r[0] && k < |r| && node == r[k]
    ensures b <==> k == |r| - 1
  {
    b := node.next == head;
  }

  method ListIsSingular<T>(head: ListHead<T>, ghost r: seq<ListHead<T>>) returns (b: bool)
    requires Ring(r) && head == r[0]
    ensures b <==> |r| == 2
  {
    var e := ListEmpty(head, r);
    b := !e && head.next == head.prev;
  }

  // list_rotate_left: the first entry becomes the last one.
  method ListRotateLeft<T>(head: ListHead<T>, ghost r: seq<ListHead<T>>)
    requires Ring(r) && head == r[0]
    modifies r
    ensures Ring(if |r| == 1 then r else [head] + r[2..] + [r[1]])
  {
    var e := ListEmpty(head, r);
    if !e {
      ListMoveTail(head.next, head, r, 1, r, 0);
      assert InsertAfter(RemoveAt(r, 1), Pred(After(1, 0), |r| - 1), [r[1]]) == [head] + r[2..] + [r[1]];
    }
  }

  // __list_splice: the entries of the list l go between r[k] and the node behind it; the
  // head l[0] stays outside and keeps its two pointers.
  method SpliceBetween<T>(list: ListHead<T>, prev: ListHead<T>, next: ListHead<T>,
                          ghost l: seq<ListHead<T>>, ghost r: seq<ListHead<T>>, ghost k: nat)
    requires Ring(l) && Ring(r) && Disjoint(l, r) && |l| > 1 && list == l[0]
    requires k < |r| && prev == r[k] && next == r[Succ(k, |r|)]
    modifies list.next`prev, prev`next, list.prev`next, next`prev
    ensures Ring(InsertAfter(r, k, l[1..]))
  {
    var first, last := list.next, list.prev;
    first.prev := prev;
    prev.next := first;
    last.next := next;
    next.prev := last;
    ghost var q := InsertAfter(r, k, l[1..]);
    InsertAfterFacts(r, k, l[1..]);
    forall i | 0 <= i < |q| - 1
      ensures q[i].next == q[i + 1] && q[i + 1].prev == q[i]
    {
      if i < k {
        assert q[i] == r[i] && q[i + 1] == r[i + 1];
      } else if k < i < k + |l| - 1 {
        assert q[i] == l[i - k] && q[i + 1] == l[i - k + 1];
      } else if k + |l| <= i {
        assert q[i] == r[i + 1 - |l|] && q[i + 1] == r[i + 2 - |l|];
      }
    }
  }

  // list_splice: the entries of l go behind the node r[k].
  method ListSplice<T>(list: ListHead<T>, head: ListHead<T>,
                       ghost l: seq<ListHead<T>>, ghost r: seq<ListHead<T>>, ghost k: nat)
    requires Ring(l) && Ring(r) && Disjoint(l, r) && list == l[0] && k < |r| && head == r[k]
    modifies list.next`prev, head`next, list.prev`next, head.next`prev
    ensures Ring(InsertAfter(r, k, l[1..]))
  {
    var e := ListEmpty(list, l);
    if !e {
      SpliceBetween(list, head, head.next, l, r, k);
    } else {
      assert InsertAfter(r, k, l[1..]) == r;
    }
  }

  // list_splice_tail: the entries of l go in front of the node r[k].
  method ListSpliceTail<T>(list: ListHead<T>, head: ListHead<T>,
                           ghost l: seq<ListHead<T>>, ghost r: seq<ListHead<T>>, ghost k: nat)
    requires Ring(l) && Ring(r) && Disjoint(l, r) && list == l[0] && k < |r| && head == r[k]
    modifies list.next`prev, head`prev, list.prev`next, head.prev`next
    ensures Ring(InsertAfter(r, Pred(k, |r|), l[1..]))
  {
    var e := ListEmpty(list, l);
    if !e {
      SpliceBetween(list, head.prev, head, l, r, Pred(k, |r|));
    } else {
      assert InsertAfter(r, Pred(k, |r|), l[1..]) == r;
    }
  }

  lemma NotSpliced<X>(l: seq<X>, r: seq<X>, k: nat)
    requires Distinct(l) && Distinct(r) && Disjoint(l, r) && l != [] && k < |r|
    ensures l[0] !in InsertAfter(r, k, l[1..])
    ensures |l| == 1 ==> InsertAfter(r, k, l[1..]) == r
  {
    assert l == [l[0]] + l[1..];
    InsertAfterFacts(r, k, l[1..]);
    assert forall i :: 0 <= i < |l[1..]| ==> l[1..][i] == l[i + 1] != l[0];
  }

  // list_splice_init and list_splice_tail_init leave an empty list behind.
  method ListSpliceInit<T>(list: ListHead<T>, head: ListHead<T>,
                           ghost l: seq<ListHead<T>>, ghost r: seq<ListHead<T>>, ghost k: nat)
    requires Ring(l) && Ring(r) && Disjoint(l, r) && list == l[0] && k < |r| && head == r[k]
    modifies list`next, list`prev, list.next`prev, head`next, list.prev`next, head.next`prev
    ensures Ring(InsertAfter(r, k, l[1..])) && Ring([list])
  {
    NotSpliced(l, r, k);
    RingFacts(r, k);
    hide Ring, Distinct, InsertAfter, Disjoint;
    var e := ListEmpty(list, l);
    if !e {
      SpliceBetween(list, head, head.next, l, r, k);
      ghost var q := InsertAfter(r, k, l[1..]);
      label spliced:
      InitListHead(list);
      RingFrame@spliced(q);
    } else {
      assert l == [list] && InsertAfter(r, k, l[1..]) == r;
    }
  }

  method ListSpliceTailInit<T>(list: ListHead<T>, head: ListHead<T>,
                               ghost l: seq<ListHead<T>>, ghost r: seq<ListHead<T>>, ghost k: nat)
    requires Ring(l) && Ring(r) && Disjoint(l, r) && list == l[0] && k < |r| && head == r[k]
    modifies list`next, list`prev, list.next`prev, head`prev, list.prev`next, head.prev`next
    ensures Ring(InsertAfter(r, Pred(k, |r|), l[1..])) && Ring([list])
  {
    ghost var p := Pred(k, |r|);
    NotSpliced(l, r, p);
    RingFacts(r, k);
    hide Ring, Distinct, InsertAfter, Disjoint;
    var e := ListEmpty(list, l);
    if !e {
      SpliceBetween(list, head.prev, head, l, r, p);
      ghost var q := InsertAfter(r, p, l[1..]);
      label spliced:
      InitListHead(list);
      RingFrame@spliced(q);
    } else {
      assert l == [list] && InsertAfter(r, p, l[1..]) == r;
    }
  }

  // __list_cut_position
  method CutAt<T>(list: ListHead<T>, head: ListHead<T>, node: ListHead<T>, ghost r: seq<ListHead<T>>, ghost k: nat)
    requires Ring(r) && head == r[0] && 0 < k < |r| && node == r[k] && list !in r
    modifies list`next, list`prev, head.next`prev, node`next, head`next, node.next`prev
    ensures Ring([list] + r[1..k + 1]) && Ring([head] + r[k + 1..])
  {
    var newFirst := node.next;
    list.next := head.next;
    list.next.prev := list;
    list.prev := node;
    node.next := list;
    head.next := newFirst;
    newFirst.prev := head;
    CutIndices(r, k, list);
    ghost var l, rest := [list] + r[1..k + 1], [head] + r[k + 1..];
    assert Ring(l);
    assert Ring(rest);
  }

  lemma CutIndices<X>(r: seq<X>, k: nat, x: X)
    requires Distinct(r) && 0 < k < |r| && x !in r
    ensures var l := [x] + r[1..k + 1];
            Distinct(l) && |l| == k + 1 && l[0] == x && forall i :: 0 < i < |l| ==> l[i] == r[i]
    ensures var rest := [r[0]] + r[k + 1..];
            Distinct(rest) && |rest| == |r| - k && rest[0] == r[0]
            && forall i :: 0 < i < |rest| ==> rest[i] == r[k + i]
  {
    var l, rest := [x] + r[1..k + 1], [r[0]] + r[k + 1..];
    assert forall i :: 0 < i < |l| ==> l[i] == r[1..k + 1][i - 1] == r[i];
    assert forall i :: 0 < i < |rest| ==> rest[i] == r[k + 1..][i - 1] == r[k + i];
  }

  // list_cut_position: the entries up to and including node r[k] move to list.  An empty
  // list is not cut, and then list is not even initialised.
  method ListCutPosition<T>(list: ListHead<T>, head: ListHead<T>, node: ListHead<T>,
                            ghost r: seq<ListHead<T>>, ghost k: nat)
    requires Ring(r) && head == r[0] && k < |r| && node == r[k] && list !in r
    modifies list`next, list`prev, head.next`prev, node`next, head`next, node.next`prev
    ensures |r| > 1 ==> Ring([list] + r[1..k + 1]) && Ring([head] + r[k + 1..])
    ensures |r| == 1 ==> Ring(r) && list.next == old(list.next) && list.prev == old(list.prev)
  {
    var empty := ListEmpty(head, r);
    if empty {
      return;
    }
    var singular := ListIsSingular(head, r);
    if singular && head.next != node && head != node {
      return;
    }
    if node == head {
      InitListHead(list);
    } else {
      CutAt(list, head, node, r, k);
    }
  }

  lemma CutFacts<X>(r: seq<X>, k: nat, x: X)
    requires Distinct(r) && k < |r| && x !in r
    ensures Disjoint([x] + r[1..k + 1], [r[0]] + r[k + 1..])
    ensures forall y :: y in [x] + r[1..k + 1] || y in [r[0]] + r[k + 1..] ==> y == x || y in r
    ensures InsertAfter([r[0]] + r[k + 1..], 0, ([x] + r[1..k + 1])[1..]) == r
  {
    assert r[1..] == r[1..k + 1] + r[k + 1..];
  }

  // Cutting a list and splicing the part cut off back in restores it.  For an empty list
  // this needs the other head to be initialised by the caller.
  method CutThenSplice<T>(list: ListHead<T>, head: ListHead<T>, node: ListHead<T>,
                          ghost r: seq<ListHead<T>>, ghost k: nat)
    requires Ring(r) && head == r[0] && k < |r| && node == r[k] && list !in r
    requires |r| == 1 ==> Ring([list])
    modifies list, r
    ensures Ring(r)
  {
    hide Ring, Distinct, Disjoint, InsertAfter;
    RingFacts(r, 0);
    RingFacts(r, k);
    ghost var l, rest := [list] + r[1..k + 1], [head] + r[k + 1..];
    CutFacts(r, k, list);
    ListCutPosition(list, head, node, r, k);
    assert |r| == 1 ==> l == [list] && rest == r;
    RingFacts(l, 0);
    RingFacts(rest, 0);
    ListSplice(list, head, l, rest, 0);
  }
}
