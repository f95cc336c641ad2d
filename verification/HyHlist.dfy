// The singly headed list of include/hy_list.h: a node knows the address of the pointer that
// points to it (pprev), so that it can be deleted without knowledge of the head.
module HyHlist {
  import opened HyList

  class HlistHead<T> {
    var first: HlistNode?<T>

    // INIT_HLIST_HEAD
    constructor ()
      ensures first == null
    {
      first := null;
    }
  }

  // The address of a `struct hlist_node *`: null, the poison value of a deleted node, the
  // `first` field of a head or the `next` field of a node.
  datatype Address<T> = Null | Poison | FirstOf(head: HlistHead<T>) | NextOf(node: HlistNode<T>)

  class HlistNode<T> {
    var next: HlistNode?<T>
    var pprev: Address<T>
    var entry: T

    // INIT_HLIST_NODE on a node just allocated.
    constructor (e: T)
      ensures next == null && pprev == Null && entry == e
    {
      next, pprev, entry := null, Null, e;
    }
  }

  // What the pointer at address a holds.
  function Deref<T>(a: Address<T>): HlistNode?<T>
    reads if a.FirstOf? then {a.head} else if a.NextOf? then {a.node} else {}
  {
    match a
    case FirstOf(h) => h.first
    case NextOf(n) => n.next
    case _ => null
  }

  // The nodes reachable from h are c, in this order, and their pprev fields lead back.
  ghost predicate Chain<T>(h: HlistHead<T>, c: seq<HlistNode<T>>)
    reads h, c
  {
    && Distinct(c)
    && (c == [] ==> h.first == null)
    && (c != [] ==> h.first == c[0] && c[0].pprev == FirstOf(h) && c[|c| - 1].next == null)
    && (forall i {:trigger c[i].next} :: 0 <= i < |c| - 1 ==> c[i].next == c[i + 1])
    && (forall i {:trigger c[i].pprev} :: 0 < i < |c| ==> c[i].pprev == NextOf(c[i - 1]))
  }

  // The invariant the design rests on: *pprev of every node is that node.
  lemma PprevPointsBack<T>(h: HlistHead<T>, c: seq<HlistNode<T>>, i: nat)
    requires Chain(h, c) && i < |c|
    ensures Deref(c[i].pprev) == c[i]
    ensures c[i].next != null ==> c[i].next.pprev == NextOf(c[i])
  {
  }

  // The chain is determined by the head: following `next` from `first` visits exactly c.
  lemma {:induction false} ChainUnique<T>(h: HlistHead<T>, c: seq<HlistNode<T>>, d: seq<HlistNode<T>>)
    requires Chain(h, c) && Chain(h, d)
    ensures c == d
  {
    ChainPrefix(h, c, d, |c|);
    ChainPrefix(h, d, c, |d|);
  }

  lemma {:induction false} ChainPrefix<T>(h: HlistHead<T>, c: seq<HlistNode<T>>, d: seq<HlistNode<T>>, n: nat)
    requires Chain(h, c) && Chain(h, d) && n <= |c|
    ensures n <= |d| && c[..n] == d[..n]
  {
    if n > 0 {
      ChainPrefix(h, c, d, n - 1);
      if n > 1 {
        assert c[n - 2] == c[..n - 1][n - 2] == d[n - 2];
        assert c[n - 2].next == c[n - 1];
      }
    }
  }

  // *a := n
  method Store<T>(a: Address<T>, n: HlistNode?<T>)
    requires a.FirstOf? || a.NextOf?
    modifies (if a.FirstOf? then {a.head} else {})`first, (if a.NextOf? then {a.node} else {})`next
    ensures Deref(a) == n
  {
    match a {
      case FirstOf(h) => h.first := n;
      case NextOf(p) => p.next := n;
    }
  }

  // __hlist_del: of the list, only the node itself is passed.
  method HlistUnlink<T>(n: HlistNode<T>, ghost h: HlistHead<T>, ghost c: seq<HlistNode<T>>, ghost k: nat)
    requires Chain(h, c) && k < |c| && n == c[k]
    modifies h`first, c`next, c`pprev
    ensures Chain(h, RemoveAt(c, k))
  {
    var next := n.next;
    var pprev := n.pprev;
    Store(pprev, next);
    if next != null {
      next.pprev := pprev;
    }
    ghost var q := RemoveAt(c, k);
    forall i | 0 <= i < |q| - 1
      ensures q[i].next == q[i + 1] && q[i + 1].pprev == NextOf(q[i])
    {
      if i < k - 1 {
        assert q[i] == c[i] && q[i + 1] == c[i + 1];
      } else if i >= k {
        assert q[i] == c[i + 1] && q[i + 1] == c[i + 2];
      } else {
        assert q[i] == c[i] && q[i + 1] == c[i + 2];
      }
    }
  }

  // hlist_del
  method HlistDel<T>(n: HlistNode<T>, ghost h: HlistHead<T>, ghost c: seq<HlistNode<T>>, ghost k: nat)
    requires Chain(h, c) && k < |c| && n == c[k]
    modifies h`first, c`next, c`pprev
    ensures Chain(h, RemoveAt(c, k)) && n.next == null && n.pprev == Poison
  {
    HlistUnlink(n, h, c, k);
    RemoveAtFacts(c, k);
    n.next := null;
    n.pprev := Poison;
  }

  // hlist_del_init: does nothing to a node that is on no list.
  method HlistDelInit<T>(n: HlistNode<T>, ghost h: HlistHead<T>, ghost c: seq<HlistNode<T>>, ghost k: nat)
    requires Chain(h, c) && if n.pprev == Null then n !in c else k < |c| && n == c[k]
    modifies h`first, c`next, c`pprev
    ensures Chain(h, if n in c then RemoveAt(c, k) else c)
    ensures old(n.pprev) != Null ==> n.next == null && n.pprev == Null
    ensures old(n.pprev) == Null ==> n.next == old(n.next) && n.pprev == Null && h.first == old(h.first)
  {
    if n.pprev != Null {
      HlistUnlink(n, h, c, k);
      RemoveAtFacts(c, k);
      n.next := null;
      n.pprev := Null;
    }
  }

  // hlist_add_head
  method HlistAddHead<T>(n: HlistNode<T>, h: HlistHead<T>, ghost c: seq<HlistNode<T>>)
    requires Chain(h, c) && n !in c
    modifies n`next, n`pprev, h`first, c`next, c`pprev
    ensures Chain(h, [n] + c)
  {
    var first := h.first;
    n.next := first;
    if first != null {
      first.pprev := NextOf(n);
    }
    h.first := n;
    n.pprev := FirstOf(h);
  }

  // hlist_add_before
  method HlistAddBefore<T>(n: HlistNode<T>, next: HlistNode<T>,
                           ghost h: HlistHead<T>, ghost c: seq<HlistNode<T>>, ghost k: nat)
    requires Chain(h, c) && n !in c && k < |c| && next == c[k]
    modifies n`next, n`pprev, h`first, c`next, c`pprev
    ensures Chain(h, c[..k] + [n] + c[k..])
  {
    n.pprev := next.pprev;
    n.next := next;
    next.pprev := NextOf(n);
    Store(n.pprev, n);
    ghost var q := c[..k] + [n] + c[k..];
    forall i | 0 <= i < |q| - 1
      ensures q[i].next == q[i + 1] && q[i + 1].pprev == NextOf(q[i])
    {
      if i < k - 1 {
        assert q[i] == c[i] && q[i + 1] == c[i + 1];
      } else if i > k {
        assert q[i] == c[i - 1] && q[i + 1] == c[i];
      }
    }
  }

  // hlist_add_behind
  method HlistAddBehind<T>(n: HlistNode<T>, prev: HlistNode<T>,
                           ghost h: HlistHead<T>, ghost c: seq<HlistNode<T>>, ghost k: nat)
    requires Chain(h, c) && n !in c && k < |c| && prev == c[k]
    modifies n`next, n`pprev, h`first, c`next, c`pprev
    ensures Chain(h, InsertAfter(c, k, [n]))
  {
    n.next := prev.next;
    prev.next := n;
    n.pprev := NextOf(prev);
    if n.next != null {
      n.next.pprev := NextOf(n);
    }
    ghost var q := InsertAfter(c, k, [n]);
    InsertAfterFacts(c, k, [n]);
    forall i | 0 <= i < |q| - 1
      ensures q[i].next == q[i + 1] && q[i + 1].pprev == NextOf(q[i])
    {
      if i < k {
        assert q[i] == c[i] && q[i + 1] == c[i + 1];
      } else if i > k + 1 {
        assert q[i] == c[i - 1] && q[i + 1] == c[i];
      }
    }
  }

  // hlist_move_list: whatever the new head led to before is forgotten.
  method HlistMoveList<T>(from: HlistHead<T>, to: HlistHead<T>, ghost c: seq<HlistNode<T>>)
    requires Chain(from, c) && from != to
    modifies from`first, to`first, c`pprev
    ensures Chain(to, c) && Chain(from, [])
  {
    to.first := from.first;
    if to.first != null {
      to.first.pprev := FirstOf(to);
    }
    from.first := null;
  }
}
