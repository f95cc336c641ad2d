// The chained hash table of src/utils_hash.c over the linked lists of HyHlist.
module HashTable {
  import opened Basics
  import opened HyList
  import opened HyHlist
  import opened HashSpec

  // The items of a chain, in list order.
  ghost function Items(c: seq<HlistNode<Item>>): (s: seq<Item>)
    reads c
    ensures |s| == |c| && forall i :: 0 <= i < |c| ==> s[i] == c[i].entry
  {
    seq(|c|, i requires 0 <= i < |c| reads c => c[i].entry)
  }

  // _find_item_from_list without the action on the item found.
  method FindItem(h: HlistHead<Item>, hash: nat, ghost c: seq<HlistNode<Item>>) returns (pos: HlistNode?<Item>)
    requires Chain(h, c)
    ensures Find(Items(c), hash) < |c| ==> pos == c[Find(Items(c), hash)]
    ensures Find(Items(c), hash) == |c| ==> pos == null
  {
    pos := h.first;
    ghost var k := 0;
    while pos != null
      invariant 0 <= k <= |c| && pos == (if k < |c| then c[k] else null)
      invariant k <= Find(Items(c), hash)
      decreases |c| - k
    {
      if pos.entry.keyHash == hash {
        return;
      }
      pos := pos.next;
      k := k + 1;
    }
  }

  // A new item goes to the front of its chain.
  method AddItem(h: HlistHead<Item>, hash: nat, val: string, ghost c: seq<HlistNode<Item>>)
    returns (node: HlistNode<Item>)
    requires Chain(h, c)
    modifies h`first, c`next, c`pprev
    ensures fresh(node) && Chain(h, [node] + c) && Items([node] + c) == [Item(hash, val)] + old(Items(c))
  {
    hide Chain, Items;
    ghost var items := Items(c);
    node := new HlistNode<Item>(Item(hash, val));
    HlistAddHead(node, h, c);
    assert Items(c) == items;
  }

  class HashContext {
    const bucketMaxLen: nat
    const heads: seq<HlistHead<Item>>
    ghost var chains: seq<seq<HlistNode<Item>>>
    ghost var nodes: set<HlistNode<Item>>

    // Every bucket head leads to its own chain, and no node is on two of them.
    ghost predicate Shape()
      reads this, heads, nodes
    {
      && 0 < bucketMaxLen == |heads| == |chains| && bucketMaxLen < HALF && Distinct(heads)
      && (forall i :: 0 <= i < |chains| ==> (forall x <- chains[i] :: x in nodes) && Chain(heads[i], chains[i]))
      && (forall i, j :: 0 <= i < |chains| && 0 <= j < |chains| && i != j ==> Disjoint(chains[i], chains[j]))
    }

    ghost function Buckets(): (t: seq<seq<Item>>)
      reads this, heads, nodes
      requires Shape()
      ensures |t| == bucketMaxLen && forall i :: 0 <= i < |t| ==> t[i] == Items(chains[i])
    {
      seq(|chains|, i requires 0 <= i < |chains| && Shape() reads this, heads, nodes => Items(chains[i]))
    }

    ghost predicate Valid()
      reads this, heads, nodes
    {
      Shape() && ValidTable(Buckets())
    }

    // UtilsHashCreate
    constructor (n: nat)
      requires 0 < n < HALF
      ensures Valid() && bucketMaxLen == n && Buckets() == seq(n, _ => [])
      ensures fresh(heads) && nodes == {}
    {
      bucketMaxLen, chains, nodes := n, seq(n, _ => []), {};
      var made: seq<HlistHead<Item>> := [];
      for i := 0 to n
        invariant |made| == i && Distinct(made) && fresh(made)
        invariant forall j :: 0 <= j < i ==> made[j].first == null
      {
        var head := new HlistHead<Item>();
        made := made + [head];
      }
      heads := made;
    }

    // Nothing but the chain at index i, its head and new nodes has changed.
    twostate predicate OnlyChain(i: nat)
      reads this, heads, nodes
    {
      && old(Shape()) && i < bucketMaxLen && old(nodes) <= nodes
      && (forall h <- heads :: h != heads[i] ==> h.first == old(h.first))
      && (forall x <- old(nodes) :: x !in old(chains)[i] ==>
            x.next == old(x.next) && x.pprev == old(x.pprev) && x.entry == old(x.entry))
    }

    // The head and the nodes of bucket j are as they were.
    twostate predicate SameBucket(new j: nat)
      reads this, heads, nodes
    {
      && old(Shape()) && old(nodes) <= nodes && j < bucketMaxLen && heads[j].first == old(heads[j].first)
      && (forall x <- old(chains)[j] ::
            x in old(nodes) && x.next == old(x.next) && x.pprev == old(x.pprev) && x.entry == old(x.entry))
    }

    twostate lemma OtherBucketSame(i: nat, new j: nat)
      requires OnlyChain(i) && j < bucketMaxLen && j != i
      ensures SameBucket(j)
    {
      hide Chain;
      assert heads[j] in heads && heads[j] != heads[i];
      assert Disjoint(old(chains)[j], old(chains)[i]);
    }

    twostate lemma ChainStays(new j: nat)
      requires SameBucket(j)
      ensures Chain(heads[j], old(chains)[j])
    {
      var c := old(chains)[j];
      assert old(Chain(heads[j], chains[j]));
      hide Distinct, Shape;
      assert c != [] ==> c[0] in c && c[|c| - 1] in c;
      forall i | 0 <= i < |c| - 1
        ensures c[i].next == c[i + 1]
      {
        assert c[i] in c;
      }
      forall i | 0 < i < |c|
        ensures c[i].pprev == NextOf(c[i - 1])
      {
        assert c[i] in c;
      }
    }

    twostate lemma ItemsStay(new j: nat)
      requires SameBucket(j)
      ensures Items(old(chains)[j]) == old(Items(chains[j]))
    {
      var c := old(chains)[j];
      hide Chain, Distinct, Shape;
      assert forall k :: 0 <= k < |c| ==> c[k] in c;
    }

    twostate lemma OthersStay(i: nat)
      requires OnlyChain(i)
      ensures forall j :: 0 <= j < bucketMaxLen && j != i ==>
                Chain(heads[j], old(chains)[j]) && Items(old(chains)[j]) == old(Items(chains[j]))
    {
      forall j | 0 <= j < bucketMaxLen && j != i
        ensures Chain(heads[j], old(chains)[j]) && Items(old(chains)[j]) == old(Items(chains[j]))
      {
        OtherBucketSame(i, j);
        hide Chain, Items, Distinct, Disjoint;
        ChainStays(j);
        ItemsStay(j);
      }
    }

    // The chain at index i has become d; the others are as they were.
    twostate lemma OneChainChanged(i: nat, new d: seq<HlistNode<Item>>)
      requires OnlyChain(i) && |chains| == bucketMaxLen && chains == old(chains)[i := d]
      requires Chain(heads[i], d) && (forall x <- d :: x in nodes)
      requires forall j :: 0 <= j < bucketMaxLen && j != i ==>
                 Disjoint(d, old(chains)[j]) && Disjoint(old(chains)[j], d)
      ensures Shape() && Buckets() == old(Buckets())[i := Items(d)]
    {
      OthersStay(i);
      hide Chain, Distinct, Disjoint;
    }

    // UtilsHashItemGet
    method UtilsHashItemGet(key: seq<SChar>) returns (found: bool, val: string)
      requires Valid()
      ensures (if found then Some(val) else None) == Value(Buckets(), IdOf(key, bucketMaxLen))
    {
      var index := KeyToIndex(bucketMaxLen, key);
      var hash := HashSpec.UtilsHashGenerate(key);
      var pos := FindItem(heads[index], hash, chains[index]);
      found, val := false, "";
      if pos != null {
        found, val := true, pos.entry.val;
      }
    }

    lemma SizeFacts()
      requires Shape()
      ensures 0 < bucketMaxLen < HALF
    {
    }

    lemma BucketFacts(index: nat)
      requires Shape() && index < bucketMaxLen
      ensures |heads| == |chains| == bucketMaxLen
      ensures Chain(heads[index], chains[index]) && Distinct(chains[index]) && heads[index] in heads
      ensures forall x <- chains[index] :: x in nodes
      ensures forall j :: 0 <= j < bucketMaxLen && j != index ==>
                Disjoint(chains[index], chains[j]) && Disjoint(chains[j], chains[index])
    {
    }

    lemma SubApart(index: nat, d: seq<HlistNode<Item>>)
      requires Shape() && index < bucketMaxLen && forall x <- d :: x in chains[index]
      ensures forall j :: 0 <= j < bucketMaxLen && j != index ==> Disjoint(d, chains[j]) && Disjoint(chains[j], d)
    {
    }

    // _replace_item_val, as it is meant: the node stays, its value is replaced.
    method ReplaceItemVal(pos: HlistNode<Item>, val: string, ghost index: nat, ghost k: nat)
      requires Shape() && index < bucketMaxLen && k < |chains[index]| && pos == chains[index][k]
      modifies pos`entry
      ensures Shape()
      ensures Buckets() == old(Buckets())[index := old(Buckets()[index])[k := Item(old(pos.entry.keyHash), val)]]
    {
      hide Chain, Distinct, Disjoint, Shape, Buckets, Items;
      BucketFacts(index);
      pos.entry := Item(pos.entry.keyHash, val);
      EntryChanged(index, k);
    }

    // The entry of node k of one chain may have changed, and nothing else.
    twostate predicate OnlyEntry(index: nat, k: nat)
      reads this, heads, nodes
    {
      && old(Shape()) && index < bucketMaxLen && chains == old(chains) && nodes == old(nodes)
      && index < |chains| && k < |chains[index]|
      && (forall x <- old(nodes) :: x.next == old(x.next) && x.pprev == old(x.pprev))
      && (forall x <- old(nodes) :: x != chains[index][k] ==> x.entry == old(x.entry))
      && (forall h <- heads :: h.first == old(h.first))
    }

    twostate lemma ItemReplaced(index: nat, new k: nat)
      requires OnlyEntry(index, k)
      ensures forall x <- chains[index] :: x in nodes
      ensures Items(chains[index]) == old(Items(chains[index]))[k := chains[index][k].entry]
    {
      hide Chain, Distinct, Disjoint, Shape, Items;
      OldBucketFacts(index);
      OtherNodes(chains[index], k);
    }

    twostate lemma EntryIsOfChain(index: nat, new k: nat)
      requires OnlyEntry(index, k)
      ensures OnlyChain(index) && |chains| == bucketMaxLen
    {
      hide Chain, Distinct, Disjoint, Shape;
      OldBucketFacts(index);
      assert chains[index][k] in chains[index];
    }

    twostate lemma EntryChanged(index: nat, new k: nat)
      requires OnlyEntry(index, k)
      ensures Shape() && Buckets() == old(Buckets())[index := old(Buckets()[index])[k := chains[index][k].entry]]
    {
      hide Chain, Distinct, Disjoint, Shape, Buckets, Items, OnlyChain;
      ChainsSame(index);
      OldBucketFacts(index);
      ItemReplaced(index, k);
      EntryIsOfChain(index, k);
      assert chains == chains[index := chains[index]];
      OneChainChanged(index, chains[index]);
    }

    lemma OtherNodes(c: seq<HlistNode<Item>>, k: nat)
      requires Distinct(c) && k < |c|
      ensures forall i :: 0 <= i < |c| ==> c[i] in c && (i != k ==> c[i] != c[k])
    {
    }

    twostate lemma OldBucketFacts(index: nat)
      requires old(Shape()) && index < bucketMaxLen
      ensures |heads| == |old(chains)| == bucketMaxLen && Distinct(old(chains)[index])
      ensures forall x <- old(chains)[index] :: x in old(nodes)
      ensures forall j :: 0 <= j < bucketMaxLen && j != index ==>
                Disjoint(old(chains)[index], old(chains)[j]) && Disjoint(old(chains)[j], old(chains)[index])
    {
    }

    // A change of an entry is no change of a chain.
    twostate lemma ChainsSame(index: nat)
      requires old(Shape()) && index < bucketMaxLen && chains == old(chains)
      requires forall x <- old(nodes) :: x.next == old(x.next) && x.pprev == old(x.pprev)
      requires forall h <- heads :: h.first == old(h.first)
      ensures Chain(heads[index], chains[index])
    {
      var c := chains[index];
      assert heads[index] in heads;
      assert forall k :: 0 <= k < |c| ==> c[k] in c;
    }

    twostate lemma NewApart(index: nat, new node: HlistNode<Item>)
      requires old(Shape()) && index < bucketMaxLen && !old(allocated(node))
      ensures forall j :: 0 <= j < bucketMaxLen && j != index ==>
                && Disjoint([node] + old(chains)[index], old(chains)[j])
                && Disjoint(old(chains)[j], [node] + old(chains)[index])
    {
    }

    // _add_item_to_list
    method AddItemToList(index: nat, hash: nat, val: string, ghost c: seq<HlistNode<Item>>)
      requires Shape() && index < bucketMaxLen && c == chains[index]
      modifies this`chains, this`nodes, heads, c`next, c`pprev
      ensures Shape() && fresh(nodes - old(nodes))
      ensures Buckets() == old(Buckets())[index := [Item(hash, val)] + old(Buckets()[index])]
    {
      hide Chain, Distinct, Disjoint, Shape, Buckets, Items;
      BucketFacts(index);
      var node := AddItem(heads[index], hash, val, c);
      NewApart(index, node);
      chains, nodes := chains[index := [node] + c], nodes + {node};
      OneChainChanged(index, [node] + c);
    }

    lemma ItemsWithout(c: seq<HlistNode<Item>>, k: nat)
      requires k < |c|
      ensures Items(RemoveAt(c, k)) == RemoveAt(Items(c), k)
    {
    }

    // _del_item_from_list
    method DelItemFromList(pos: HlistNode<Item>, ghost index: nat, ghost k: nat, ghost c: seq<HlistNode<Item>>)
      requires Shape() && index < bucketMaxLen && c == chains[index] && k < |c| && pos == c[k]
      modifies this`chains, heads, c`next, c`pprev
      ensures Shape()
      ensures Buckets() == old(Buckets())[index := RemoveAt(old(Buckets()[index]), k)]
    {
      hide Chain, Distinct, Disjoint, Shape, Buckets, Items;
      BucketFacts(index);
      RemoveAtFacts(c, k);
      ghost var d := RemoveAt(c, k);
      SubApart(index, d);
      ItemsWithout(c, k);
      ghost var items := Items(d);
      hide RemoveAt;
      HlistDel(pos, heads[index], c, k);
      assert Items(d) == items;
      chains := chains[index := d];
      OneChainChanged(index, d);
    }

    // The part of UtilsHashItemAdd that follows the hashing.
    method StoreItem(index: nat, hash: nat, val: string)
      requires Shape() && index < bucketMaxLen
      modifies this`chains, this`nodes, heads, nodes
      ensures Shape() && fresh(nodes - old(nodes))
      ensures Buckets() == old(Buckets())[index := AddTo(old(Buckets()[index]), hash, val)]
    {
      hide Shape, Buckets, Items, Chain, Distinct, Disjoint;
      BucketFacts(index);
      ghost var k := Find(Buckets()[index], hash);
      var pos := FindItem(heads[index], hash, chains[index]);
      if pos != null {
        ReplaceItemVal(pos, val, index, k);
      } else {
        AddItemToList(index, hash, val, chains[index]);
      }
    }

    // UtilsHashItemAdd, with the replacement as it is meant.
    method AddAsMeant(key: seq<SChar>, val: string)
      requires Valid()
      modifies this`chains, this`nodes, heads, nodes
      ensures Valid() && fresh(nodes - old(nodes))
      ensures Buckets() == Apply(old(Buckets()), Add(key, val))
    {
      hide Shape, Buckets, KeyIndex, KeyHash, ValidTable, AddTo;
      SizeFacts();
      var index := KeyToIndex(bucketMaxLen, key);
      var hash := HashSpec.UtilsHashGenerate(key);
      AddRefinesMap(Buckets(), Id(index, hash), val, Id(index, hash));
      StoreItem(index, hash, val);
    }

    // UtilsHashItemAdd as it is written.  A false result stands for the copy to a null pointer with
    // which the replacement of a value ends: the block that was got for it has been freed before.
    method UtilsHashItemAdd(key: seq<SChar>, val: string) returns (defined: bool)
      requires Valid()
      modifies this`chains, this`nodes, heads, nodes
      ensures Valid() && fresh(nodes - old(nodes))
      ensures defined <==> old(HashSpec.Value(Buckets(), IdOf(key, bucketMaxLen))).None?
      ensures AddWritten(old(Buckets()), IdOf(key, bucketMaxLen), val) == if defined then Some(Buckets()) else None
      ensures defined ==> Buckets() == Apply(old(Buckets()), Add(key, val))
    {
      hide Shape, Buckets, Items, KeyIndex, KeyHash, ValidTable, AddTo, AddWritten, Lookup;
      SizeFacts();
      var index := KeyToIndex(bucketMaxLen, key);
      var hash := HashSpec.UtilsHashGenerate(key);
      AddRefinesMap(Buckets(), Id(index, hash), val, Id(index, hash));
      BucketFacts(index);
      FoundOrNot(Buckets()[index], hash, val);
      hide Chain, Distinct, Disjoint;
      var pos := FindItem(heads[index], hash, chains[index]);
      defined := pos == null;
      if defined {
        AddItemToList(index, hash, val, chains[index]);
      }
    }

    // The part of UtilsHashItemDel that follows the hashing.
    method RemoveItem(index: nat, hash: nat) returns (found: bool)
      requires Shape() && index < bucketMaxLen
      modifies this`chains, heads, nodes
      ensures Shape()
      ensures Buckets() == old(Buckets())[index := DelFrom(old(Buckets()[index]), hash)]
      ensures found <==> Lookup(old(Buckets()[index]), hash).Some?
    {
      hide Shape, Buckets, Items, Chain, Distinct, Disjoint, RemoveAt;
      BucketFacts(index);
      ghost var k := Find(Buckets()[index], hash);
      var pos := FindItem(heads[index], hash, chains[index]);
      found := pos != null;
      if pos != null {
        DelItemFromList(pos, index, k, chains[index]);
      }
    }

    // UtilsHashItemDel
    method UtilsHashItemDel(key: seq<SChar>) returns (found: bool)
      requires Valid()
      modifies this`chains, heads, nodes
      ensures Valid()
      ensures Buckets() == Apply(old(Buckets()), Del(key))
      ensures found <==> old(HashSpec.Value(Buckets(), IdOf(key, bucketMaxLen))).Some?
    {
      hide Shape, Buckets, KeyIndex, KeyHash, ValidTable, DelFrom, Lookup;
      SizeFacts();
      var index := KeyToIndex(bucketMaxLen, key);
      var hash := HashSpec.UtilsHashGenerate(key);
      DelRefinesMap(Buckets(), Id(index, hash), Id(index, hash));
      found := RemoveItem(index, hash);
    }
  }
}
