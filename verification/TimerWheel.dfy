// src/hy_timer.c in place: an array of list heads whose lists of timers are relinked node by
// node.  Every method is tied to the functions of TimerSpec and TimerRuns on its Model.
module TimerWheel {
  import opened HyList
  import opened TimerSpec
  import opened TimerRuns

  type Node = ListHead<Entry>

  // The ring r starts at the head and carries the entries l; its nodes are among `nodes`.
  ghost predicate Slot(head: Node, r: seq<Node>, l: seq<Entry>, nodes: set<Node>)
    reads nodes
  {
    && r != [] && r[0] == head
    && (forall x <- r :: x in nodes)
    && Ring(r)
    && |r| == |l| + 1
    && (forall k :: 0 <= k < |l| ==> l[k] == r[k + 1].entry)
  }

  ghost predicate Apart(rings: seq<seq<Node>>) {
    forall i, j :: 0 <= i < |rings| && 0 <= j < |rings| && i != j ==> Disjoint(rings[i], rings[j])
  }

  lemma SlotRemove(head: Node, r: seq<Node>, l: seq<Entry>, nodes: set<Node>, k: nat)
    requires 0 < k < |r| == |l| + 1 && r[0] == head && Ring(RemoveAt(r, k))
    requires forall x <- r :: x in nodes
    requires forall i :: 0 <= i < |l| ==> l[i] == r[i + 1].entry
    ensures Slot(head, RemoveAt(r, k), RemoveAt(l, k - 1), nodes)
  {
  }

  lemma SlotAppend(head: Node, r: seq<Node>, l: seq<Entry>, nodes: set<Node>, x: Node)
    requires |r| == |l| + 1 && r[0] == head && Ring(r + [x])
    requires forall y <- r :: y in nodes
    requires forall i :: 0 <= i < |l| ==> l[i] == r[i + 1].entry
    ensures Slot(head, r + [x], l + [x.entry], nodes + {x})
  {
  }

  lemma StartIsValid(w: Wheel)
    requires ValidWheel(w)
    ensures ValidPass(Start(w)) && Ahead(Start(w)) == w.slots[w.cur]
  {
  }

  lemma FinishStep(p: Pass)
    requires ValidPass(p) && Zeros(Ahead(p)) <= 1
    ensures Ahead(p) == [] ==> Finish(p) == p
    ensures Ahead(p) != [] ==> ValidPass(Step(p)) && Zeros(Ahead(Step(p))) <= 1 && Finish(p) == Finish(Step(p))
  {
    if Ahead(p) != [] {
      StepDecreases(p);
    }
  }

  // Node k of the ring r, which starts over at its end.
  ghost function At(r: seq<Node>, k: nat): Node
    requires r != []
  {
    if k < |r| then r[k] else r[0]
  }

  lemma AtHead(r: seq<Node>, k: nat)
    requires Ring(r) && 0 < k <= |r|
    ensures At(r, k) == r[0] <==> k == |r|
  {
  }

  // Where the successor of node k is when node k is gone, or has gone to the end.
  lemma AtRemoved(r: seq<Node>, k: nat, x: Node)
    requires 0 < k < |r|
    ensures |RemoveAt(r, k)| == |r| - 1 && At(RemoveAt(r, k), k) == At(r, k + 1)
    ensures k + 1 < |r| ==> At(RemoveAt(r, k) + [x], k) == At(r, k + 1)
    ensures k + 1 == |r| ==> At(RemoveAt(r, k) + [x], k + 1) == At(r, k + 1)
  {
  }

  class TimerService {
    const listHead: seq<Node>
    var curSlot: nat
    // The rings of the slots, each starting at its head, what they carry, and their nodes.
    ghost var rings: seq<seq<Node>>
    ghost var slots: seq<seq<Entry>>
    ghost var nodes: set<Node>

    ghost predicate Valid()
      reads this, nodes
    {
      && |listHead| == |rings| == |slots| > curSlot
      && (forall i :: 0 <= i < |rings| ==> Slot(listHead[i], rings[i], slots[i], nodes))
      && Apart(rings)
    }

    ghost function Model(): Wheel
      reads this
    {
      Wheel(curSlot, slots)
    }

    // Slot i gets the ring q with the entries m.  Only nodes of its ring so far and the node
    // that was taken off or put on it have changed.
    twostate lemma SlotChanged(i: nat, new q: seq<Node>, new m: seq<Entry>, new node: Node)
      requires old(Valid()) && i < |rings| && rings == old(rings) && slots == old(slots) && curSlot == old(curSlot)
      requires old(nodes) <= nodes
      requires Slot(listHead[i], q, m, nodes)
      requires node in rings[i] || forall j :: 0 <= j < |rings| ==> node !in rings[j]
      requires forall x <- q :: x in rings[i] || x == node
      requires forall x <- old(nodes) ::
                 x in rings[i] || x == node
                 || (x.next == old(x.next) && x.prev == old(x.prev) && x.entry == old(x.entry))
      ensures forall j :: 0 <= j < |rings| ==> Slot(listHead[j], rings[i := q][j], slots[i := m][j], nodes)
      ensures Apart(rings[i := q])
      ensures forall j :: 0 <= j < |rings| && j != i ==> node !in rings[j]
    {
      forall j | 0 <= j < |rings| && j != i
        ensures Slot(listHead[j], rings[j], slots[j], nodes) && node !in rings[j]
        ensures Disjoint(rings[j], q) && Disjoint(q, rings[j])
      {
        assert Disjoint(rings[j], rings[i]);
        assert old(Slot(listHead[j], rings[j], slots[j], nodes));
        RingFrame(rings[j]);
        assert forall k :: 0 <= k < |rings[j]| ==> rings[j][k] in rings[j];
      }
    }

    lemma SlotFacts(i: nat)
      requires Valid() && i < |rings|
      ensures rings[i] != [] && rings[i][0] == listHead[i] && Ring(rings[i]) && |rings[i]| == |slots[i]| + 1
      ensures forall k :: 0 <= k < |slots[i]| ==> slots[i][k] == rings[i][k + 1].entry
      ensures forall x <- rings[i] :: x in nodes
    {
      assert Slot(listHead[i], rings[i], slots[i], nodes);
    }

    // Where the successor of node k of the current slot's ring is found.
    lemma Cursor(k: nat)
      requires Valid() && k <= |slots[curSlot]|
      ensures |rings[curSlot]| == |slots[curSlot]| + 1 && rings[curSlot][0] == listHead[curSlot]
      ensures rings[curSlot][k].next == At(rings[curSlot], k + 1)
      ensures forall j :: 0 < j <= |slots[curSlot]| ==> rings[curSlot][j] != listHead[curSlot]
    {
      SlotFacts(curSlot);
      RingFacts(rings[curSlot], k);
    }

    // list_del on node k of the ring of slot i.
    method Unlink(node: Node, ghost i: nat, ghost k: nat)
      requires Valid() && i < |rings| && 0 < k < |rings[i]| && node == rings[i][k]
      modifies this`rings, this`slots, nodes`next, nodes`prev
      ensures Valid()
      ensures rings == old(rings)[i := RemoveAt(old(rings[i]), k)]
      ensures |old(slots[i])| == |old(rings[i])| - 1 && slots == old(slots)[i := RemoveAt(old(slots[i]), k - 1)]
      ensures forall j :: 0 <= j < |rings| ==> node !in rings[j]
    {
      SlotFacts(i);
      hide Slot, Ring, Distinct, Apart, Disjoint, RemoveAt;
      ghost var r, q, m := rings[i], RemoveAt(rings[i], k), RemoveAt(slots[i], k - 1);
      RingFacts(r, k);
      RemoveAtFacts(r, k);
      ListDel(node, r, k);
      SlotRemove(listHead[i], r, slots[i], nodes, k);
      SlotChanged(i, q, m, node);
      rings, slots := rings[i := q], slots[i := m];
    }

    // list_add_tail of a node that is on no list to the list of slot i.
    method Append(node: Node, i: nat)
      requires Valid() && i < |rings| && forall j :: 0 <= j < |rings| ==> node !in rings[j]
      modifies this`rings, this`slots, this`nodes, node`next, node`prev, nodes`next, nodes`prev
      ensures Valid() && nodes == old(nodes) + {node}
      ensures rings == old(rings)[i := old(rings[i]) + [node]]
      ensures slots == old(slots)[i := old(slots[i]) + [node.entry]]
    {
      SlotFacts(i);
      hide Slot, Ring, Distinct, Apart, Disjoint;
      ghost var r, q, m := rings[i], rings[i] + [node], slots[i] + [node.entry];
      RingFacts(r, 0);
      assert InsertAfter(r, Pred(0, |r|), [node]) == q;
      ListAddTail(node, listHead[i], r, 0);
      SlotAppend(listHead[i], r, slots[i], nodes, node);
      nodes := nodes + {node};
      SlotChanged(i, q, m, node);
      rings, slots := rings[i := q], slots[i := m];
    }

    // pos->rotation := rotation, for entry k of slot i.
    method SetRotation(node: Node, rotation: nat, ghost i: nat, ghost k: nat)
      requires Valid() && i < |rings| && k < |slots[i]|
      requires |rings[i]| == |slots[i]| + 1 && node == rings[i][k + 1]
      modifies this`slots, node`entry
      ensures Valid() && node.entry == old(node.entry).(rotation := rotation)
      ensures slots == old(slots)[i := old(slots[i])[k := node.entry]]
    {
      SlotFacts(i);
      node.entry := node.entry.(rotation := rotation);
      ghost var m := slots[i][k := node.entry];
      SlotChanged(i, rings[i], m, node);
      slots := slots[i := m];
    }

    // pos->rotation := rotation, for a timer that is on no list.
    method SetRotationOff(node: Node, rotation: nat)
      requires Valid() && forall j :: 0 <= j < |rings| ==> node !in rings[j]
      modifies node`entry
      ensures Valid() && node.entry == old(node.entry).(rotation := rotation)
    {
      node.entry := node.entry.(rotation := rotation);
      assert forall j, k :: 0 <= j < |rings| && 0 <= k < |rings[j]| ==> rings[j][k] in rings[j];
    }

    // A repeating timer that fired and is off its list starts anew, counted from curSlot.
    method LinkAgain(pos: Node) returns (slot: nat)
      requires Valid() && forall j :: 0 <= j < |rings| ==> pos !in rings[j]
      modifies this`rings, this`slots, this`nodes, pos, nodes`next, nodes`prev
      ensures Valid() && nodes == old(nodes) + {pos}
      ensures slot == Target(old(pos.entry.timer), curSlot, |slots|)
      ensures rings == old(rings)[slot := old(rings)[slot] + [pos]]
      ensures slots == old(slots)[slot := old(slots)[slot] + [Relinked(old(pos.entry.timer), |slots|)]]
    {
      var slotNum := |listHead|;
      SetRotationOff(pos, pos.entry.timer.expires / slotNum);
      slot := pos.entry.timer.expires % slotNum;
      slot := slot + curSlot;
      slot := slot % slotNum;
      Append(pos, slot);
    }

    // An entry of slot curSlot without turns to wait: it leaves the list, and a repeating timer
    // is linked again.
    method Fire(pos: Node, ghost n: Node, ghost behind: nat) returns (ghost passed: nat)
      requires Valid() && behind < |slots[curSlot]|
      requires |rings[curSlot]| == |slots[curSlot]| + 1 && pos == rings[curSlot][behind + 1]
      requires n == At(rings[curSlot], behind + 2) && pos.entry.rotation == 0
      modifies this`rings, this`slots, this`nodes, nodes
      ensures Valid() && nodes == old(nodes)
      ensures Pass(curSlot, slots, passed, [old(pos.entry.timer)]) == Step(Pass(curSlot, old(slots), behind, []))
      ensures passed <= |slots[curSlot]| && rings[curSlot] != [] && n == At(rings[curSlot], passed + 1)
    {
      SlotFacts(curSlot);
      hide Slot, Ring, Distinct, Apart, Disjoint, At;
      passed := behind;
      AtRemoved(rings[curSlot], behind + 1, pos);
      Unlink(pos, curSlot, behind + 1);
      if pos.entry.timer.repeat {
        var slot := LinkAgain(pos);
        passed := if slot == curSlot && behind == |old(slots[curSlot])| - 1 then behind + 1 else behind;
      }
    }

    // The body of the loop over slot curSlot: pos is the entry behind the first `behind` ones,
    // and n, read before, its successor.  The callback of a timer that fires is recorded.
    method Visit(pos: Node, ghost n: Node, ghost behind: nat, fired: seq<Timer>)
      returns (called: seq<Timer>, ghost passed: nat)
      requires Valid() && behind < |slots[curSlot]|
      requires |rings[curSlot]| == |slots[curSlot]| + 1 && pos == rings[curSlot][behind + 1]
      requires n == At(rings[curSlot], behind + 2)
      modifies this`rings, this`slots, this`nodes, nodes
      ensures Valid() && nodes == old(nodes)
      ensures Pass(curSlot, slots, passed, called) == Step(Pass(curSlot, old(slots), behind, fired))
      ensures passed <= |slots[curSlot]| && rings[curSlot] != [] && n == At(rings[curSlot], passed + 1)
    {
      SlotFacts(curSlot);
      hide Slot, Ring, Distinct, Apart, Disjoint, At;
      called, passed := fired, behind;
      assert pos.entry == slots[curSlot][behind];
      if pos.entry.rotation > 0 {
        SetRotation(pos, pos.entry.rotation - 1, curSlot, behind);
        passed := behind + 1;
      } else {
        called := called + [pos.entry.timer];
        passed := Fire(pos, n, behind);
      }
    }

    // One round of _timer_loop_cb after its wait: list_for_each_entry_safe over slot curSlot,
    // while Visit edits that very list, then the step to the next slot.
    method RunPass() returns (fired: seq<Timer>)
      requires Valid() && ValidWheel(Model()) && Zeros(slots[curSlot]) <= 1
      modifies this, nodes
      ensures Valid() && nodes == old(nodes)
      ensures (Model(), fired) == Tick(old(Model()))
    {
      hide Step, Finish, ValidPass, Zeros, Slot, Ring, Apart;
      var head := listHead[curSlot];
      fired := [];
      ghost var behind: nat := 0;
      ghost var start := Start(Model());
      assert Ahead(start) == slots[curSlot];
      StartIsValid(Model());
      Cursor(0);
      var pos := head.next;
      Cursor(if |slots[curSlot]| == 0 then 0 else 1);
      var n := pos.next;
      while pos != head
        invariant Valid() && curSlot == old(curSlot) && nodes == old(nodes)
        invariant |rings[curSlot]| == |slots[curSlot]| + 1 && rings[curSlot][0] == head
        invariant behind <= |slots[curSlot]| && pos == At(rings[curSlot], behind + 1)
        invariant pos != head ==> n == At(rings[curSlot], behind + 2)
        invariant ValidPass(Pass(curSlot, slots, behind, fired))
        invariant Zeros(Ahead(Pass(curSlot, slots, behind, fired))) <= 1
        invariant Finish(Pass(curSlot, slots, behind, fired)) == Finish(start)
        decreases Measure(Pass(curSlot, slots, behind, fired)).0, Measure(Pass(curSlot, slots, behind, fired)).1,
                  Measure(Pass(curSlot, slots, behind, fired)).2
      {
        ghost var p := Pass(curSlot, slots, behind, fired);
        assert Ahead(p) != [] by {
          Cursor(0);
        }
        StepDecreases(p);
        FinishStep(p);
        fired, behind := Visit(pos, n, behind, fired);
        Cursor(0);
        Cursor(if behind < |slots[curSlot]| then behind + 1 else 0);
        pos := n;
        n := n.next;
      }
      assert behind == |slots[curSlot]| by {
        Cursor(0);
      }
      FinishStep(Pass(curSlot, slots, behind, fired));
      curSlot := curSlot + 1;
      curSlot := curSlot % |listHead|;
    }

    // HyTimerCreate
    constructor (slotNum: nat)
      requires slotNum > 0
      ensures Valid() && fresh(nodes)
      ensures Model() == Wheel(0, seq(slotNum, _ => []))
    {
      var heads: seq<Node> := [];
      var i := 0;
      ghost var rs: seq<seq<Node>> := [];
      while i < slotNum
        invariant |heads| == |rs| == i <= slotNum
        invariant forall j :: 0 <= j < i ==> fresh(heads[j]) && rs[j] == [heads[j]] && Ring(rs[j])
        invariant Distinct(heads)
      {
        var head := new ListHead(Entry(Timer(0, 0, false), 0));
        heads := heads + [head];
        rs := rs + [[head]];
        i := i + 1;
      }
      listHead := heads;
      curSlot := 0;
      rings, slots := rs, seq(slotNum, _ => []);
      nodes := set x | x in heads;
    }

    // HyTimerAdd: t is the configuration together with the address malloc returned.
    method Add(t: Timer) returns (timer: Node)
      requires Valid()
      modifies this`rings, this`slots, this`nodes, nodes`next, nodes`prev
      ensures Valid() && fresh(timer) && nodes == old(nodes) + {timer}
      ensures Model() == AddTimer(old(Model()), t)
    {
      var slotNum := |listHead|;
      timer := new ListHead(Entry(t, t.expires / slotNum));
      var slot := t.expires % slotNum;
      OnList(timer);
      Append(timer, slot);
    }

    lemma OnList(x: Node)
      requires Valid()
      ensures x !in nodes ==> forall j :: 0 <= j < |rings| ==> x !in rings[j]
    {
      forall j | 0 <= j < |rings|
        ensures x in rings[j] ==> x in nodes
      {
        SlotFacts(j);
      }
    }

    // The inner loop of HyTimerDel: the entry of slot i with the handle, if there is one.
    method Search(i: nat, id: nat) returns (found: ListHead?<Entry>, ghost k: nat)
      requires Valid() && i < |rings|
      ensures |rings[i]| == |slots[i]| + 1 && k == FindId(slots[i], id)
      ensures found == if k < |slots[i]| then rings[i][k + 1] else null
    {
      SlotFacts(i);
      hide Slot, Ring, Apart, Distinct;
      RingFacts(rings[i], 0);
      var head := listHead[i];
      var pos := head.next;
      k := 0;
      while pos != head
        invariant k <= |slots[i]| && pos == At(rings[i], k + 1)
        invariant forall j :: 0 <= j < k ==> slots[i][j].timer.id != id
        decreases |slots[i]| - k
      {
        AtHead(rings[i], k + 1);
        RingFacts(rings[i], k + 1);
        var n := pos.next;
        if pos.entry.timer.id == id {
          FindIdIs(slots[i], id, k);
          return pos, k;
        }
        pos := n;
        k := k + 1;
      }
      AtHead(rings[i], k + 1);
      FindIdIs(slots[i], id, k);
      found := null;
    }

    // HyTimerDel: the handle is looked for on all the slots in turn.
    method Del(id: nat)
      requires Valid()
      modifies this`rings, this`slots, nodes
      ensures Valid() && nodes == old(nodes)
      ensures Model() == DelTimer(old(Model()), id)
    {
      hide Slot, Ring, Apart, FindId;
      var i := 0;
      while i < |listHead|
        invariant i <= |listHead|
        invariant Valid() && rings == old(rings) && slots == old(slots)
        invariant curSlot == old(curSlot) && nodes == old(nodes)
        invariant DelFrom(slots, id, 0) == DelFrom(slots, id, i)
      {
        var pos, k := Search(i, id);
        if pos != null {
          Unlink(pos, i, k + 1);
          return;
        }
        i := i + 1;
      }
    }

    // The loops of HyTimerDestroy: all the lists are emptied.
    method Drain()
      requires Valid()
      modifies this`rings, this`slots, nodes
      ensures Valid() && nodes == old(nodes) && |slots| == |old(slots)|
      ensures forall i :: 0 <= i < |slots| ==> slots[i] == []
    {
      hide Slot, Ring, Apart, Distinct;
      var i := 0;
      while i < |listHead|
        invariant i <= |listHead|
        invariant Valid() && nodes == old(nodes)
        invariant forall j :: 0 <= j < i ==> slots[j] == []
      {
        SlotFacts(i);
        RingFacts(rings[i], 0);
        var head := listHead[i];
        var pos := head.next;
        if pos != head {
          RingFacts(rings[i], 1);
        }
        var n := pos.next;
        while pos != head
          invariant Valid() && nodes == old(nodes)
          invariant forall j :: 0 <= j < i ==> slots[j] == []
          invariant rings[i] != [] && rings[i][0] == head && pos == At(rings[i], 1)
          invariant pos != head ==> n == At(rings[i], 2)
          decreases |slots[i]|
        {
          SlotFacts(i);
          Unlink(pos, i, 1);
          SlotFacts(i);
          pos := n;
          RingFacts(rings[i], if pos == head then 0 else 1);
          n := n.next;
        }
        SlotFacts(i);
        AtHead(rings[i], 1);
        i := i + 1;
      }
    }
  }

  lemma {:induction false} FindIdIs(l: seq<Entry>, id: nat, k: nat)
    requires k <= |l| && forall j :: 0 <= j < k ==> l[j].timer.id != id
    requires k < |l| ==> l[k].timer.id == id
    ensures FindId(l, id) == k
  {
  }
}
