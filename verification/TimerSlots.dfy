// What a whole pass of the timer service leaves on every slot, in order.
module TimerSlots {
  import opened Arith
  import opened TimerSpec
  import opened TimerTable

  // The entries with turns to wait, one turn nearer.
  function Waits(a: seq<Entry>): seq<Entry> {
    if a == [] then []
    else (if a[0].rotation > 0 then [a[0].(rotation := a[0].rotation - 1)] else []) + Waits(a[1..])
  }

  // The entries that fire and are linked to slot s, another one than the pass is on.
  function Moves(a: seq<Entry>, s: nat, cur: nat, n: nat): seq<Entry>
    requires cur < n
  {
    if a == [] then []
    else
      (if a[0].rotation == 0 && a[0].timer.repeat && Target(a[0].timer, cur, n) == s
       then [Relinked(a[0].timer, n)] else []) + Moves(a[1..], s, cur, n)
  }

  // The entry that an entry which loops has become when it has been met again.
  function Turned(e: Entry, n: nat): Entry
    requires n > 0 && e.timer.expires > 0
  {
    Entry(e.timer, if e.timer.expires / n > 0 then e.timer.expires / n - 1 else 0)
  }

  // The entries that loop, but for a zero timer.
  function Rounds(a: seq<Entry>, n: nat): seq<Entry>
    requires n > 0
  {
    if a == [] then []
    else (if Loops(a[0], n) && !Zero(a[0]) then [Turned(a[0], n)] else []) + Rounds(a[1..], n)
  }

  function ZeroEntries(a: seq<Entry>): seq<Entry> {
    if a == [] then [] else (if Zero(a[0]) then [a[0]] else []) + ZeroEntries(a[1..])
  }

  // What stays on the slot of the pass: first the entries that have waited, then those that loop, and
  // last a zero timer.
  function Stays(a: seq<Entry>, n: nat): seq<Entry>
    requires n > 0
  {
    Waits(a) + (if Late(a, n) then [Relinked(a[|a| - 1].timer, n)] else Rounds(a, n)) + ZeroEntries(a)
  }

  function Settle(a: seq<Entry>, s: nat, cur: nat, n: nat): seq<Entry>
    requires cur < n
  {
    if s == cur then Stays(a, n) else Moves(a, s, cur, n)
  }

  lemma {:induction false} WaitsAppend(a: seq<Entry>, e: Entry)
    ensures Waits(a + [e]) == Waits(a) + if e.rotation > 0 then [e.(rotation := e.rotation - 1)] else []
  {
    if a == [] {
      assert a + [e] == [e];
    } else {
      assert (a + [e])[1..] == a[1..] + [e];
      WaitsAppend(a[1..], e);
    }
  }

  lemma {:induction false} MovesAppend(a: seq<Entry>, e: Entry, s: nat, cur: nat, n: nat)
    requires cur < n && Target(e.timer, cur, n) != s
    ensures Moves(a + [e], s, cur, n) == Moves(a, s, cur, n)
  {
    hide Target;
    if a == [] {
      assert a + [e] == [e];
    } else {
      assert (a + [e])[1..] == a[1..] + [e];
      MovesAppend(a[1..], e, s, cur, n);
    }
  }

  lemma {:induction false} RoundsAppend(a: seq<Entry>, e: Entry, n: nat)
    requires n > 0 && (!Loops(e, n) || Zero(e))
    ensures Rounds(a + [e], n) == Rounds(a, n)
    ensures ZeroEntries(a + [e]) == ZeroEntries(a) + if Zero(e) then [e] else []
  {
    hide Loops, Turned;
    if a == [] {
      assert a + [e] == [e];
    } else {
      assert (a + [e])[1..] == a[1..] + [e];
      RoundsAppend(a[1..], e, n);
    }
  }

  lemma {:induction false} NoZeroEntries(a: seq<Entry>)
    requires Zeros(a) == 0
    ensures ZeroEntries(a) == []
  {
    if a != [] {
      NoZeroEntries(a[1..]);
    }
  }

  // What the turn settles on slot s comes first, and the rest of the pass settles the rest.
  lemma StepMoves(p: Pass, s: nat)
    requires ValidPass(p) && Ahead(p) != [] && s != p.cur
    ensures var a, n, x := Ahead(p), |p.slots|, Settled(p);
            Moves(a, s, p.cur, n)
            == (if x != [] && x[0].0 == s then [x[0].1] else []) + Moves(Rest(a, p.cur, n), s, p.cur, n)
  {
    var a, n := Ahead(p), |p.slots|;
    SameSlot(a[0].timer, p.cur, n);
    if Rest(a, p.cur, n) != a[1..] {
      assert Relinked(a[0].timer, n).timer == a[0].timer;
      MovesAppend(a[1..], Relinked(a[0].timer, n), s, p.cur, n);
    }
    hide Target, Ahead;
  }

  lemma StaysIs(a: seq<Entry>, n: nat)
    requires n > 0
    ensures Stays(a, n) == Waits(a) + (if Late(a, n) then [Relinked(a[|a| - 1].timer, n)] else Rounds(a, n))
                           + ZeroEntries(a)
  {
  }

  // An entry that waits.
  lemma WaitingStays(a: seq<Entry>, cur: nat, n: nat)
    requires cur < n && a != [] && a[0].rotation > 0 && !Zero(a[0])
    ensures Stays(a, n) == [a[0].(rotation := a[0].rotation - 1)] + Stays(Rest(a, cur, n), n)
  {
    LateWaits(a, cur, n);
    OneWaits(a, n);
    hide Stays, Late, Rest, Waits, Rounds, ZeroEntries, Relinked;
    var b, x := a[1..], [a[0].(rotation := a[0].rotation - 1)];
    StaysIs(a, n);
    StaysIs(b, n);
    Regroup(x, Waits(b), if Late(b, n) then [Relinked(b[|b| - 1].timer, n)] else Rounds(b, n), ZeroEntries(b));
  }

  lemma Regroup(x: seq<Entry>, y: seq<Entry>, z: seq<Entry>, w: seq<Entry>)
    ensures x + y + z + w == x + (y + z + w)
    ensures x + (y + z) + w == (x + y) + z + w
  {
  }

  lemma OneWaits(a: seq<Entry>, n: nat)
    requires n > 0 && a != [] && a[0].rotation > 0 && !Zero(a[0])
    ensures Waits(a) == [a[0].(rotation := a[0].rotation - 1)] + Waits(a[1..])
    ensures !Loops(a[0], n) && Rounds(a, n) == Rounds(a[1..], n) && ZeroEntries(a) == ZeroEntries(a[1..])
  {
    hide Zero, Turned;
  }

  lemma LateWaits(a: seq<Entry>, cur: nat, n: nat)
    requires cur < n && a != [] && !Loops(a[0], n)
    ensures Rest(a, cur, n) == a[1..]
    ensures Late(a, n) == Late(a[1..], n) && (Late(a, n) ==> |a| > 1)
  {
    SameSlot(a[0].timer, cur, n);
    if |a| > 1 {
      LateRest(a, cur, n);
    }
  }

  // An entry that fires and is not on the slot any more.
  lemma LeavingStays(a: seq<Entry>, cur: nat, n: nat)
    requires cur < n && a != [] && a[0].rotation == 0 && !Loops(a[0], n)
    ensures Stays(a, n) == Stays(Rest(a, cur, n), n)
  {
    LateWaits(a, cur, n);
    OneLeaves(a, n);
    hide Stays, Late, Rest, Waits, Rounds, ZeroEntries, Relinked;
    StaysIs(a, n);
    StaysIs(a[1..], n);
  }

  lemma OneLeaves(a: seq<Entry>, n: nat)
    requires n > 0 && a != [] && a[0].rotation == 0 && !Loops(a[0], n)
    ensures Waits(a) == Waits(a[1..]) && Rounds(a, n) == Rounds(a[1..], n) && ZeroEntries(a) == ZeroEntries(a[1..])
  {
    DivMod(0, n);
    assert !Zero(a[0]);
    hide Zero, Turned, Loops;
  }

  // An entry that loops while others are ahead: it is met again with a lap to wait.
  lemma LoopingStays(a: seq<Entry>, cur: nat, n: nat)
    requires cur < n && |a| > 1 && Loops(a[0], n) && !Zero(a[0])
    ensures Stays(a, n) == Stays(Rest(a, cur, n), n)
  {
    var b, e := a[1..], Relinked(a[0].timer, n);
    NotLate(a, cur, n);
    OneLoops(a, n);
    SameSlot(a[0].timer, cur, n);
    assert Rest(a, cur, n) == b + [e];
    hide Stays, Late, Rest, Waits, Rounds, ZeroEntries, Relinked, Loops, Zero, Turned;
    StaysIs(a, n);
    StaysIs(b + [e], n);
    Regroup(Waits(b), [Turned(a[0], n)], Rounds(b, n), ZeroEntries(b));
  }

  lemma NotLate(a: seq<Entry>, cur: nat, n: nat)
    requires cur < n && |a| > 1 && Loops(a[0], n)
    ensures !Late(a, n) && !Late(Rest(a, cur, n), n)
  {
    assert !Late(a, n);
    LateRest(a, cur, n);
  }

  lemma OneLoops(a: seq<Entry>, n: nat)
    requires n > 0 && a != [] && Loops(a[0], n) && !Zero(a[0])
    ensures var b, e, t := a[1..], Relinked(a[0].timer, n), [Turned(a[0], n)];
            && Waits(a) == Waits(b) && Waits(b + [e]) == Waits(b) + t
            && Rounds(a, n) == t + Rounds(b, n) && Rounds(b + [e], n) == Rounds(b, n)
            && ZeroEntries(a) == ZeroEntries(b) == ZeroEntries(b + [e])
  {
    var b, e := a[1..], Relinked(a[0].timer, n);
    SameSlot(a[0].timer, 0, n);
    assert e.rotation > 0 && !Zero(e) && !Loops(e, n);
    assert e.(rotation := e.rotation - 1) == Turned(a[0], n);
    hide Loops, Zero, Relinked, Turned;
    WaitsAppend(b, e);
    RoundsAppend(b, e, n);
    assert ZeroEntries(b) + [] == ZeroEntries(b);
  }

  // A zero timer while others are ahead.
  lemma ZeroStays(a: seq<Entry>, cur: nat, n: nat)
    requires cur < n && |a| > 1 && Zero(a[0]) && a[0].rotation == 0 && Zeros(a) <= 1
    ensures Stays(a, n) == Stays(Rest(a, cur, n), n)
  {
    var b := a[1..];
    ZeroRest(a, cur, n);
    DivMod(0, n);
    NotLate(a, cur, n);
    OneZero(a, n);
    hide Stays, Late, Rest, Waits, Rounds, ZeroEntries, Relinked, Loops, Zero, Turned, Zeros;
    StaysIs(a, n);
    StaysIs(b + [a[0]], n);
  }

  lemma OneZero(a: seq<Entry>, n: nat)
    requires n > 0 && a != [] && Zero(a[0]) && a[0].rotation == 0 && Zeros(a[1..]) == 0
    ensures var b := a[1..];
            && Waits(a) == Waits(b) == Waits(b + [a[0]]) && Rounds(a, n) == Rounds(b, n) == Rounds(b + [a[0]], n)
            && ZeroEntries(a) == [a[0]] == ZeroEntries(b + [a[0]])
  {
    var b := a[1..];
    hide Loops, Zero, Turned, Zeros;
    WaitsAppend(b, a[0]);
    RoundsAppend(b, a[0], n);
    NoZeroEntries(b);
    assert Waits(b) + [] == Waits(b);
  }

  // An entry that loops and is the last one ahead.
  lemma LastStays(a: seq<Entry>, cur: nat, n: nat)
    requires cur < n && |a| == 1 && Loops(a[0], n)
    ensures Rest(a, cur, n) == [] && Stays([], n) == []
    ensures Stays(a, n) == [Relinked(a[0].timer, n)]
  {
    assert a == [a[0]] && a[1..] == [];
    DivMod(0, n);
    assert Late(a, n) <==> !Zero(a[0]);
    hide Late, Loops, Turned;
    if Zero(a[0]) {
      assert a[0] == Relinked(a[0].timer, n);
    }
  }

  // What the turn settles on slot s.
  function SettledOn(p: Pass, s: nat): seq<Entry>
    requires p.cur < |p.slots| && p.behind < |p.slots[p.cur]|
  {
    if Settled(p) != [] && Settled(p)[0].0 == s then [Settled(p)[0].1] else []
  }

  lemma SettledIs(p: Pass)
    requires ValidPass(p) && Ahead(p) != []
    ensures var a, n := Ahead(p), |p.slots|; var e := a[0];
            && (Zero(e) ==> e.rotation == 0)
            && SettledOn(p, p.cur) == if e.rotation > 0 then [e.(rotation := e.rotation - 1)]
                                      else if Loops(e, n) && |a| == 1 then [Relinked(e.timer, n)] else []
  {
    SameSlot(Ahead(p)[0].timer, p.cur, |p.slots|);
    assert Ahead(p)[0] in p.slots[p.cur];
  }

  lemma FirstStays(a: seq<Entry>, cur: nat, n: nat)
    requires cur < n && a != [] && Zeros(a) <= 1 && (Zero(a[0]) ==> a[0].rotation == 0)
    ensures var e := a[0];
            Stays(a, n) == (if e.rotation > 0 then [e.(rotation := e.rotation - 1)]
                            else if Loops(e, n) && |a| == 1 then [Relinked(e.timer, n)] else [])
                           + Stays(Rest(a, cur, n), n)
  {
    hide Stays, Rest, Loops, Zeros, Zero, Relinked;
    if a[0].rotation > 0 {
      WaitingStays(a, cur, n);
    } else if !Loops(a[0], n) {
      LeavingStays(a, cur, n);
    } else if |a| == 1 {
      LastStays(a, cur, n);
    } else if Zero(a[0]) {
      ZeroStays(a, cur, n);
    } else {
      LoopingStays(a, cur, n);
    }
  }

  lemma StepSettle(p: Pass, s: nat)
    requires ValidPass(p) && Ahead(p) != [] && Zeros(Ahead(p)) <= 1 && s < |p.slots|
    ensures ValidPass(Step(p)) && |Step(p).slots| == |p.slots| && Step(p).cur == p.cur
    ensures Behind(Step(p))[s] + Settle(Ahead(Step(p)), s, p.cur, |p.slots|)
            == Behind(p)[s] + Settle(Ahead(p), s, p.cur, |p.slots|)
  {
    hide Settle, Settled, Behind, SettledOn, Zeros;
    var a, n := Ahead(p), |p.slots|;
    RestAhead(p);
    SettleFirst(p, s);
    BehindGrows(p, s);
    hide Step, Ahead, Rest;
    Rejoin(Behind(p)[s], SettledOn(p, s), Settle(Rest(a, p.cur, n), s, p.cur, n));
  }

  lemma Rejoin(x: seq<Entry>, y: seq<Entry>, z: seq<Entry>)
    ensures x + y + z == x + (y + z)
  {
  }

  lemma RestAhead(p: Pass)
    requires ValidPass(p) && Ahead(p) != []
    ensures var q := Step(p); ValidPass(q) && |q.slots| == |p.slots| && q.cur == p.cur
    ensures Ahead(Step(p)) == Rest(Ahead(p), p.cur, |p.slots|)
  {
    StepAhead(p);
    StepBehindSame(p);
    hide Step;
  }

  lemma BehindGrows(p: Pass, s: nat)
    requires ValidPass(p) && Ahead(p) != [] && s < |p.slots|
    ensures var q := Step(p); q.cur == p.cur && |q.slots| == |p.slots| && q.behind <= |q.slots[q.cur]|
    ensures |Behind(p)| == |p.slots| && Behind(Step(p))[s] == Behind(p)[s] + SettledOn(p, s)
  {
    StepBehind(p);
    hide Step, Settled;
  }

  lemma SettleFirst(p: Pass, s: nat)
    requires ValidPass(p) && Ahead(p) != [] && Zeros(Ahead(p)) <= 1 && s < |p.slots|
    ensures var a, n := Ahead(p), |p.slots|;
            Settle(a, s, p.cur, n) == SettledOn(p, s) + Settle(Rest(a, p.cur, n), s, p.cur, n)
  {
    if s == p.cur {
      SettledIs(p);
      hide SettledOn, Stays, Rest, Zeros, Zero, Loops, Relinked, Ahead;
      FirstStays(Ahead(p), p.cur, |p.slots|);
    } else {
      StepMoves(p, s);
      hide Rest, Moves, Ahead, Settled;
    }
  }

  // What the rest of a pass leaves on any slot.
  lemma {:induction false} FinishSettles(p: Pass, s: nat)
    requires ValidPass(p) && Zeros(Ahead(p)) <= 1 && s < |p.slots|
    ensures Finish(p).slots[s] == Behind(p)[s] + Settle(Ahead(p), s, p.cur, |p.slots|)
    decreases Measure(p).0, Measure(p).1, Measure(p).2
  {
    if Ahead(p) == [] {
      assert p.slots[p.cur][..p.behind] == p.slots[p.cur];
      assert Settle([], s, p.cur, |p.slots|) == [];
    } else {
      StepSettle(p, s);
      StepDecreases(p);
      hide Step, Settle, Behind, Zeros;
      FinishSettles(Step(p), s);
    }
  }

  // The slots after a pass: other slots have the timers that are linked to them behind what was
  // there, in list order, and the slot of the pass has what stays.
  lemma TickSlots(w: Wheel, s: nat)
    requires ValidWheel(w) && Zeros(w.slots[w.cur]) <= 1 && s < |w.slots|
    ensures var l, n := w.slots[w.cur], |w.slots|;
            Tick(w).0.slots[s] == if s == w.cur then Stays(l, n) else w.slots[s] + Moves(l, s, w.cur, n)
  {
    var p := Start(w);
    assert Ahead(p) == w.slots[w.cur];
    FinishSettles(p, s);
    hide Stays, Moves;
    assert Behind(p) == w.slots[w.cur := []];
    assert [] + Stays(w.slots[w.cur], |w.slots|) == Stays(w.slots[w.cur], |w.slots|);
  }
}
