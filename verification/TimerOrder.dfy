// The order of the timers on a slot: timers that fall due in the same pass are called in the order
// in which they were linked to their slot.
module TimerOrder {
  import opened Arith
  import HyList
  import opened TimerSpec
  import opened TimerTable
  import opened TimerRuns
  import opened TimerSlots

  // ---- One timer in front of another ---------------------------------------------------------------

  // The entry x is on the list, in front of all entries of the timer u.
  predicate InFront(l: seq<Entry>, x: Entry, u: Timer) {
    exists i :: 0 <= i < |l| && l[i] == x && forall j :: 0 <= j <= i ==> l[j].timer != u
  }

  predicate Without(l: seq<Entry>, u: Timer) {
    forall e <- l :: e.timer != u
  }

  // The slot and the turns of a timer that has r passes to wait.
  function Place(cur: nat, r: nat, n: nat): (s: nat)
    requires n > 0
    ensures s < n
  {
    (cur + r) % n
  }

  function Turns(r: nat, n: nat): nat
    requires n > 0
  {
    r / n
  }

  // The timer t has r passes to wait, and is in front of u on its slot if u is there.
  predicate Leads(w: Wheel, t: Timer, u: Timer, r: nat)
    requires w.cur < |w.slots|
  {
    InFront(w.slots[Place(w.cur, r, |w.slots|)], Entry(t, Turns(r, |w.slots|)), u)
  }

  lemma InFrontOfMore(l: seq<Entry>, m: seq<Entry>, x: Entry, u: Timer)
    requires InFront(l, x, u)
    ensures InFront(l + m, x, u)
  {
    var i :| 0 <= i < |l| && l[i] == x && forall j :: 0 <= j <= i ==> l[j].timer != u;
    assert (l + m)[i] == x && forall j :: 0 <= j <= i ==> (l + m)[j] == l[j];
  }

  lemma InFrontBehind(l: seq<Entry>, m: seq<Entry>, x: Entry, u: Timer)
    requires Without(l, u) && InFront(m, x, u)
    ensures InFront(l + m, x, u)
  {
    var i :| 0 <= i < |m| && m[i] == x && forall j :: 0 <= j <= i ==> m[j].timer != u;
    assert (l + m)[|l| + i] == x;
    assert forall j :: 0 <= j <= |l| + i ==> (l + m)[j] == if j < |l| then l[j] else m[j - |l|];
  }

  lemma InFrontRest(l: seq<Entry>, x: Entry, u: Timer)
    requires InFront(l, x, u)
    ensures l != [] && l[0].timer != u && (l[0] == x || InFront(l[1..], x, u))
  {
    var i :| 0 <= i < |l| && l[i] == x && forall j :: 0 <= j <= i ==> l[j].timer != u;
    if i > 0 {
      assert l[1..][i - 1] == x && forall j :: 0 <= j <= i - 1 ==> l[1..][j] == l[j + 1];
    }
  }

  lemma FirstInFront(l: seq<Entry>, x: Entry, u: Timer)
    requires l != [] && l[0] == x && x.timer != u
    ensures InFront(l, x, u)
  {
  }

  // One entry, or none, and what follows.
  lemma OneThenMore(y: seq<Entry>, m: seq<Entry>, x: Entry, u: Timer)
    requires Without(y, u) && ((y != [] && y[0] == x) || InFront(m, x, u))
    ensures InFront(y + m, x, u)
  {
    if y != [] && y[0] == x {
      FirstInFront(y + m, x, u);
    } else {
      InFrontBehind(y, m, x, u);
    }
  }

  lemma {:induction false} WaitsInOrder(a: seq<Entry>, x: Entry, u: Timer)
    requires InFront(a, x, u) && x.rotation > 0
    ensures InFront(Waits(a), x.(rotation := x.rotation - 1), u)
  {
    InFrontRest(a, x, u);
    if a[0] != x {
      WaitsInOrder(a[1..], x, u);
    }
    hide InFront;
    OneThenMore(if a[0].rotation > 0 then [a[0].(rotation := a[0].rotation - 1)] else [], Waits(a[1..]),
                x.(rotation := x.rotation - 1), u);
  }

  lemma {:induction false} MovesInOrder(a: seq<Entry>, x: Entry, u: Timer, s: nat, cur: nat, n: nat)
    requires cur < n && InFront(a, x, u) && x.rotation == 0 && x.timer.repeat && Target(x.timer, cur, n) == s
    ensures InFront(Moves(a, s, cur, n), Relinked(x.timer, n), u)
  {
    InFrontRest(a, x, u);
    if a[0] != x {
      MovesInOrder(a[1..], x, u, s, cur, n);
    }
    var y := if a[0].rotation == 0 && a[0].timer.repeat && Target(a[0].timer, cur, n) == s
             then [Relinked(a[0].timer, n)] else [];
    hide InFront, Target;
    OneThenMore(y, Moves(a[1..], s, cur, n), Relinked(x.timer, n), u);
  }

  lemma {:induction false} RoundsInOrder(a: seq<Entry>, x: Entry, u: Timer, n: nat)
    requires n > 0 && InFront(a, x, u) && Loops(x, n) && !Zero(x)
    ensures InFront(Rounds(a, n), Turned(x, n), u)
  {
    InFrontRest(a, x, u);
    if a[0] != x {
      RoundsInOrder(a[1..], x, u, n);
    }
    var y := if Loops(a[0], n) && !Zero(a[0]) then [Turned(a[0], n)] else [];
    hide InFront;
    OneThenMore(y, Rounds(a[1..], n), Turned(x, n), u);
  }

  lemma {:induction false} WaitsWithout(a: seq<Entry>, u: Timer)
    requires forall e <- a :: e.timer == u ==> e.rotation == 0
    ensures Without(Waits(a), u)
  {
    if a != [] {
      assert a == [a[0]] + a[1..];
      WaitsWithout(a[1..], u);
    }
  }

  // f calls t, and does not call u before.
  predicate CallsFirst(f: seq<Timer>, t: Timer, u: Timer) {
    exists i :: 0 <= i < |f| && f[i] == t && u !in f[..i + 1]
  }

  lemma CallsFirstOf(y: seq<Timer>, f: seq<Timer>, t: Timer, u: Timer)
    requires u !in y && t != u && ((y != [] && y[0] == t) || CallsFirst(f, t, u))
    ensures CallsFirst(y + f, t, u)
  {
    if y != [] && y[0] == t {
      var g := y + f;
      assert g[0] == t && g[..0 + 1] == [t];
    } else {
      var i :| 0 <= i < |f| && f[i] == t && u !in f[..i + 1];
      assert (y + f)[|y| + i] == t && (y + f)[..|y| + i + 1] == y + f[..i + 1];
    }
  }

  lemma CallsFirstAndMore(y: seq<Timer>, f: seq<Timer>, t: Timer, u: Timer)
    requires CallsFirst(y, t, u)
    ensures CallsFirst(y + f, t, u)
  {
    var i :| 0 <= i < |y| && y[i] == t && u !in y[..i + 1];
    assert (y + f)[i] == t && (y + f)[..i + 1] == y[..i + 1];
  }

  lemma {:induction false} DueInOrder(l: seq<Entry>, t: Timer, u: Timer)
    requires InFront(l, Entry(t, 0), u)
    ensures CallsFirst(Due(l), t, u)
  {
    InFrontRest(l, Entry(t, 0), u);
    if l[0] != Entry(t, 0) {
      DueInOrder(l[1..], t, u);
    }
    hide InFront, CallsFirst;
    CallsFirstOf(if l[0].rotation == 0 then [l[0].timer] else [], Due(l[1..]), t, u);
  }

  lemma {:induction false} FiresInOrder(l: seq<Entry>, t: Timer, u: Timer, n: nat, back: bool)
    requires n > 0 && InFront(l, Entry(t, 0), u) && forall e <- l :: Zero(e) ==> e.rotation == 0
    ensures CallsFirst(Fires(l, n, back), t, u)
  {
    InFrontRest(l, Entry(t, 0), u);
    assert l == [l[0]] + l[1..];
    var z := l[0].timer;
    if Zero(l[0]) {
      ZeroShape(l, n, back);
      if l[0] != Entry(t, 0) {
        DueInOrder(l[1..], t, u);
      }
      hide InFront, CallsFirst, Fires, Due;
      VisitsInOrder(z, Due(l[1..]), Again(l, n, back), t, u);
    } else {
      var y := if l[0].rotation == 0 then [z] else [];
      if l[0] != Entry(t, 0) {
        FiresInOrder(l[1..], t, u, n, back || Loops(l[0], n));
      }
      hide InFront, CallsFirst, Loops;
      CallsFirstOf(y, Fires(l[1..], n, back || Loops(l[0], n)), t, u);
    }
  }

  lemma VisitsInOrder(z: Timer, d: seq<Timer>, k: nat, t: Timer, u: Timer)
    requires z != u && t != u && (z == t || (CallsFirst(d, t, u)))
    ensures CallsFirst(Visits(z, d, k), t, u)
  {
    if z != t {
      hide CallsFirst;
      CallsFirstAndMore(d, [z], t, u);
      CallsFirstAndMore(d + [z], [z], t, u);
    }
    hide CallsFirst;
    CallsFirstOf([z], if k == 0 then d else if k == 1 then d + [z] else d + [z] + [z], t, u);
  }

  // ---- Over one pass ------------------------------------------------------------------------------

  lemma OneTurnLess(r: nat, n: nat)
    requires n > 0
    ensures (r + 1) % n == 0 ==> (r + 1) / n >= 1 && r / n == (r + 1) / n - 1
    ensures (r + 1) % n != 0 ==> r / n == (r + 1) / n
  {
    var d, k := (r + 1) % n, (r + 1) / n;
    DivMod(r + 1, n);
    if d == 0 {
      TimesNone(k, n);
      MulSum(k - 1, 1, n);
      DivModUnique(k - 1, n, n - 1);
    } else {
      DivModUnique(k, n, d - 1);
    }
  }

  lemma TimesNone(k: nat, n: nat)
    requires k * n > 0
    ensures k > 0
  {
  }

  lemma BackHere(cur: nat, m: nat, n: nat)
    requires cur < n
    ensures (cur + m) % n == cur <==> m % n == 0
  {
    ModAdd(m, cur, n);
    ModWrap(m % n, cur, n);
  }

  // Where a timer with r passes to wait stands one pass later.
  lemma PlaceOf(cur: nat, r: nat, n: nat)
    requires cur < n
    ensures Place(Next(cur, n), r, n) == Place(cur, r + 1, n)
    ensures Place(cur, r + 1, n) == cur ==> Turns(r + 1, n) >= 1 && Turns(r, n) == Turns(r + 1, n) - 1
    ensures Place(cur, r + 1, n) != cur ==> Turns(r, n) == Turns(r + 1, n)
  {
    NextPlace(cur, r, n);
    BackHere(cur, r + 1, n);
    OneTurnLess(r, n);
  }

  lemma NextPlace(cur: nat, r: nat, n: nat)
    requires cur < n
    ensures (Next(cur, n) + r) % n == (cur + (r + 1)) % n
  {
    ModAdd(cur + 1, r, n);
    assert cur + 1 + r == cur + (r + 1);
  }

  lemma TickAt(w: Wheel, s: nat)
    requires ValidWheel(w) && Zeros(w.slots[w.cur]) <= 1 && s < |w.slots|
    ensures var v, l, n := Tick(w).0, w.slots[w.cur], |w.slots|;
            && v.cur == Next(w.cur, n) && |v.slots| == n
            && v.slots[s] == if s == w.cur then Stays(l, n) else w.slots[s] + Moves(l, s, w.cur, n)
  {
    TickSlots(w, s);
    hide Stays, Moves, Next;
  }

  // A timer that has passes to wait stays in front of another one.
  lemma TickKeepsLead(w: Wheel, t: Timer, u: Timer, r: nat)
    requires ValidWheel(w) && Zeros(w.slots[w.cur]) <= 1 && Leads(w, t, u, r + 1)
    ensures Leads(Tick(w).0, t, u, r)
  {
    var n, v, s := |w.slots|, Tick(w).0, Place(w.cur, r + 1, |w.slots|);
    assert InFront(w.slots[s], Entry(t, Turns(r + 1, n)), u);
    TickAt(w, s);
    hide Tick, InFront, Stays, Moves, Leads, Next, Proper, Zeros, Place, Turns;
    PlaceOf(w.cur, r, n);
    if s == w.cur {
      var l := w.slots[s];
      WaitsInOrder(l, Entry(t, Turns(r + 1, n)), u);
      StaysAfterWaits(l, n, Entry(t, Turns(r, n)), u);
    } else {
      InFrontOfMore(w.slots[s], Moves(w.slots[w.cur], s, w.cur, n), Entry(t, Turns(r, n)), u);
    }
    LeadsAt(v, t, u, r, s);
  }

  lemma StaysAfterWaits(l: seq<Entry>, n: nat, x: Entry, u: Timer)
    requires n > 0 && InFront(Waits(l), x, u)
    ensures InFront(Stays(l, n), x, u)
  {
    hide InFront;
    StaysIs(l, n);
    var y := if Late(l, n) then [Relinked(l[|l| - 1].timer, n)] else Rounds(l, n);
    hide Stays, Late;
    InFrontOfMore(Waits(l), y, x, u);
    InFrontOfMore(Waits(l) + y, ZeroEntries(l), x, u);
  }

  // A timer with nothing left to wait is called before one that it is in front of.
  lemma TickCallsFirst(w: Wheel, t: Timer, u: Timer)
    requires ValidWheel(w) && Zeros(w.slots[w.cur]) <= 1 && Leads(w, t, u, 0)
    ensures CallsFirst(Tick(w).1, t, u)
  {
    var n := |w.slots|;
    DivMod(0, n);
    DivMod(w.cur, n);
    TickFired(w);
    hide Tick, CallsFirst, InFront, Fires;
    FiresInOrder(w.slots[w.cur], t, u, n, false);
  }

  // ---- Where the timers of the table stand -----------------------------------------------------------

  lemma {:induction false} Counted(slots: seq<seq<Entry>>, cur: nat, row: Row, k: nat, s: nat, i: nat)
    requires cur < |slots| && k <= s < |slots| && i < |slots[s]|
    requires slots[s][i].timer == row.timer
    requires Dist(s, cur, |slots|) + slots[s][i].rotation * |slots| == row.left
    ensures CountFrom(slots, cur, row, k) >= 1
    decreases |slots| - k
  {
    if k == s {
      CountIn(slots[s], row, Dist(s, cur, |slots|), |slots|, i);
    } else {
      Counted(slots, cur, row, k + 1, s, i);
    }
  }

  lemma {:induction false} CountOut(l: seq<Entry>, row: Row, d: nat, n: nat) returns (i: nat)
    requires Count(l, row, d, n) >= 1
    ensures i < |l| && l[i].timer == row.timer && d + l[i].rotation * n == row.left
  {
    if l[0].timer == row.timer && d + l[0].rotation * n == row.left {
      i := 0;
    } else {
      var j := CountOut(l[1..], row, d, n);
      i := j + 1;
    }
  }

  lemma {:induction false} TableOut(slots: seq<seq<Entry>>, cur: nat, row: Row, k: nat) returns (s: nat, i: nat)
    requires cur < |slots| && k <= |slots| && CountFrom(slots, cur, row, k) >= 1
    ensures s < |slots| && i < |slots[s]| && slots[s][i].timer == row.timer
    ensures Dist(s, cur, |slots|) + slots[s][i].rotation * |slots| == row.left
    decreases |slots| - k
  {
    if Count(slots[k], row, Dist(k, cur, |slots|), |slots|) >= 1 {
      s := k;
      i := CountOut(slots[k], row, Dist(k, cur, |slots|), |slots|);
    } else {
      s, i := TableOut(slots, cur, row, k + 1);
    }
  }

  // A timer that waits stands in the slot and with the turns that its passes tell.
  lemma AwaitsAt(w: Wheel, t: Timer, r: nat) returns (i: nat)
    requires w.cur < |w.slots| && Table(w, Row(t, r)) >= 1
    ensures var s := Place(w.cur, r, |w.slots|); i < |w.slots[s]| && w.slots[s][i] == Entry(t, Turns(r, |w.slots|))
  {
    var n := |w.slots|;
    var s, j := TableOut(w.slots, w.cur, Row(t, r), 0);
    i := j;
    var d, k := Dist(s, w.cur, n), w.slots[s][i].rotation;
    DivModUnique(k, n, d);
    ModAdd(r, w.cur, n);
  }

  // A timer whose handle is in use once is nowhere else.
  lemma NowhereElse(w: Wheel, u: Timer, r: nat, s: nat, i: nat)
    requires w.cur < |w.slots| && Awaits(w, u, r)
    requires s < |w.slots| && i < |w.slots[s]| && w.slots[s][i].timer == u
    ensures s == Place(w.cur, r, |w.slots|) && w.slots[s][i].rotation == Turns(r, |w.slots|)
  {
    var n := |w.slots|;
    var d, k := Dist(s, w.cur, n), w.slots[s][i].rotation;
    Counted(w.slots, w.cur, Row(u, d + k * n), 0, s, i);
    if d + k * n != r {
      TableUsesOf(w, u, r, d + k * n);
    } else {
      DivModUnique(k, n, d);
      ModAdd(r, w.cur, n);
    }
  }

  lemma {:induction false} NotInUse(slots: seq<seq<Entry>>, u: Timer, k: nat, s: nat)
    requires k <= s < |slots| && UsesFrom(slots, u.id, k) == 0
    ensures Without(slots[s], u)
    decreases |slots| - k
  {
    if k == s {
      NoUses(slots[s], u);
    } else {
      NotInUse(slots, u, k + 1, s);
    }
  }

  lemma {:induction false} NoUses(l: seq<Entry>, u: Timer)
    requires Uses(l, u.id) == 0
    ensures Without(l, u)
  {
    if l != [] {
      NoUses(l[1..], u);
      assert l == [l[0]] + l[1..];
    }
  }

  lemma FrontAt(l: seq<Entry>, i: nat, u: Timer)
    requires i < |l| && Without(l, u)
    ensures InFront(l, l[i], u)
  {
    assert forall j :: 0 <= j <= i ==> l[j] in l;
  }

  // ---- Who is linked later -------------------------------------------------------------------------

  // A timer that is added is behind all that wait.
  lemma AddedBehind(w: Wheel, t: Timer, u: Timer, r: nat)
    requires w.cur < |w.slots| && InUse(w, u.id) == 0 && Table(w, Row(t, r)) >= 1
    ensures Leads(AddTimer(w, u), t, u, r)
  {
    var s := Place(w.cur, r, |w.slots|);
    var i := AwaitsAt(w, t, r);
    NotInUse(w.slots, u, 0, s);
    FrontAt(w.slots[s], i, u);
    hide InFront;
    InFrontOfMore(w.slots[s], [Relinked(u, |w.slots|)], Entry(t, Turns(r, |w.slots|)), u);
  }

  // A timer that is linked again in a pass is behind all that were waiting.
  lemma RelinkedBehind(w: Wheel, t: Timer, u: Timer, r: nat)
    requires ValidWheel(w) && Zeros(w.slots[w.cur]) <= 1 && Table(w, Row(t, r + 1)) >= 1 && Awaits(w, u, 0)
    ensures Leads(Tick(w).0, t, u, r)
  {
    var n, v, s := |w.slots|, Tick(w).0, Place(w.cur, r + 1, |w.slots|);
    TickAt(w, s);
    hide Tick, InFront, Stays, Moves, Awaits, Leads, Next, Proper, Zeros, Table, Place, Turns;
    var i := AwaitsAt(w, t, r + 1);
    PlaceOf(w.cur, r, n);
    if s == w.cur {
      WaitsBeforeFired(w, t, u, r, i);
      StaysAfterWaits(w.slots[s], n, Entry(t, Turns(r, n)), u);
    } else {
      NotOnOther(w, u, s);
      FrontAt(w.slots[s], i, u);
      InFrontOfMore(w.slots[s], Moves(w.slots[w.cur], s, w.cur, n), Entry(t, Turns(r, n)), u);
    }
    LeadsAt(v, t, u, r, s);
  }

  lemma DueHere(w: Wheel, u: Timer, s: nat, i: nat)
    requires w.cur < |w.slots| && Awaits(w, u, 0) && s < |w.slots| && i < |w.slots[s]| && w.slots[s][i].timer == u
    ensures s == w.cur && w.slots[s][i].rotation == 0
  {
    NowhereElse(w, u, 0, s, i);
    DivMod(0, |w.slots|);
    DivMod(w.cur, |w.slots|);
  }

  lemma NotOnOther(w: Wheel, u: Timer, s: nat)
    requires w.cur < |w.slots| && Awaits(w, u, 0) && s < |w.slots| && s != w.cur
    ensures Without(w.slots[s], u)
  {
    forall e | e in w.slots[s]
      ensures e.timer != u
    {
      var i :| 0 <= i < |w.slots[s]| && w.slots[s][i] == e;
      if e.timer == u {
        DueHere(w, u, s, i);
      }
    }
  }

  lemma FiredDoesNotWait(w: Wheel, u: Timer)
    requires w.cur < |w.slots| && Awaits(w, u, 0)
    ensures Without(Waits(w.slots[w.cur]), u)
  {
    var l := w.slots[w.cur];
    forall e | e in l && e.timer == u
      ensures e.rotation == 0
    {
      var i :| 0 <= i < |l| && l[i] == e;
      DueHere(w, u, w.cur, i);
    }
    WaitsWithout(l, u);
  }

  lemma {:induction false} WaitsHas(a: seq<Entry>, i: nat) returns (j: nat)
    requires i < |a| && a[i].rotation > 0
    ensures j < |Waits(a)| && Waits(a)[j] == a[i].(rotation := a[i].rotation - 1)
  {
    if i == 0 {
      j := 0;
    } else {
      var k := WaitsHas(a[1..], i - 1);
      j := k + if a[0].rotation > 0 then 1 else 0;
    }
  }

  lemma WaitsBeforeFired(w: Wheel, t: Timer, u: Timer, r: nat, i: nat)
    requires w.cur < |w.slots| && Awaits(w, u, 0) && i < |w.slots[w.cur]|
    requires w.slots[w.cur][i] == Entry(t, Turns(r + 1, |w.slots|))
    requires Turns(r + 1, |w.slots|) - 1 == Turns(r, |w.slots|)
    ensures InFront(Waits(w.slots[w.cur]), Entry(t, Turns(r, |w.slots|)), u)
  {
    FiredDoesNotWait(w, u);
    var j := WaitsHas(w.slots[w.cur], i);
    FrontAt(Waits(w.slots[w.cur]), j, u);
  }

  lemma LeadsAt(v: Wheel, t: Timer, u: Timer, r: nat, s: nat)
    requires v.cur < |v.slots| && s == Place(v.cur, r, |v.slots|)
    requires InFront(v.slots[s], Entry(t, Turns(r, |v.slots|)), u)
    ensures Leads(v, t, u, r)
  {
  }

  // Where a timer that is linked to another slot stands.
  lemma MovedPlace(cur: nat, t: Timer, n: nat)
    requires cur < n && t.expires % n != 0
    ensures t.expires > 0 && Target(t, cur, n) != cur
    ensures Place(Next(cur, n), t.expires - 1, n) == Target(t, cur, n)
    ensures Entry(t, Turns(t.expires - 1, n)) == Relinked(t, n)
  {
    DivMod(0, n);
    SameSlot(t, cur, n);
    ModAdd(t.expires, cur, n);
    PlaceOf(cur, t.expires - 1, n);
  }

  // Where one stands that is linked to its own slot again, a lap later if it is late.
  lemma RoundPlace(cur: nat, t: Timer, n: nat, late: bool)
    requires cur < n && t.expires % n == 0 && t.expires > 0
    ensures var r := t.expires + (if late then n else 0) - 1;
            && Place(Next(cur, n), r, n) == cur
            && Entry(t, Turns(r, n)) == if late then Relinked(t, n) else Turned(Entry(t, 0), n)
  {
    var m := t.expires + if late then n else 0;
    LapMore(t.expires, n);
    BackHere(cur, m, n);
    PlaceOf(cur, m - 1, n);
    hide Place, Next;
  }

  lemma LapMore(m: nat, n: nat)
    requires n > 0 && m % n == 0
    ensures (m + n) % n == 0 && (m + n) / n == m / n + 1
  {
    DivMod(m, n);
    MulSum(m / n, 1, n);
    DivModUnique(m / n + 1, n, 0);
  }

  lemma OnlyLoop(l: seq<Entry>, x: Entry, u: Timer, n: nat)
    requires n > 0 && InFront(l, x, u) && Loops(x, n) && Late(l, n)
    ensures l[|l| - 1] == x
  {
    hide Loops;
  }

  lemma MovesOn(w: Wheel, t: Timer, u: Timer)
    requires ValidWheel(w) && Zeros(w.slots[w.cur]) <= 1 && Leads(w, t, u, 0) && Awaits(w, u, 0)
    requires t.repeat && t.expires % |w.slots| != 0
    ensures Leads(Tick(w).0, t, u, Gap(w, t) - 1)
  {
    hide Tick, InFront, Stays, Moves, Awaits, Leads, Target, Place, Turns, Next, Relinked, Proper, Zeros, Gap;
    var n, v, l, s := |w.slots|, Tick(w).0, w.slots[w.cur], Target(t, w.cur, |w.slots|);
    LeadsNow(w, t, u);
    TickAt(w, s);
    OnTimeGap(w, t);
    MovedPlace(w.cur, t, n);
    NotOnOther(w, u, s);
    MovesInOrder(l, Entry(t, 0), u, s, w.cur, n);
    InFrontBehind(w.slots[s], Moves(l, s, w.cur, n), Relinked(t, n), u);
    LeadsAt(v, t, u, t.expires - 1, s);
  }

  lemma OnTimeGap(w: Wheel, t: Timer)
    requires w.cur < |w.slots| && t.expires % |w.slots| != 0
    ensures t.expires > 0 && Gap(w, t) == t.expires
  {
    LateLoops(w, t);
    hide ComesLate;
  }

  lemma LateGap(w: Wheel, t: Timer)
    requires w.cur < |w.slots| && t.expires > 0
    ensures var l, n := w.slots[w.cur], |w.slots|;
            Gap(w, t) == t.expires + if l != [] && Late(l, n) && l[|l| - 1].timer == t then n else 0
  {
  }

  lemma LeadsNow(w: Wheel, t: Timer, u: Timer)
    requires w.cur < |w.slots|
    ensures Leads(w, t, u, 0) <==> InFront(w.slots[w.cur], Entry(t, 0), u)
  {
    DivMod(0, |w.slots|);
    DivMod(w.cur, |w.slots|);
  }

  lemma RoundInOrder(l: seq<Entry>, t: Timer, u: Timer, n: nat)
    requires n > 0 && InFront(l, Entry(t, 0), u) && t.repeat && t.expires > 0 && t.expires % n == 0
    requires Without(Waits(l), u)
    ensures var late := l != [] && Late(l, n) && l[|l| - 1].timer == t;
            InFront(Stays(l, n), if late then Relinked(t, n) else Turned(Entry(t, 0), n), u)
  {
    var x := Entry(t, 0);
    assert Loops(x, n) && !Zero(x);
    var y := if Late(l, n) then [Relinked(l[|l| - 1].timer, n)] else Rounds(l, n);
    if Late(l, n) {
      OnlyLoop(l, x, u, n);
      FrontIsOther(l, x, u);
      FirstInFront(y, Relinked(t, n), u);
    } else {
      RoundsInOrder(l, x, u, n);
    }
    StaysIs(l, n);
    hide Stays, Late, InFront, Without, Relinked, Turned;
    var z := if Late(l, n) then Relinked(t, n) else Turned(x, n);
    InFrontBehind(Waits(l), y, z, u);
    InFrontOfMore(Waits(l) + y, ZeroEntries(l), z, u);
  }

  lemma FrontIsOther(l: seq<Entry>, x: Entry, u: Timer)
    requires InFront(l, x, u)
    ensures x.timer != u
  {
  }

  lemma RoundStays(w: Wheel, t: Timer, u: Timer)
    requires ValidWheel(w) && Zeros(w.slots[w.cur]) <= 1 && Leads(w, t, u, 0) && Awaits(w, u, 0)
    requires t.repeat && t.expires > 0 && t.expires % |w.slots| == 0
    ensures Leads(Tick(w).0, t, u, Gap(w, t) - 1)
  {
    hide Tick, InFront, Stays, Leads, Late, Turned, Relinked, Gap, Place, Turns, Next, Proper, Zeros, Awaits, Without;
    var n, v, l := |w.slots|, Tick(w).0, w.slots[w.cur];
    var late := l != [] && Late(l, n) && l[|l| - 1].timer == t;
    LeadsNow(w, t, u);
    TickAt(w, w.cur);
    LateGap(w, t);
    FiredDoesNotWait(w, u);
    RoundInOrder(l, t, u, n);
    RoundPlace(w.cur, t, n, late);
    LeadsAt(v, t, u, Gap(w, t) - 1, w.cur);
  }

  // Two timers that are linked again in one pass are linked in the order in which they were called.
  lemma RelinkedInOrder(w: Wheel, t: Timer, u: Timer)
    requires ValidWheel(w) && Zeros(w.slots[w.cur]) <= 1 && Leads(w, t, u, 0) && Awaits(w, u, 0)
    requires t.repeat && t.expires > 0
    ensures Leads(Tick(w).0, t, u, Gap(w, t) - 1)
  {
    hide Tick, Leads, Awaits, Gap;
    if t.expires % |w.slots| == 0 {
      RoundStays(w, t, u);
    } else {
      MovesOn(w, t, u);
    }
  }

  // ---- Over runs --------------------------------------------------------------------------------------

  lemma AddKeepsLead(w: Wheel, x: Timer, t: Timer, u: Timer, r: nat)
    requires w.cur < |w.slots| && Leads(w, t, u, r)
    ensures Leads(AddTimer(w, x), t, u, r)
  {
    var s := Place(w.cur, r, |w.slots|);
    hide InFront;
    InFrontOfMore(w.slots[s], [Relinked(x, |w.slots|)], Entry(t, Turns(r, |w.slots|)), u);
  }

  lemma RemovedKeepsFront(l: seq<Entry>, k: nat, x: Entry, u: Timer)
    requires k < |l| && l[k] != x && InFront(l, x, u)
    ensures InFront(HyList.RemoveAt(l, k), x, u)
  {
    var i :| 0 <= i < |l| && l[i] == x && forall j :: 0 <= j <= i ==> l[j].timer != u;
    var m, h := HyList.RemoveAt(l, k), if k < i then i - 1 else i;
    assert m[h] == x;
    forall j | 0 <= j <= h
      ensures m[j].timer != u
    {
      assert m[j] == if j < k then l[j] else l[j + 1];
    }
  }

  lemma {:induction false} DelKeepsFront(slots: seq<seq<Entry>>, id: nat, k: nat, s: nat, x: Entry, u: Timer)
    requires k <= |slots| && s < |slots| && x.timer.id != id && InFront(slots[s], x, u)
    ensures InFront(DelFrom(slots, id, k)[s], x, u)
    decreases |slots| - k
  {
    hide InFront;
    if k < |slots| {
      var i := FindId(slots[k], id);
      if i == |slots[k]| {
        DelKeepsFront(slots, id, k + 1, s, x, u);
      } else if k == s {
        RemovedKeepsFront(slots[k], i, x, u);
      }
    }
  }

  // An event other than a pass and the deletion of t.
  lemma OthersKeepLead(w: Wheel, ev: Event, t: Timer, u: Timer, r: nat)
    requires ValidWheel(w) && Allowed(w, ev) && ev != Elapse && ev != Del(t.id) && Leads(w, t, u, r)
    ensures Leads(After(w, ev), t, u, r)
  {
    match ev
    case Add(x) => AddKeepsLead(w, x, t, u, r);
    case Del(id) => DelKeepsFront(w.slots, id, 0, Place(w.cur, r, |w.slots|), Entry(t, Turns(r, |w.slots|)), u);
  }

  // Over any run: a timer that has r passes to wait and is in front of another one is called at pass r,
  // before that one is, whatever is added and deleted meanwhile.
  lemma {:induction false} CalledFirst(w: Wheel, es: seq<Event>, t: Timer, u: Timer, r: nat)
    requires ValidWheel(w) && Legal(w, es) && Leads(w, t, u, r) && Del(t.id) !in es
    ensures r < |Firings(w, es)| ==> CallsFirst(Firings(w, es)[r], t, u)
    decreases |es|
  {
    hide Leads, CallsFirst, Proper;
    if es != [] {
      var v := After(w, es[0]);
      if es[0] == Elapse && r == 0 {
        TickCallsFirst(w, t, u);
      } else if es[0] == Elapse {
        TickKeepsLead(w, t, u, r - 1);
        CalledFirst(v, es[1..], t, u, r - 1);
      } else {
        OthersKeepLead(w, es[0], t, u, r);
        CalledFirst(v, es[1..], t, u, r);
      }
    }
  }

  // A timer that is waiting is called before every other one that is linked again in this pass and
  // falls due in the same pass as it.
  lemma RelinkedLaterCalledLater(w: Wheel, es: seq<Event>, t: Timer, u: Timer, r: nat)
    requires ValidWheel(w) && Legal(w, [Elapse] + es) && Awaits(w, t, r + 1) && Awaits(w, u, 0) && Del(t.id) !in es
    ensures r + 1 < |Firings(w, [Elapse] + es)| ==> CallsFirst(Firings(w, [Elapse] + es)[r + 1], t, u)
  {
    hide CallsFirst, Leads, Proper, Tick;
    ElapseFirst(w, es);
    RelinkedBehind(w, t, u, r);
    CalledFirst(After(w, Elapse), es, t, u, r);
  }

  // Two timers that are linked again in one pass are called in the same order again when the first
  // one is due.
  lemma RelinkedTogether(w: Wheel, es: seq<Event>, t: Timer, u: Timer)
    requires ValidWheel(w) && Legal(w, [Elapse] + es) && Leads(w, t, u, 0) && Awaits(w, u, 0) && Del(t.id) !in es
    requires t.repeat && t.expires > 0
    ensures var f := Firings(w, [Elapse] + es); Gap(w, t) < |f| ==> CallsFirst(f[Gap(w, t)], t, u)
  {
    hide CallsFirst, Leads, Proper, Tick, Gap;
    ElapseFirst(w, es);
    RelinkedInOrder(w, t, u);
    CalledFirst(After(w, Elapse), es, t, u, Gap(w, t) - 1);
  }

  // Of two timers that are due together and have the same `expires`, neither or both come late.
  lemma SameGap(w: Wheel, t: Timer, u: Timer)
    requires ValidWheel(w) && Leads(w, t, u, 0) && Awaits(w, u, 0)
    requires t.repeat && u.repeat && t.expires == u.expires > 0
    ensures Gap(w, t) == Gap(w, u)
  {
    var l, n := w.slots[w.cur], |w.slots|;
    if t.expires % n != 0 {
      LateLoops(w, t);
      LateLoops(w, u);
    } else {
      LeadsNow(w, t, u);
      DivMod(0, n);
      DivMod(w.cur, n);
      var j := AwaitsAt(w, u, 0);
      hide Awaits, Leads, Table;
      TwoLoops(l, j, t, u, n);
    }
  }

  lemma TwoLoops(l: seq<Entry>, j: nat, t: Timer, u: Timer, n: nat)
    requires n > 0 && j < |l| && l[j] == Entry(u, 0) && InFront(l, Entry(t, 0), u)
    requires t.repeat && u.repeat && t.expires % n == 0 && u.expires % n == 0
    ensures !Late(l, n)
  {
    var i :| 0 <= i < |l| && l[i] == Entry(t, 0) && forall j :: 0 <= j <= i ==> l[j].timer != u;
    assert Loops(l[i], n) && Loops(l[j], n) && i != j;
    hide Loops;
  }

  // Whenever the one is called the other is, and t first.
  predicate InStep(f: seq<seq<Timer>>, t: Timer, u: Timer) {
    forall k :: 0 <= k < |f| ==> (t in f[k] <==> u in f[k]) && (t in f[k] ==> CallsFirst(f[k], t, u))
  }

  lemma InStepMore(f: seq<Timer>, g: seq<seq<Timer>>, t: Timer, u: Timer)
    requires InStep(g, t, u) && (t in f <==> u in f) && (t in f ==> CallsFirst(f, t, u))
    ensures InStep([f] + g, t, u)
  {
    hide CallsFirst;
  }

  lemma PassInStep(w: Wheel, t: Timer, u: Timer, r: nat)
    requires ValidWheel(w) && Zeros(w.slots[w.cur]) <= 1 && Leads(w, t, u, r) && Awaits(w, t, r) && Awaits(w, u, r)
    requires t.repeat && u.repeat && t.expires == u.expires > 0
    ensures var f := Tick(w).1; (t in f <==> u in f) && (t in f ==> CallsFirst(f, t, u))
    ensures var v, q := Tick(w).0, if r > 0 then r - 1 else Gap(w, t) - 1;
            Leads(v, t, u, q) && Awaits(v, t, q) && Awaits(v, u, q)
  {
    hide Tick, Leads, Awaits, Gap, Proper, CallsFirst;
    FiresNow(w, t, r);
    FiresNow(w, u, r);
    if r > 0 {
      TickWaits(w, t, r - 1);
      TickWaits(w, u, r - 1);
      TickKeepsLead(w, t, u, r - 1);
    } else {
      SameGap(w, t, u);
      TickStarts(w, t);
      TickStarts(w, u);
      RelinkedInOrder(w, t, u);
      TickCallsFirst(w, t, u);
    }
  }

  // Over any run: two repeating timers with the same `expires` that are due together are called in the
  // same passes for ever, and always in the order they are in.
  lemma {:induction false} OrderIsKept(w: Wheel, es: seq<Event>, t: Timer, u: Timer, r: nat)
    requires ValidWheel(w) && Legal(w, es) && Leads(w, t, u, r) && Awaits(w, t, r) && Awaits(w, u, r)
    requires t.repeat && u.repeat && t.expires == u.expires > 0 && Del(t.id) !in es && Del(u.id) !in es
    ensures InStep(Firings(w, es), t, u)
    decreases |es|
  {
    hide Leads, Awaits, CallsFirst, Proper, InStep, Gap;
    if es == [] {
      NothingInStep(t, u);
    } else {
      var v := After(w, es[0]);
      if es[0] == Elapse {
        PassInStep(w, t, u, r);
        OrderIsKept(v, es[1..], t, u, if r > 0 then r - 1 else Gap(w, t) - 1);
        InStepMore(Tick(w).1, Firings(v, es[1..]), t, u);
      } else {
        OthersKeepLead(w, es[0], t, u, r);
        OthersKeep(w, es[0], t, r);
        OthersKeep(w, es[0], u, r);
        OrderIsKept(v, es[1..], t, u, r);
      }
    }
  }

  lemma NothingInStep(t: Timer, u: Timer)
    ensures InStep([], t, u)
  {
  }

  // A timer is called before every other one that is added later and falls due in the same pass.
  lemma AddedLaterCalledLater(w: Wheel, es: seq<Event>, t: Timer, u: Timer, r: nat)
    requires ValidWheel(w) && Legal(w, [Add(u)] + es) && Awaits(w, t, r) && Del(t.id) !in es
    ensures Legal(After(w, Add(u)), es) && Firings(w, [Add(u)] + es) == Firings(After(w, Add(u)), es)
    ensures r < |Firings(w, [Add(u)] + es)| ==> CallsFirst(Firings(w, [Add(u)] + es)[r], t, u)
  {
    hide CallsFirst, Leads, Proper;
    assert ([Add(u)] + es)[1..] == es;
    AddedBehind(w, t, u, r);
    CalledFirst(After(w, Add(u)), es, t, u, r);
  }

  // Both timers are called for the first time at pass r, and t is called first.
  predicate CalledTogether(f: seq<seq<Timer>>, t: Timer, u: Timer, r: nat) {
    && (forall k :: 0 <= k < |f| && k < r ==> t !in f[k] && u !in f[k])
    && (r < |f| ==> t in f[r] && u in f[r] && CallsFirst(f[r], t, u))
  }

  // So of two timers that are added one after the other with the same `expires` and no pass between,
  // both are called for the first time in the same pass, and the first one first.  If they repeat, this
  // stays so for ever, but for zero timers.
  lemma AddedInOrder(w: Wheel, t: Timer, mid: seq<Event>, u: Timer, es: seq<Event>)
    requires ValidWheel(w) && Legal(w, [Add(t)] + mid + ([Add(u)] + es)) && t.expires == u.expires
    requires Elapse !in mid && Del(t.id) !in mid && Del(t.id) !in es && Del(u.id) !in es
    ensures var r, f := FirstWait(t, w.cur, |w.slots|), Firings(w, [Add(t)] + mid + ([Add(u)] + es));
            && CalledTogether(f, t, u, r)
            && (t.repeat && u.repeat && t.expires > 0 ==> InStep(f, t, u))
  {
    var v := After(w, Add(t));
    AddsAwait(w, t);
    assert [Add(t)] + mid + ([Add(u)] + es) == [Add(t)] + (mid + ([Add(u)] + es));
    assert ([Add(t)] + (mid + ([Add(u)] + es)))[1..] == mid + ([Add(u)] + es);
    FirstWaitIs(t, u, w.cur, |w.slots|);
    hide After, Awaits, FirstWait, CalledTogether, InStep;
    AddedAfterMore(v, t, mid, u, es, FirstWait(t, w.cur, |w.slots|));
  }

  lemma {:induction false} AddedAfterMore(w: Wheel, t: Timer, mid: seq<Event>, u: Timer, es: seq<Event>, r: nat)
    requires ValidWheel(w) && Legal(w, mid + ([Add(u)] + es)) && Awaits(w, t, r) && r == FirstWait(u, w.cur, |w.slots|)
    requires Elapse !in mid && Del(t.id) !in mid && Del(t.id) !in es && Del(u.id) !in es
    requires t.expires == u.expires
    ensures var f := Firings(w, mid + ([Add(u)] + es));
            CalledTogether(f, t, u, r) && (t.repeat && u.repeat && t.expires > 0 ==> InStep(f, t, u))
    decreases |mid|
  {
    hide Awaits, FirstWait, CalledTogether, Proper, InStep;
    var run := [Add(u)] + es;
    if mid == [] {
      assert mid + run == run;
      AddedNow(w, t, u, es, r);
    } else {
      assert mid[0] in mid && (mid + run)[0] == mid[0] && (mid + run)[1..] == mid[1..] + run;
      OthersKeep(w, mid[0], t, r);
      AddedAfterMore(After(w, mid[0]), t, mid[1..], u, es, r);
    }
  }

  lemma AddedNow(w: Wheel, t: Timer, u: Timer, es: seq<Event>, r: nat)
    requires ValidWheel(w) && Legal(w, [Add(u)] + es) && Awaits(w, t, r) && r == FirstWait(u, w.cur, |w.slots|)
    requires Del(t.id) !in es && Del(u.id) !in es && t.expires == u.expires
    ensures var f := Firings(w, [Add(u)] + es);
            CalledTogether(f, t, u, r) && (t.repeat && u.repeat && t.expires > 0 ==> InStep(f, t, u))
  {
    hide CallsFirst, Awaits, FirstWait, Proper, Leads, InStep;
    assert ([Add(u)] + es)[1..] == es;
    AddsAwait(w, u);
    AwaitsInTable(w, t, r);
    AddedBehind(w, t, u, r);
    OthersKeep(w, Add(u), t, r);
    AddedLaterCalledLater(w, es, t, u, r);
    var v := After(w, Add(u));
    assert Leads(v, t, u, r);
    hide Firings, Legal, After;
    FirstFiring(v, es, t, r);
    FirstFiring(v, es, u, r);
    if t.repeat && u.repeat && t.expires > 0 {
      OrderIsKept(v, es, t, u, r);
    }
  }

  lemma AwaitsInTable(w: Wheel, t: Timer, r: nat)
    requires w.cur < |w.slots| && Awaits(w, t, r)
    ensures Table(w, Row(t, r)) >= 1
  {
  }

  lemma AddsAwait(w: Wheel, t: Timer)
    requires ValidWheel(w) && Allowed(w, Add(t))
    ensures var v := After(w, Add(t)); Awaits(v, t, FirstWait(t, w.cur, |w.slots|)) && v.cur == w.cur
  {
    var r := FirstWait(t, w.cur, |w.slots|);
    AddTable(w, t, Row(t, r));
    TableUsesOf(After(w, Add(t)), t, r, r + 1);
  }

  lemma FirstWaitIs(t: Timer, u: Timer, cur: nat, n: nat)
    requires cur < n && t.expires == u.expires
    ensures FirstWait(t, cur, n) == FirstWait(u, cur, n)
  {
  }
}
