// The naive table a timer wheel stands for: for every timer, the passes it still has to wait.
// A timer in slot s with r turns waits ((s - cur) mod n) + r * n passes.
module TimerTable {
  import opened Arith
  import opened TimerSpec

  datatype Row = Row(timer: Timer, left: nat)

  // The passes until slot s is next dealt with, if slot cur is next.
  function Dist(s: nat, cur: nat, n: nat): (d: nat)
    requires s < n && cur < n
    ensures d < n && (cur + d) % n == s
  {
    ModWrap(cur, if s >= cur then s - cur else s + n - cur, n);
    if s >= cur then s - cur else s + n - cur
  }

  function Next(cur: nat, n: nat): (c: nat)
    requires cur < n
    ensures c == (cur + 1) % n
  {
    if n > 1 then (ModWrap(cur, 1, n); if cur + 1 < n then cur + 1 else 0) else 0
  }

  function Hit(b: bool): nat {
    if b then 1 else 0
  }

  // How often the row occurs among the entries of one list whose slot is d passes away.
  function Count(l: seq<Entry>, row: Row, d: nat, n: nat): nat {
    if l == [] then 0
    else Hit(l[0].timer == row.timer && d + l[0].rotation * n == row.left) + Count(l[1..], row, d, n)
  }

  // How often it occurs in the slots from k on.
  function CountFrom(slots: seq<seq<Entry>>, cur: nat, row: Row, k: nat): nat
    requires cur < |slots| && k <= |slots|
    decreases |slots| - k
  {
    if k == |slots| then 0
    else Count(slots[k], row, Dist(k, cur, |slots|), |slots|) + CountFrom(slots, cur, row, k + 1)
  }

  // The naive table of a wheel, as the number of times each row occurs in it.
  function Table(w: Wheel, row: Row): nat
    requires w.cur < |w.slots|
  {
    CountFrom(w.slots, w.cur, row, 0)
  }

  lemma {:induction false} CountAppend(l: seq<Entry>, e: Entry, row: Row, d: nat, n: nat)
    ensures Count(l + [e], row, d, n)
            == Count(l, row, d, n) + Hit(e.timer == row.timer && d + e.rotation * n == row.left)
  {
    if l == [] {
      assert l + [e] == [e];
    } else {
      assert (l + [e])[1..] == l[1..] + [e];
      CountAppend(l[1..], e, row, d, n);
    }
  }

  // Replacing one slot changes the table by what that slot contributes.
  lemma {:induction false} CountUpdate(slots: seq<seq<Entry>>, cur: nat, row: Row, k: nat, s: nat, l: seq<Entry>)
    requires cur < |slots| && k <= |slots| && s < |slots|
    ensures CountFrom(slots[s := l], cur, row, k)
            + (if k <= s then Count(slots[s], row, Dist(s, cur, |slots|), |slots|) else 0)
         == CountFrom(slots, cur, row, k) + (if k <= s then Count(l, row, Dist(s, cur, |slots|), |slots|) else 0)
    decreases |slots| - k
  {
    if k < |slots| {
      CountUpdate(slots, cur, row, k + 1, s, l);
    }
  }

  // ---- What the pass makes of the entries -------------------------------------------------

  // The last entry of the slot is the only one that loops.  It is the one that the pass does
  // not meet again, and so comes back a whole lap late.
  predicate Late(l: seq<Entry>, n: nat)
    requires n > 0
  {
    && l != []
    && Loops(l[|l| - 1], n) && !Zero(l[|l| - 1])
    && forall i :: 0 <= i < |l| - 1 ==> !Loops(l[i], n)
  }

  // Whether the entry occurs as the given row after the pass.
  predicate Becomes(e: Entry, row: Row, late: bool, n: nat) {
    && e.timer == row.timer
    && if e.rotation > 0 then e.rotation * n == row.left + 1
       else e.timer.repeat && e.timer.expires + (if late then n else 0) == row.left + 1
  }

  // How often the row occurs after the pass among the entries l ahead of the cursor, the last
  // of which is late or not.  A zero timer is the entry with which the pass ends, and always late.
  function Coming(l: seq<Entry>, row: Row, late: bool, n: nat): nat {
    if l == [] then 0
    else Hit(Becomes(l[0], row, Zero(l[0]) || (late && |l| == 1), n)) + Coming(l[1..], row, late, n)
  }

  lemma {:induction false} ComingAppend(l: seq<Entry>, e: Entry, row: Row, n: nat)
    ensures Coming(l + [e], row, false, n) == Coming(l, row, false, n) + Hit(Becomes(e, row, Zero(e), n))
  {
    if l == [] {
      assert l + [e] == [e];
    } else {
      assert (l + [e])[1..] == l[1..] + [e];
      ComingAppend(l[1..], e, row, n);
    }
  }

  // The slots without the entries ahead of the cursor.
  function Behind(p: Pass): seq<seq<Entry>>
    requires p.cur < |p.slots| && p.behind <= |p.slots[p.cur]|
  {
    p.slots[p.cur := p.slots[p.cur][..p.behind]]
  }

  // The table when the pass is over, told from its middle.
  function Outcome(p: Pass, row: Row): nat
    requires p.cur < |p.slots| && p.behind <= |p.slots[p.cur]|
  {
    var n := |p.slots|;
    CountFrom(Behind(p), Next(p.cur, n), row, 0) + Coming(Ahead(p), row, Late(Ahead(p), n), n)
  }

  lemma LateRest(a: seq<Entry>, cur: nat, n: nat)
    requires cur < n && |a| > 1
    ensures Late(Rest(a, cur, n), n) == Late(a, n)
  {
    var e, b := a[0], Rest(a, cur, n);
    SameSlot(e.timer, cur, n);
    if Loops(e, n) {
      assert b[|b| - 1] == Relinked(e.timer, n);
      assert !Loops(Relinked(e.timer, n), n) || Zero(Relinked(e.timer, n));
    } else {
      assert b == a[1..];
      hide Loops, Rest;
      assert forall i :: 0 <= i < |b| ==> b[i] == a[i + 1];
      if Late(b, n) {
        forall i | 0 <= i < |a| - 1
          ensures !Loops(a[i], n)
        {
          if i > 0 {
            assert a[i] == b[i - 1];
          }
        }
      }
    }
  }

  // The entry a turn of the pass puts behind the cursor, and the slot it goes to.
  function Settled(p: Pass): seq<(nat, Entry)>
    requires p.cur < |p.slots| && p.behind < |p.slots[p.cur]|
    ensures |Settled(p)| <= 1 && (Settled(p) != [] ==> Settled(p)[0].0 < |p.slots|)
  {
    var e, n := Ahead(p)[0], |p.slots|;
    var s := Target(e.timer, p.cur, n);
    if e.rotation > 0 then [(p.cur, e.(rotation := e.rotation - 1))]
    else if e.timer.repeat && (s != p.cur || |Ahead(p)| == 1) then [(s, Relinked(e.timer, n))]
    else []
  }

  lemma StepBehind(p: Pass)
    requires p.cur < |p.slots| && p.behind < |p.slots[p.cur]|
    ensures var q, b, x := Step(p), Behind(p), Settled(p);
            && q.cur == p.cur && |q.slots| == |p.slots| && q.behind <= |q.slots[q.cur]|
            && Behind(q) == if x == [] then b else b[x[0].0 := b[x[0].0] + [x[0].1]]
  {
    var q, b, x, list := Step(p), Behind(p), Settled(p), p.slots[p.cur];
    var e := list[p.behind];
    assert Ahead(p)[0] == e;
    assert list[p.behind := e][..p.behind + 1] == list[..p.behind] + [e];
    var want := if x == [] then b else b[x[0].0 := b[x[0].0] + [x[0].1]];
    assert Behind(q)[p.cur] == want[p.cur];
    assert forall s :: 0 <= s < |p.slots| && s != p.cur ==> Behind(q)[s] == want[s];
    assert Behind(q) == want;
  }

  // What is put behind the cursor counts for the row exactly if the entry was to become it.
  lemma SettledCounts(p: Pass, row: Row)
    requires ValidPass(p) && p.behind < |p.slots[p.cur]|
    ensures var e, n, x := Ahead(p)[0], |p.slots|, Settled(p);
            && (x != [] ==> Becomes(e, row, Loops(e, n), n)
                            == (x[0].1.timer == row.timer
                                && Dist(x[0].0, Next(p.cur, n), n) + x[0].1.rotation * n == row.left))
            && (x == [] ==> e.rotation == 0 && (e.timer.repeat ==> Loops(e, n) && |Ahead(p)| > 1))
  {
    var e, n := Ahead(p)[0], |p.slots|;
    SameSlot(e.timer, p.cur, n);
    if e.rotation > 0 {
      assert e.rotation * n == (e.rotation - 1) * n + n;
    } else {
      ModWrap(e.timer.expires % n, p.cur, n);
    }
  }

  // What a turn takes out of the entries ahead of it, counted for the row.
  lemma ComingRest(a: seq<Entry>, row: Row, cur: nat, n: nat)
    requires cur < n && a != [] && (Zero(a[0]) ==> a[0].rotation == 0)
    ensures var e, b := a[0], Rest(a, cur, n);
            Coming(a, row, Late(a, n), n) == Coming(b, row, Late(b, n), n)
            + Hit((|a| == 1 || !Loops(e, n)) && Becomes(e, row, Loops(e, n), n))
  {
    hide Becomes, Late, Loops, Rest, Coming, Zero;
    if |a| == 1 {
      LastComing(a, row, cur, n);
    } else if Loops(a[0], n) {
      LoopComing(a, row, cur, n);
    } else {
      OtherComing(a, row, cur, n);
    }
  }

  lemma LastComing(a: seq<Entry>, row: Row, cur: nat, n: nat)
    requires cur < n && |a| == 1 && (Zero(a[0]) ==> a[0].rotation == 0)
    ensures Coming(a, row, Late(a, n), n) == Hit(Becomes(a[0], row, Loops(a[0], n), n))
    ensures Coming(Rest(a, cur, n), row, Late(Rest(a, cur, n), n), n) == 0
  {
    DivMod(0, n);
    assert Late(a, n) || Zero(a[0]) <==> Loops(a[0], n);
    assert Rest(a, cur, n) == [];
    hide Becomes, Late, Loops, Rest, Zero;
  }

  lemma LoopComing(a: seq<Entry>, row: Row, cur: nat, n: nat)
    requires cur < n && |a| > 1 && Loops(a[0], n)
    ensures Coming(a, row, Late(a, n), n) == Coming(Rest(a, cur, n), row, Late(Rest(a, cur, n), n), n)
  {
    var e := a[0];
    SameSlot(e.timer, cur, n);
    assert !Late(a, n) && Rest(a, cur, n) == a[1..] + [Relinked(e.timer, n)];
    LateRest(a, cur, n);
    LoopsOn(e, row, n);
    hide Late, Becomes, Loops, Rest, Relinked, Zero;
    ComingAppend(a[1..], Relinked(e.timer, n), row, n);
  }

  lemma OtherComing(a: seq<Entry>, row: Row, cur: nat, n: nat)
    requires cur < n && |a| > 1 && !Loops(a[0], n) && (Zero(a[0]) ==> a[0].rotation == 0)
    ensures Coming(a, row, Late(a, n), n)
            == Coming(Rest(a, cur, n), row, Late(Rest(a, cur, n), n), n) + Hit(Becomes(a[0], row, false, n))
  {
    SameSlot(a[0].timer, cur, n);
    DivMod(0, n);
    assert !Zero(a[0]) && Rest(a, cur, n) == a[1..];
    LateRest(a, cur, n);
    hide Late, Becomes, Loops, Rest, Zero;
  }

  // An entry that loops counts for the same rows when it is back in the list.
  lemma LoopsOn(e: Entry, row: Row, n: nat)
    requires n > 0 && Loops(e, n)
    ensures Becomes(Relinked(e.timer, n), row, Zero(e), n) == Becomes(e, row, Zero(e), n)
    ensures Zero(Relinked(e.timer, n)) == Zero(e)
  {
    SameSlot(e.timer, 0, n);
  }

  lemma StepComing(p: Pass, row: Row)
    requires ValidPass(p) && Ahead(p) != []
    ensures ValidPass(Step(p))
    ensures var e, n := Ahead(p)[0], |p.slots|;
            Coming(Ahead(p), row, Late(Ahead(p), n), n)
            == Coming(Ahead(Step(p)), row, Late(Ahead(Step(p)), n), n)
               + Hit(Settled(p) != [] && Becomes(e, row, Loops(e, n), n))
  {
    var a, e, n := Ahead(p), Ahead(p)[0], |p.slots|;
    StepAhead(p);
    SameSlot(e.timer, p.cur, n);
    assert e in p.slots[p.cur];
    ComingRest(a, row, p.cur, n);
    assert Ahead(Step(p)) == Rest(a, p.cur, n);
    hide Step, Coming, Late, Rest;
    assert (|a| == 1 || !Loops(e, n)) && Becomes(e, row, Loops(e, n), n)
           <==> Settled(p) != [] && Becomes(e, row, Loops(e, n), n);
  }

  lemma StepOutcome(p: Pass, row: Row)
    requires ValidPass(p) && Ahead(p) != []
    ensures ValidPass(Step(p)) && Outcome(Step(p), row) == Outcome(p, row)
  {
    hide Step, Becomes, Settled, Late, Loops, Dist;
    var x := Settled(p);
    StepComing(p, row);
    StepBehind(p);
    SettledCounts(p, row);
    if x != [] {
      var s, b, c := x[0].0, Behind(p), Next(p.cur, |p.slots|);
      CountAppend(b[s], x[0].1, row, Dist(s, c, |p.slots|), |p.slots|);
      CountUpdate(b, c, row, 0, s, b[s] + [x[0].1]);
    }
  }

  lemma {:induction false} FinishOutcome(p: Pass, row: Row)
    requires ValidPass(p) && Zeros(Ahead(p)) <= 1
    ensures Outcome(Finish(p), row) == Outcome(p, row)
    decreases Measure(p).0, Measure(p).1, Measure(p).2
  {
    if Ahead(p) != [] {
      hide Step, Outcome;
      StepOutcome(p, row);
      StepDecreases(p);
      FinishOutcome(Step(p), row);
    }
  }

  // ---- One tick on the table --------------------------------------------------------------

  // The number of passes until a timer added now fires first: HyTimerAdd takes the slot from
  // `expires` alone, without regard to cur.
  function FirstWait(t: Timer, cur: nat, n: nat): nat
    requires cur < n
  {
    Dist(t.expires % n, cur, n) + t.expires / n * n
  }

  // A repeating timer with expires 0.
  predicate ZeroTimer(t: Timer) {
    t.repeat && t.expires == 0
  }

  // Whether t comes back late from the next pass.
  predicate ComesLate(w: Wheel, t: Timer)
    requires w.cur < |w.slots|
  {
    var l := w.slots[w.cur];
    (Late(l, |w.slots|) && l[|l| - 1].timer == t) || (ZeroTimer(t) && Entry(t, 0) in l)
  }

  // What the table would become if every timer were on time: one pass less for every row, and
  // a repeating timer that fires starts again with `expires`, of which this pass is the first.
  function OnTime(w: Wheel, row: Row): nat
    requires w.cur < |w.slots|
  {
    Table(w, Row(row.timer, row.left + 1))
    + if row.timer.repeat && row.timer.expires == row.left + 1 then Table(w, Row(row.timer, 0)) else 0
  }

  lemma {:induction false} CountShift(l: seq<Entry>, t: Timer, r: nat, d: nat, n: nat)
    requires d > 0
    ensures Count(l, Row(t, r), d - 1, n) == Count(l, Row(t, r + 1), d, n)
  {
    if l != [] {
      CountShift(l[1..], t, r, d, n);
    }
  }

  lemma {:induction false} OthersShift(slots: seq<seq<Entry>>, cur: nat, t: Timer, r: nat, k: nat)
    requires cur < |slots| && slots[cur] == [] && k <= |slots|
    ensures CountFrom(slots, Next(cur, |slots|), Row(t, r), k) == CountFrom(slots, cur, Row(t, r + 1), k)
    decreases |slots| - k
  {
    if k < |slots| {
      OthersShift(slots, cur, t, r, k + 1);
      if k != cur {
        CountShift(slots[k], t, r, Dist(k, cur, |slots|), |slots|);
      }
    }
  }

  // One entry, told as it counts before the pass.
  lemma BecomesCount(e: Entry, t: Timer, r: nat, late: bool, n: nat)
    requires n > 0 && (late ==> Loops(e, n) && !Zero(e))
    ensures var before, now := Hit(e.timer == t && e.rotation * n == r + 1), Hit(e.timer == t && e.rotation * n == 0);
            Hit(Becomes(e, Row(t, r), Zero(e) || late, n)) == before
            + (if t.repeat && t.expires == r + 1 then now - Hit(late && e.timer == t) else 0)
            + Hit(late && e.timer == t && t.expires + n == r + 1)
            + (if ZeroTimer(t) && n == r + 1 then now else 0)
  {
    if e.rotation > 0 {
      MulStep(0, e.rotation, n);
    }
  }

  lemma {:induction false} ComingCount(l: seq<Entry>, t: Timer, r: nat, late: bool, n: nat)
    requires n > 0 && (late ==> l != [] && Loops(l[|l| - 1], n) && !Zero(l[|l| - 1]))
    ensures Coming(l, Row(t, r), late, n) == Count(l, Row(t, r + 1), 0, n)
            + (if t.repeat && t.expires == r + 1 then Count(l, Row(t, 0), 0, n) - Hit(late && l[|l| - 1].timer == t)
               else 0)
            + Hit(late && l[|l| - 1].timer == t && t.expires + n == r + 1)
            + (if ZeroTimer(t) && n == r + 1 then Count(l, Row(t, 0), 0, n) else 0)
  {
    if l != [] {
      BecomesCount(l[0], t, r, late && |l| == 1, n);
      hide Becomes, Loops, Zero, ZeroTimer;
      if |l| > 1 {
        ComingCount(l[1..], t, r, late, n);
      } else {
        assert l[1..] == [];
      }
    }
  }

  // At most one zero timer is on the slot.
  lemma {:induction false} ZeroCounts(l: seq<Entry>, t: Timer, n: nat)
    requires n > 0 && ZeroTimer(t) && Zeros(l) <= 1 && forall e <- l :: Zero(e) ==> e.rotation == 0
    ensures Count(l, Row(t, 0), 0, n) == Hit(Entry(t, 0) in l) <= Zeros(l)
  {
    if l != [] {
      ZeroCounts(l[1..], t, n);
      assert l == [l[0]] + l[1..];
      if l[0].timer == t {
        assert Zero(l[0]) && l[0] == Entry(t, 0);
        TimesZero(0, n);
      }
    }
  }

  // Only the slot of the next pass holds timers that have nothing left to wait.
  lemma {:induction false} NothingLeft(slots: seq<seq<Entry>>, cur: nat, t: Timer, k: nat)
    requires cur < |slots| && k <= |slots|
    ensures CountFrom(slots, cur, Row(t, 0), k) == if k <= cur then Count(slots[cur], Row(t, 0), 0, |slots|) else 0
    decreases |slots| - k
  {
    if k < |slots| {
      NothingLeft(slots, cur, t, k + 1);
      if k != cur {
        NoneAt(slots[k], t, Dist(k, cur, |slots|), |slots|);
      }
    }
  }

  lemma {:induction false} NoneAt(l: seq<Entry>, t: Timer, d: nat, n: nat)
    requires d > 0
    ensures Count(l, Row(t, 0), d, n) == 0
  {
    if l != [] {
      NoneAt(l[1..], t, d, n);
    }
  }

  // The wheel refines the naive table: a tick takes one pass off every row, drops the once
  // timers that fire and gives the repeating ones `expires` passes again, one of them this
  // pass.  A timer that comes late gets one lap more.
  lemma TickTable(w: Wheel, t: Timer, r: nat)
    requires ValidWheel(w) && Zeros(w.slots[w.cur]) <= 1
    ensures var n, late := |w.slots|, ComesLate(w, t);
            Table(Tick(w).0, Row(t, r)) == OnTime(w, Row(t, r))
            - Hit(late && t.expires == r + 1) + Hit(late && t.expires + n == r + 1)
  {
    var n, l := |w.slots|, w.slots[w.cur];
    TickOutcome(w, Row(t, r));
    var b := w.slots[w.cur := []];
    OthersShift(b, w.cur, t, r, 0);
    CountUpdate(w.slots, w.cur, Row(t, r + 1), 0, w.cur, []);
    ComingCount(l, t, r, Late(l, n), n);
    NothingLeft(w.slots, w.cur, t, 0);
    if ZeroTimer(t) {
      ZeroCounts(l, t, n);
    }
    assert Late(l, n) ==> Loops(l[|l| - 1], n) && !Zero(l[|l| - 1]);
    hide Tick, Coming, Count, CountFrom, Dist, Late;
  }

  lemma TickOutcome(w: Wheel, row: Row)
    requires ValidWheel(w) && Zeros(w.slots[w.cur]) <= 1
    ensures var n, l := |w.slots|, w.slots[w.cur];
            Table(Tick(w).0, row)
            == CountFrom(w.slots[w.cur := []], Next(w.cur, n), row, 0) + Coming(l, row, Late(l, n), n)
  {
    hide Step, Becomes;
    var p := Start(w);
    assert Ahead(p) == w.slots[w.cur];
    FinishOutcome(p, row);
    var q := Finish(p);
    assert q.behind == |q.slots[q.cur]| by {
      assert |Ahead(q)| == 0;
    }
    assert q.slots[q.cur][..q.behind] == q.slots[q.cur];
    assert Behind(q) == q.slots;
    assert Behind(p) == w.slots[w.cur := []];
  }

  lemma LateShows(w: Wheel, t: Timer)
    requires ValidWheel(w) && ComesLate(w, t)
    ensures t.repeat && Table(w, Row(t, 0)) >= 1
  {
    var l, n := w.slots[w.cur], |w.slots|;
    NothingLeft(w.slots, w.cur, t, 0);
    var i := |l| - 1;
    if ZeroTimer(t) && Entry(t, 0) in l {
      i :| 0 <= i < |l| && l[i] == Entry(t, 0);
    } else {
      assert Loops(l[i], n);
    }
    CountIn(l, Row(t, 0), 0, n, i);
  }

  lemma {:induction false} CountIn(l: seq<Entry>, row: Row, d: nat, n: nat, i: nat)
    requires i < |l| && l[i].timer == row.timer && d + l[i].rotation * n == row.left
    ensures Count(l, row, d, n) >= 1
  {
    if i > 0 {
      CountIn(l[1..], row, d, n, i - 1);
    }
  }

  lemma {:induction false} ZeroThere(l: seq<Entry>)
    ensures Zeros(l) > 0 <==> exists e <- l :: Zero(e)
  {
    if l != [] {
      ZeroThere(l[1..]);
      assert l == [l[0]] + l[1..];
      hide Zero;
    }
  }

  // All timers are on time exactly if no timer that loops is alone in doing so and last on
  // its slot, and no zero timer is on it.
  lemma OnTimeExactly(w: Wheel)
    requires ValidWheel(w) && Zeros(w.slots[w.cur]) <= 1
    ensures (forall t: Timer, r: nat :: Table(Tick(w).0, Row(t, r)) == OnTime(w, Row(t, r)))
            <==> !Late(w.slots[w.cur], |w.slots|) && Zeros(w.slots[w.cur]) == 0
  {
    var l, n := w.slots[w.cur], |w.slots|;
    ZeroThere(l);
    if Late(l, n) || Zeros(l) > 0 {
      var t := SomeLate(w);
      TickTable(w, t, t.expires + n - 1);
      assert Table(Tick(w).0, Row(t, t.expires + n - 1)) == OnTime(w, Row(t, t.expires + n - 1)) + 1;
    } else {
      forall t: Timer, r: nat
        ensures Table(Tick(w).0, Row(t, r)) == OnTime(w, Row(t, r))
      {
        TickTable(w, t, r);
        assert ZeroTimer(t) ==> Zero(Entry(t, 0));
      }
    }
  }

  lemma SomeLate(w: Wheel) returns (t: Timer)
    requires ValidWheel(w) && (Late(w.slots[w.cur], |w.slots|) || Zeros(w.slots[w.cur]) > 0)
    ensures ComesLate(w, t)
  {
    var l := w.slots[w.cur];
    ZeroThere(l);
    if Late(l, |w.slots|) {
      t := l[|l| - 1].timer;
    } else {
      var e :| e in l && Zero(e);
      t := e.timer;
      assert e == Entry(t, 0);
    }
  }

  // How often a zero timer among l fires once more, if an entry before l comes back or not.
  function Again(l: seq<Entry>, n: nat, back: bool): (k: nat)
    requires n > 0
    ensures k <= 2
  {
    if l == [] then 0
    else if Zero(l[0]) then if |l| == 1 && !back then 0 else 1 + Hit(AnyLoops(l[1..], n))
    else Again(l[1..], n, back || Loops(l[0], n))
  }

  lemma {:induction false} AgainAt(l: seq<Entry>, i: nat, n: nat, back: bool)
    requires n > 0 && i < |l| && Zero(l[i]) && Zeros(l) <= 1
    ensures Again(l, n, back) == if i == |l| - 1 && !back && !AnyLoops(l[..i], n) then 0
                                 else 1 + Hit(AnyLoops(l[i + 1..], n))
  {
    if i > 0 {
      assert !Zero(l[0]) by {
        ZeroIn(l[1..], i - 1);
      }
      AgainAt(l[1..], i - 1, n, back || Loops(l[0], n));
      assert l[..i][1..] == l[1..][..i - 1];
      AnyOfRest(l[..i], n);
      assert l[1..][i..] == l[i + 1..];
      hide AnyLoops, Loops;
    } else {
      assert l[..0] == [];
    }
  }

  lemma {:induction false} FiresCount(l: seq<Entry>, t: Timer, n: nat, back: bool)
    requires n > 0 && Zeros(l) <= 1 && forall e <- l :: Zero(e) ==> e.rotation == 0
    ensures multiset(Fires(l, n, back))[t] == Count(l, Row(t, 0), 0, n)
            + if ZeroTimer(t) && Entry(t, 0) in l then Again(l, n, back) else 0
  {
    if l != [] {
      assert l == [l[0]] + l[1..];
      if Zero(l[0]) {
        ZeroFiresCount(l, t, n, back);
      } else {
        FiresCount(l[1..], t, n, back || Loops(l[0], n));
        NowCounts(l[0], t, n);
        hide Fires, Again, AnyLoops, Loops;
        assert Fires(l, n, back) == Now(l[0]) + Fires(l[1..], n, back || Loops(l[0], n)) by {
          FiresOther(l, n, back);
        }
      }
    }
  }

  // A pass fires a timer as often as the table has it with nothing left to wait, and a zero timer
  // that is due up to three times.
  lemma TickFires(w: Wheel, t: Timer)
    requires ValidWheel(w) && Zeros(w.slots[w.cur]) <= 1
    ensures !ZeroTimer(t) || Table(w, Row(t, 0)) == 0 ==> multiset(Tick(w).1)[t] == Table(w, Row(t, 0))
    ensures Table(w, Row(t, 0)) <= multiset(Tick(w).1)[t] <= Table(w, Row(t, 0)) + 2
  {
    TickFired(w);
    var l, n := w.slots[w.cur], |w.slots|;
    FiresCount(l, t, n, false);
    NothingLeft(w.slots, w.cur, t, 0);
    if ZeroTimer(t) {
      ZeroCounts(l, t, n);
    }
  }

  lemma TickFired(w: Wheel)
    requires ValidWheel(w) && Zeros(w.slots[w.cur]) <= 1
    ensures Tick(w).1 == Fires(w.slots[w.cur], |w.slots|, false)
  {
    assert Ahead(Start(w)) == w.slots[w.cur];
    FiresDue(Start(w));
    hide Fires;
    assert [] + Fires(w.slots[w.cur], |w.slots|, false) == Fires(w.slots[w.cur], |w.slots|, false);
  }

  // A zero timer fires once in the pass if it is the last entry and none before it loops; twice if
  // it is not alone in this way and none behind it loops; and otherwise three times.
  lemma ZeroFiresExactly(w: Wheel, i: nat)
    requires ValidWheel(w) && i < |w.slots[w.cur]| && Zero(w.slots[w.cur][i]) && Zeros(w.slots[w.cur]) <= 1
    ensures var l, n := w.slots[w.cur], |w.slots|;
            multiset(Tick(w).1)[l[i].timer] == if i == |l| - 1 && !AnyLoops(l[..i], n) then 1
                                               else if !AnyLoops(l[i + 1..], n) then 2 else 3
  {
    TickFired(w);
    var l, n := w.slots[w.cur], |w.slots|;
    var t := l[i].timer;
    assert l[i] in l && l[i] == Entry(t, 0);
    FiresCount(l, t, n, false);
    ZeroCounts(l, t, n);
    AgainAt(l, i, n, false);
  }

  lemma Prepended(x: Timer, d: seq<Timer>, t: Timer)
    ensures multiset([x] + d)[t] == Hit(x == t) + multiset(d)[t]
  {
  }

  lemma {:induction false} DueCount(l: seq<Entry>, t: Timer, n: nat)
    requires n > 0
    ensures multiset(Due(l))[t] == Count(l, Row(t, 0), 0, n)
  {
    if l != [] {
      DueCount(l[1..], t, n);
      if l[0].rotation > 0 {
        MulStep(0, l[0].rotation, n);
        assert Due(l) == Due(l[1..]);
      } else {
        Prepended(l[0].timer, Due(l[1..]), t);
        assert Due(l) == [l[0].timer] + Due(l[1..]);
        TimesZero(l[0].rotation, n);
      }
    }
  }

  lemma NowCounts(e: Entry, t: Timer, n: nat)
    requires n > 0
    ensures multiset(Now(e))[t] == Hit(e.timer == t && e.rotation * n == 0)
  {
    if e.rotation > 0 {
      MulStep(0, e.rotation, n);
    } else {
      TimesZero(e.rotation, n);
    }
  }

  lemma FiresOther(l: seq<Entry>, n: nat, back: bool)
    requires n > 0 && l != [] && !Zero(l[0])
    ensures Fires(l, n, back) == Now(l[0]) + Fires(l[1..], n, back || Loops(l[0], n))
    ensures Again(l, n, back) == Again(l[1..], n, back || Loops(l[0], n))
  {
  }

  lemma ZeroFiresCount(l: seq<Entry>, t: Timer, n: nat, back: bool)
    requires n > 0 && l != [] && Zero(l[0]) && Zeros(l) <= 1 && l[0].rotation == 0
    requires forall e <- l :: Zero(e) ==> e.rotation == 0
    ensures multiset(Fires(l, n, back))[t] == Count(l, Row(t, 0), 0, n)
            + if ZeroTimer(t) && Entry(t, 0) in l then Again(l, n, back) else 0
  {
    DueCount(l[1..], t, n);
    TimesZero(0, n);
    OnlyZero(l, t);
    ZeroVisits(l, t, n, back);
    hide Fires, Due, AnyLoops, Again, Zeros, ZeroTimer, Zero;
  }

  lemma OnlyZero(l: seq<Entry>, t: Timer)
    requires l != [] && Zero(l[0]) && Zeros(l) <= 1 && l[0].rotation == 0
    ensures ZeroTimer(t) && Entry(t, 0) in l <==> t == l[0].timer
  {
    if ZeroTimer(t) && Entry(t, 0) in l {
      var i :| 0 <= i < |l| && l[i] == Entry(t, 0);
      if i > 0 {
        assert l[1..][i - 1] == l[i];
        ZeroIn(l[1..], i - 1);
      }
    }
    assert l[0] == Entry(l[0].timer, 0) && l[0] in l;
  }

  lemma ZeroVisits(l: seq<Entry>, t: Timer, n: nat, back: bool)
    requires n > 0 && l != [] && Zero(l[0])
    ensures multiset(Fires(l, n, back))[t]
            == Hit(l[0].timer == t) + multiset(Due(l[1..]))[t] + if l[0].timer == t then Again(l, n, back) else 0
  {
    ZeroShape(l, n, back);
    hide Fires, Due, Again;
    VisitsCount(l[0].timer, Due(l[1..]), Again(l, n, back), t);
  }

  // The zero timer z with k more visits, and d fired after the first.
  function Visits(z: Timer, d: seq<Timer>, k: nat): seq<Timer> {
    [z] + if k == 0 then d else if k == 1 then d + [z] else d + [z] + [z]
  }

  lemma ZeroShape(l: seq<Entry>, n: nat, back: bool)
    requires n > 0 && l != [] && Zero(l[0])
    ensures Fires(l, n, back) == Visits(l[0].timer, Due(l[1..]), Again(l, n, back))
  {
    var z, d := l[0].timer, Due(l[1..]);
    hide AnyLoops, Due;
    assert d + [z] + [] == d + [z];
    if |l| == 1 {
      assert d == [] by {
        DueOfNone(l[1..]);
      }
    }
  }

  lemma DueOfNone(l: seq<Entry>)
    requires l == []
    ensures Due(l) == []
  {
  }

  lemma VisitsCount(z: Timer, d: seq<Timer>, k: nat, t: Timer)
    requires k <= 2
    ensures multiset(Visits(z, d, k))[t] == Hit(z == t) + multiset(d)[t] + if z == t then k else 0
  {
    Prepended(z, if k == 0 then d else if k == 1 then d + [z] else d + [z] + [z], t);
  }

  // One timer with expires 3 alone on a wheel of 3 slots: after it fires it has 5 passes to
  // wait instead of 2.
  lemma LateExample(t: Timer)
    requires t == Timer(1, 3, true)
    ensures var w := Wheel(0, [[Entry(t, 0)], [], []]);
            ValidWheel(w) && Zeros(w.slots[w.cur]) == 0 && ComesLate(w, t)
            && Table(Tick(w).0, Row(t, 5)) == OnTime(w, Row(t, 5)) + 1
            && Table(Tick(w).0, Row(t, 2)) == OnTime(w, Row(t, 2)) - 1
  {
    var w := Wheel(0, [[Entry(t, 0)], [], []]);
    assert w.slots[0] == [Entry(t, 0)];
    assert Zeros(w.slots[0]) == 0;
    TickTable(w, t, 5);
    TickTable(w, t, 2);
  }
}
