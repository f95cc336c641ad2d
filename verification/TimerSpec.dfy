// The hashed timer wheel of src/hy_timer.c on values: what one pass of _timer_loop_cb does to
// the slot lists, and the naive table of "passes still to wait" that the wheel stands for.
module TimerSpec {
  import opened Arith
  import opened HyList

  // id is the address of the timer, which is also its handle.
  datatype Timer = Timer(id: nat, expires: nat, repeat: bool)

  datatype Entry = Entry(timer: Timer, rotation: nat)

  datatype Wheel = Wheel(cur: nat, slots: seq<seq<Entry>>)

  // A pass in progress: the first `behind` entries of slot cur are dealt with, the cursor is
  // on the next one.  A fired timer is recorded in `fired`.
  datatype Pass = Pass(cur: nat, slots: seq<seq<Entry>>, behind: nat, fired: seq<Timer>)

  predicate Zero(e: Entry) {
    e.timer.repeat && e.timer.expires == 0
  }

  // A zero timer sits in the slot without turns to wait, as HyTimerAdd and the pass put it.
  predicate Proper(n: nat, slots: seq<seq<Entry>>) {
    && |slots| == n > 0
    && (forall s, e :: 0 <= s < n && e in slots[s] && Zero(e) ==> e.rotation == 0)
  }

  ghost predicate ValidWheel(w: Wheel) {
    w.cur < |w.slots| && Proper(|w.slots|, w.slots)
  }

  ghost predicate ValidPass(p: Pass) {
    p.cur < |p.slots| && Proper(|p.slots|, p.slots) && p.behind <= |p.slots[p.cur]|
  }

  function Ahead(p: Pass): seq<Entry>
    requires p.cur < |p.slots| && p.behind <= |p.slots[p.cur]|
  {
    p.slots[p.cur][p.behind..]
  }

  // ---- One turn of the loop over the list -------------------------------------------------

  // The slot a fired repeating timer is linked to again.
  function Target(t: Timer, cur: nat, n: nat): (s: nat)
    requires cur < n
    ensures s < n
  {
    (t.expires % n + cur) % n
  }

  function Relinked(t: Timer, n: nat): Entry
    requires n > 0
  {
    Entry(t, t.expires / n)
  }

  // The cursor's successor is read before the entry is dealt with.  For the last entry of
  // the list that successor is the head, so an entry that is linked back to the end of the
  // very list it was last on is not visited again in this pass.
  function Step(p: Pass): Pass
    requires p.cur < |p.slots| && p.behind < |p.slots[p.cur]|
  {
    var n, list := |p.slots|, p.slots[p.cur];
    var e := list[p.behind];
    if e.rotation > 0 then
      p.(slots := p.slots[p.cur := list[p.behind := e.(rotation := e.rotation - 1)]], behind := p.behind + 1)
    else
      var cut := p.slots[p.cur := RemoveAt(list, p.behind)];
      var fired := p.fired + [e.timer];
      if !e.timer.repeat then
        p.(slots := cut, fired := fired)
      else
        var s := Target(e.timer, p.cur, n);
        var last := p.behind == |list| - 1;
        p.(slots := cut[s := cut[s] + [Relinked(e.timer, n)]], fired := fired,
           behind := if s == p.cur && last then p.behind + 1 else p.behind)
  }

  function Zeros(l: seq<Entry>): nat {
    if l == [] then 0 else (if Zero(l[0]) then 1 else 0) + Zeros(l[1..])
  }

  // Entries that are neither zero timers nor have turns to wait.
  function Ripe(l: seq<Entry>): nat {
    if l == [] then 0 else (if !Zero(l[0]) && l[0].rotation == 0 then 1 else 0) + Ripe(l[1..])
  }

  lemma {:induction false} CountsAppend(l: seq<Entry>, e: Entry)
    ensures Zeros(l + [e]) == Zeros(l) + (if Zero(e) then 1 else 0)
    ensures Ripe(l + [e]) == Ripe(l) + (if !Zero(e) && e.rotation == 0 then 1 else 0)
  {
    if l == [] {
      assert l + [e] == [e];
    } else {
      assert (l + [e])[1..] == l[1..] + [e];
      CountsAppend(l[1..], e);
    }
  }

  lemma {:induction false} ZeroIn(l: seq<Entry>, i: nat)
    requires i < |l| && Zero(l[i])
    ensures Zeros(l) >= 1
  {
    if i > 0 {
      ZeroIn(l[1..], i - 1);
    }
  }

  lemma StepValid(p: Pass)
    requires ValidPass(p) && p.behind < |p.slots[p.cur]|
    ensures ValidPass(Step(p))
  {
    var a, e, n, q := Ahead(p), Ahead(p)[0], |p.slots|, Step(p);
    assert e in p.slots[p.cur];
    DivMod(e.timer.expires, n);
    hide Target;
    forall s, x | 0 <= s < n && x in q.slots[s] && Zero(x)
      ensures x.rotation == 0
    {
      assert x in p.slots[s] || (x.timer == e.timer && x.rotation < e.rotation) || x == Relinked(e.timer, n);
    }
  }

  // What one turn does to the entries ahead of the cursor.
  lemma StepAhead(p: Pass)
    requires ValidPass(p) && p.behind < |p.slots[p.cur]|
    ensures ValidPass(Step(p))
    ensures var a, e, n := Ahead(p), Ahead(p)[0], |p.slots|;
            Ahead(Step(p)) == if e.rotation == 0 && e.timer.repeat && Target(e.timer, p.cur, n) == p.cur && |a| > 1
                              then a[1..] + [Relinked(e.timer, n)] else a[1..]
  {
    StepValid(p);
    hide Proper, Relinked, Target;
    var list, b := p.slots[p.cur], p.behind;
    var cut := RemoveAt(list, b);
    assert cut[b..] == list[b + 1..] == list[b..][1..];
    var e, x := list[b], Relinked(list[b].timer, |p.slots|);
    assert (cut + [x])[b..] == cut[b..] + [x];
    if e.rotation > 0 {
      assert list[b := e.(rotation := e.rotation - 1)][b + 1..] == list[b + 1..];
    }
  }

  // An entry that is relinked to its own slot has a full lap to wait, unless it is a zero timer.
  lemma SameSlot(t: Timer, cur: nat, n: nat)
    requires cur < n
    ensures Target(t, cur, n) == cur <==> t.expires % n == 0
    ensures Target(t, cur, n) == cur && t.expires > 0 ==> t.expires / n >= 1
    ensures t.expires == t.expires / n * n + t.expires % n
  {
    DivMod(t.expires, n);
    ModWrap(t.expires % n, cur, n);
  }

  function Measure(p: Pass): (nat, int, nat)
    requires p.cur < |p.slots| && p.behind <= |p.slots[p.cur]|
  {
    var a := Ahead(p);
    (Ripe(a), |a| - Zeros(a), if a != [] && Zero(a[0]) then 1 else 0)
  }

  // With at most one zero timer on the slot, a turn brings the end of the pass nearer.
  lemma StepDecreases(p: Pass)
    requires ValidPass(p) && p.behind < |p.slots[p.cur]| && Zeros(Ahead(p)) <= 1
    ensures ValidPass(Step(p)) && Zeros(Ahead(Step(p))) <= 1
    ensures (Measure(p).0, Measure(p).1, Measure(p).2 decreases to
             Measure(Step(p)).0, Measure(Step(p)).1, Measure(Step(p)).2)
  {
    var a, e, n := Ahead(p), Ahead(p)[0], |p.slots|;
    StepAhead(p);
    SameSlot(e.timer, p.cur, n);
    CountsAppend(a[1..], Relinked(e.timer, n));
    if |a| > 1 && Zero(e) && Zero(a[1]) {
      ZeroIn(a[1..], 0);
    }
  }

  // ---- When a pass ends -------------------------------------------------------------------

  function Iterate(p: Pass, k: nat): (q: Pass)
    requires p.cur < |p.slots| && p.behind <= |p.slots[p.cur]|
    ensures q.cur < |q.slots| && q.behind <= |q.slots[q.cur]|
    decreases k
  {
    if k == 0 || Ahead(p) == [] then p else Iterate(Step(p), k - 1)
  }

  lemma {:induction false} EndsWithOneZero(p: Pass)
    requires ValidPass(p) && Zeros(Ahead(p)) <= 1
    ensures exists k: nat :: Ahead(Iterate(p, k)) == []
    decreases Measure(p).0, Measure(p).1, Measure(p).2
  {
    if Ahead(p) == [] {
      assert Ahead(Iterate(p, 0)) == [];
    } else {
      StepDecreases(p);
      EndsWithOneZero(Step(p));
      var k: nat :| Ahead(Iterate(Step(p), k)) == [];
      assert Iterate(p, k + 1) == Iterate(Step(p), k);
    }
  }

  lemma TwoZerosStay(p: Pass)
    requires ValidPass(p) && Zeros(Ahead(p)) >= 2
    ensures ValidPass(Step(p)) && Zeros(Ahead(Step(p))) >= 2
  {
    var a, e, n := Ahead(p), Ahead(p)[0], |p.slots|;
    StepAhead(p);
    SameSlot(e.timer, p.cur, n);
    CountsAppend(a[1..], Relinked(e.timer, n));
    hide Step, Ahead, Target;
    assert |a| > 1;
    assert Zeros(a) == (if Zero(e) then 1 else 0) + Zeros(a[1..]);
  }

  lemma {:induction false} RunsOnWithTwoZeros(p: Pass, k: nat)
    requires ValidPass(p) && Zeros(Ahead(p)) >= 2
    ensures Ahead(Iterate(p, k)) != []
    decreases k
  {
    if k > 0 {
      assert Iterate(p, k) == Iterate(Step(p), k - 1);
      TwoZerosStay(p);
      RunsOnWithTwoZeros(Step(p), k - 1);
    }
  }

  // A pass over a slot comes to an end exactly if at most one repeating timer with expires 0
  // is on the slot: two of them are linked behind each other for ever.
  lemma PassEnds(p: Pass)
    requires ValidPass(p)
    ensures (exists k: nat :: Ahead(Iterate(p, k)) == []) <==> Zeros(Ahead(p)) <= 1
  {
    if Zeros(Ahead(p)) <= 1 {
      EndsWithOneZero(p);
    } else {
      forall k: nat
        ensures Ahead(Iterate(p, k)) != []
      {
        RunsOnWithTwoZeros(p, k);
      }
    }
  }

  // The pass, run to its end.
  function Finish(p: Pass): (q: Pass)
    requires ValidPass(p) && Zeros(Ahead(p)) <= 1
    ensures ValidPass(q) && |q.slots| == |p.slots| && q.cur == p.cur && Ahead(q) == []
    decreases Measure(p).0, Measure(p).1, Measure(p).2
  {
    if Ahead(p) == [] then p
    else
      StepDecreases(p);
      Finish(Step(p))
  }

  function Start(w: Wheel): Pass {
    Pass(w.cur, w.slots, 0, [])
  }

  // One tick: a pass over slot cur, then cur moves on.
  function Tick(w: Wheel): (r: (Wheel, seq<Timer>))
    requires ValidWheel(w) && Zeros(w.slots[w.cur]) <= 1
    ensures ValidWheel(r.0) && |r.0.slots| == |w.slots|
  {
    assert Ahead(Start(w)) == w.slots[w.cur];
    var q := Finish(Start(w));
    (Wheel((w.cur + 1) % |w.slots|, q.slots), q.fired)
  }

  // ---- What a pass fires ------------------------------------------------------------------

  // The timers of the entries without turns to wait, in list order.
  function Due(l: seq<Entry>): seq<Timer> {
    if l == [] then [] else (if l[0].rotation == 0 then [l[0].timer] else []) + Due(l[1..])
  }

  lemma {:induction false} DueAppend(l: seq<Entry>, e: Entry)
    ensures Due(l + [e]) == Due(l) + if e.rotation == 0 then [e.timer] else []
  {
    if l == [] {
      assert l + [e] == [e];
    } else {
      assert (l + [e])[1..] == l[1..] + [e];
      DueAppend(l[1..], e);
      var first, d := if l[0].rotation == 0 then [l[0].timer] else [], Due(l[1..]);
      var x := if e.rotation == 0 then [e.timer] else [];
      assert first + (d + x) == first + d + x;
    }
  }

  lemma StepFired(p: Pass)
    requires p.cur < |p.slots| && p.behind < |p.slots[p.cur]|
    ensures Step(p).fired == p.fired + if Ahead(p)[0].rotation == 0 then [Ahead(p)[0].timer] else []
  {
  }

  // An entry that is linked to its own slot again does not fire a second time.
  lemma RelinkWaits(l: seq<Entry>, t: Timer, cur: nat, n: nat)
    requires cur < n && Target(t, cur, n) == cur && t.expires > 0
    ensures Zeros(l + [Relinked(t, n)]) == Zeros(l) && Due(l + [Relinked(t, n)]) == Due(l)
  {
    SameSlot(t, cur, n);
    CountsAppend(l, Relinked(t, n));
    DueAppend(l, Relinked(t, n));
  }

  lemma FirstDue(a: seq<Entry>, cur: nat, n: nat)
    requires a != [] && Zeros(a) == 0 && cur < n
    ensures var e := a[0];
            var rest := if e.rotation == 0 && e.timer.repeat && Target(e.timer, cur, n) == cur && |a| > 1
                        then a[1..] + [Relinked(e.timer, n)] else a[1..];
            Zeros(rest) == 0 && Due(a) == (if e.rotation == 0 then [e.timer] else []) + Due(rest)
  {
    var e := a[0];
    assert !Zero(e) && Zeros(a[1..]) == 0;
    hide Zeros, Relinked, Target;
    if e.timer.repeat && Target(e.timer, cur, n) == cur {
      RelinkWaits(a[1..], e.timer, cur, n);
    }
  }

  // The entry fires and is linked back to the slot the pass is on.
  predicate Loops(e: Entry, n: nat)
    requires n > 0
  {
    e.rotation == 0 && e.timer.repeat && e.timer.expires % n == 0
  }

  predicate AnyLoops(l: seq<Entry>, n: nat)
    requires n > 0
  {
    exists e <- l :: Loops(e, n)
  }

  // What the pass fires from the entries ahead of it on: those without turns to wait, in list order,
  // and a zero timer once more if another entry follows it, or comes back behind it, and a third time
  // if one that follows it comes back.  back tells whether an entry before l comes back behind l.
  function Fires(l: seq<Entry>, n: nat, back: bool): seq<Timer>
    requires n > 0
  {
    if l == [] then []
    else
      var t := l[0].timer;
      if Zero(l[0]) then
        [t] + if |l| == 1 && !back then [] else Due(l[1..]) + [t] + if AnyLoops(l[1..], n) then [t] else []
      else (if l[0].rotation == 0 then [t] else []) + Fires(l[1..], n, back || Loops(l[0], n))
  }

  lemma {:induction false} FiresIsDue(l: seq<Entry>, n: nat, back: bool)
    requires n > 0 && Zeros(l) == 0
    ensures Fires(l, n, back) == Due(l)
  {
    if l != [] {
      FiresIsDue(l[1..], n, back || Loops(l[0], n));
    }
  }

  lemma AnyOfRest(l: seq<Entry>, n: nat)
    requires n > 0 && l != []
    ensures AnyLoops(l, n) <==> Loops(l[0], n) || AnyLoops(l[1..], n)
  {
    hide Loops;
    assert l == [l[0]] + l[1..];
  }

  lemma AnyOfMore(l: seq<Entry>, e: Entry, n: nat)
    requires n > 0
    ensures AnyLoops(l + [e], n) <==> AnyLoops(l, n) || Loops(e, n)
  {
    hide Loops;
  }

  // The zero timer, fired for the first time, is the last in the list.
  lemma {:induction false} FiresToZero(l: seq<Entry>, z: Entry, n: nat, back: bool)
    requires n > 0 && Zeros(l) == 0 && Zero(z)
    ensures Fires(l + [z], n, back) == Due(l) + [z.timer] + if back || AnyLoops(l, n) then [z.timer] else []
  {
    if l == [] {
      assert l + [z] == [z] && [z][1..] == [];
    } else {
      var b := back || Loops(l[0], n);
      assert (l + [z])[1..] == l[1..] + [z];
      assert Fires(l + [z], n, back) == Now(l[0]) + Fires(l[1..] + [z], n, b);
      assert Due(l) == Now(l[0]) + Due(l[1..]);
      FiresToZero(l[1..], z, n, b);
      AnyOfRest(l, n);
      hide AnyLoops, Loops, Fires, Due, Now;
      Regrouped(Now(l[0]), Due(l[1..]), [z.timer], if b || AnyLoops(l[1..], n) then [z.timer] else []);
    }
  }

  lemma Regrouped(x: seq<Timer>, y: seq<Timer>, z: seq<Timer>, w: seq<Timer>)
    ensures x + (y + z + w) == x + y + z + w
  {
  }

  // An entry that comes back behind the zero timer.
  lemma {:induction false} FiresBack(l: seq<Entry>, e: Entry, n: nat, back: bool)
    requires n > 0 && Zeros(l) == 1 && !Zero(e) && e.rotation > 0
    ensures Fires(l + [e], n, back) == Fires(l, n, true)
  {
    assert (l + [e])[1..] == l[1..] + [e];
    if Zero(l[0]) {
      DueAppend(l[1..], e);
      AnyOfMore(l[1..], e, n);
      hide AnyLoops, Due;
      assert Due(l[1..]) + [] == Due(l[1..]);
    } else {
      FiresBack(l[1..], e, n, back || Loops(l[0], n));
    }
  }

  // What a turn leaves ahead of the cursor, as StepAhead says.
  function Rest(a: seq<Entry>, cur: nat, n: nat): seq<Entry>
    requires a != [] && cur < n
  {
    if a[0].rotation == 0 && a[0].timer.repeat && Target(a[0].timer, cur, n) == cur && |a| > 1
    then a[1..] + [Relinked(a[0].timer, n)] else a[1..]
  }

  function Now(e: Entry): seq<Timer> {
    if e.rotation == 0 then [e.timer] else []
  }

  lemma ZeroFirst(a: seq<Entry>, cur: nat, n: nat)
    requires cur < n && |a| > 1 && Zeros(a) <= 1 && Zero(a[0]) && a[0].rotation == 0
    ensures Fires(a, n, false) == Now(a[0]) + Fires(Rest(a, cur, n), n, false)
  {
    ZeroRest(a, cur, n);
    hide Rest, Zeros, Zero;
    FiresToZero(a[1..], a[0], n, false);
    hide AnyLoops, Due, Fires;
  }

  lemma ZeroRest(a: seq<Entry>, cur: nat, n: nat)
    requires cur < n && |a| > 1 && Zeros(a) <= 1 && Zero(a[0]) && a[0].rotation == 0
    ensures Rest(a, cur, n) == a[1..] + [a[0]] && Zeros(a[1..]) == 0
    ensures Fires(a, n, false)
            == [a[0].timer] + (Due(a[1..]) + [a[0].timer] + if AnyLoops(a[1..], n) then [a[0].timer] else [])
  {
    SameSlot(a[0].timer, cur, n);
    hide Due, AnyLoops;
    assert Relinked(a[0].timer, n) == a[0];
  }

  lemma OtherFirst(a: seq<Entry>, cur: nat, n: nat)
    requires cur < n && |a| > 1 && Zeros(a) == 1 && !Zero(a[0])
    ensures Fires(a, n, false) == Now(a[0]) + Fires(Rest(a, cur, n), n, false)
  {
    var e := a[0];
    SameSlot(e.timer, cur, n);
    if Loops(e, n) {
      FiresBack(a[1..], Relinked(e.timer, n), n, false);
    }
  }

  lemma NoZeroFirst(a: seq<Entry>, cur: nat, n: nat)
    requires cur < n && a != [] && Zeros(a) == 0
    ensures Fires(a, n, false) == Now(a[0]) + Fires(Rest(a, cur, n), n, false)
  {
    FirstDue(a, cur, n);
    var rest := Rest(a, cur, n);
    assert Zeros(rest) == 0 && Due(a) == Now(a[0]) + Due(rest);
    hide Zeros, Fires, Due, Rest, Now;
    FiresIsDue(a, n, false);
    FiresIsDue(rest, n, false);
  }

  lemma FirstFires(a: seq<Entry>, cur: nat, n: nat)
    requires a != [] && Zeros(a) <= 1 && cur < n && (Zero(a[0]) ==> a[0].rotation == 0)
    ensures Fires(a, n, false) == Now(a[0]) + Fires(Rest(a, cur, n), n, false)
  {
    if Zeros(a) == 0 {
      NoZeroFirst(a, cur, n);
    } else if |a| > 1 {
      hide Fires, Rest, Now, Zeros;
      if Zero(a[0]) {
        ZeroFirst(a, cur, n);
      } else {
        OtherFirst(a, cur, n);
      }
    } else {
      assert Zero(a[0]) && Rest(a, cur, n) == [];
    }
  }

  lemma StepFires(p: Pass)
    requires ValidPass(p) && Zeros(Ahead(p)) <= 1 && Ahead(p) != []
    ensures var n := |p.slots|;
            && ValidPass(Step(p)) && |Step(p).slots| == n
            && Step(p).fired + Fires(Ahead(Step(p)), n, false) == p.fired + Fires(Ahead(p), n, false)
  {
    var a, n := Ahead(p), |p.slots|;
    StepAhead(p);
    StepFired(p);
    StepBehindSame(p);
    assert a[0] in p.slots[p.cur];
    assert Ahead(Step(p)) == Rest(a, p.cur, n) && Step(p).fired == p.fired + Now(a[0]);
    hide Step, Ahead, Fires, Zeros, Target, Relinked, Rest, Now;
    FirstFires(a, p.cur, n);
    ThreeParts(p.fired, Now(a[0]), Fires(Rest(a, p.cur, n), n, false));
  }

  lemma StepBehindSame(p: Pass)
    requires p.cur < |p.slots| && p.behind < |p.slots[p.cur]|
    ensures |Step(p).slots| == |p.slots| && Step(p).cur == p.cur
  {
  }

  lemma ThreeParts(x: seq<Timer>, y: seq<Timer>, z: seq<Timer>)
    ensures x + y + z == x + (y + z)
  {
  }

  // What is left of a pass fires exactly the entries ahead of the cursor that have no turns to wait,
  // in list order, each once but for a zero timer.
  lemma {:induction false} FiresDue(p: Pass)
    requires ValidPass(p) && Zeros(Ahead(p)) <= 1
    ensures Finish(p).fired == p.fired + Fires(Ahead(p), |p.slots|, false)
    ensures Zeros(Ahead(p)) == 0 ==> Finish(p).fired == p.fired + Due(Ahead(p))
    decreases Measure(p).0, Measure(p).1, Measure(p).2
  {
    if Zeros(Ahead(p)) == 0 {
      FiresIsDue(Ahead(p), |p.slots|, false);
    }
    if Ahead(p) != [] {
      StepFires(p);
      StepDecreases(p);
      hide Step, Fires, Due, Zeros;
      FiresDue(Step(p));
    }
  }
}
