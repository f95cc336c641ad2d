// Whole runs of the timer service: ticks with HyTimerAdd and HyTimerDel in between.
module TimerRuns {
  import opened Arith
  import opened HyList
  import opened TimerSpec
  import opened TimerTable

  // ---- How often a handle is in use -------------------------------------------------------

  function Uses(l: seq<Entry>, id: nat): nat {
    if l == [] then 0 else Hit(l[0].timer.id == id) + Uses(l[1..], id)
  }

  function UsesFrom(slots: seq<seq<Entry>>, id: nat, k: nat): nat
    requires k <= |slots|
    decreases |slots| - k
  {
    if k == |slots| then 0 else Uses(slots[k], id) + UsesFrom(slots, id, k + 1)
  }

  lemma {:induction false} UsesAppend(l: seq<Entry>, m: seq<Entry>, id: nat)
    ensures Uses(l + m, id) == Uses(l, id) + Uses(m, id)
  {
    if l == [] {
      assert l + m == m;
    } else {
      assert (l + m)[1..] == l[1..] + m;
      UsesAppend(l[1..], m, id);
    }
  }

  lemma {:induction false} UsesUpdate(slots: seq<seq<Entry>>, id: nat, k: nat, s: nat, l: seq<Entry>)
    requires k <= |slots| && s < |slots|
    ensures UsesFrom(slots[s := l], id, k) + (if k <= s then Uses(slots[s], id) else 0)
         == UsesFrom(slots, id, k) + (if k <= s then Uses(l, id) else 0)
    decreases |slots| - k
  {
    if k < |slots| {
      UsesUpdate(slots, id, k + 1, s, l);
    }
  }

  // Two different rows of one handle are two uses of it.
  lemma {:induction false} RowsUse(l: seq<Entry>, t: Timer, r: nat, q: nat, d: nat, n: nat)
    requires r != q
    ensures Count(l, Row(t, r), d, n) + Count(l, Row(t, q), d, n) <= Uses(l, t.id)
  {
    if l != [] {
      RowsUse(l[1..], t, r, q, d, n);
    }
  }

  lemma {:induction false} TableUses(slots: seq<seq<Entry>>, cur: nat, t: Timer, r: nat, q: nat, k: nat)
    requires cur < |slots| && k <= |slots| && r != q
    ensures CountFrom(slots, cur, Row(t, r), k) + CountFrom(slots, cur, Row(t, q), k) <= UsesFrom(slots, t.id, k)
    decreases |slots| - k
  {
    if k < |slots| {
      TableUses(slots, cur, t, r, q, k + 1);
      RowsUse(slots[k], t, r, q, Dist(k, cur, |slots|), |slots|);
    }
  }

  // The once timers with this handle that the pass is going to free.
  function Freed(l: seq<Entry>, id: nat): nat {
    if l == [] then 0 else Hit(l[0].rotation == 0 && !l[0].timer.repeat && l[0].timer.id == id) + Freed(l[1..], id)
  }

  lemma {:induction false} FreedAppend(l: seq<Entry>, e: Entry, id: nat)
    ensures Freed(l + [e], id) == Freed(l, id) + Hit(e.rotation == 0 && !e.timer.repeat && e.timer.id == id)
  {
    if l == [] {
      assert l + [e] == [e];
    } else {
      assert (l + [e])[1..] == l[1..] + [e];
      FreedAppend(l[1..], e, id);
    }
  }

  lemma UsesAt(l: seq<Entry>, b: nat, id: nat)
    requires b < |l|
    ensures Uses(l, id) == Uses(RemoveAt(l, b), id) + Hit(l[b].timer.id == id)
  {
    assert l == l[..b] + ([l[b]] + l[b + 1..]);
    UsesAppend(l[..b], [l[b]] + l[b + 1..], id);
    UsesAppend([l[b]], l[b + 1..], id);
    UsesAppend(l[..b], l[b + 1..], id);
  }

  // One turn of the pass keeps all entries but a once timer that fires.
  lemma StepSlots(p: Pass, id: nat)
    requires p.cur < |p.slots| && p.behind < |p.slots[p.cur]|
    ensures var e := Ahead(p)[0];
            UsesFrom(Step(p).slots, id, 0) + Hit(e.rotation == 0 && !e.timer.repeat && e.timer.id == id)
            == UsesFrom(p.slots, id, 0)
  {
    var c, b, l := p.cur, p.behind, p.slots[p.cur];
    var e := l[b];
    UsesAt(l, b, id);
    if e.rotation > 0 {
      var m := l[b := e.(rotation := e.rotation - 1)];
      UsesAt(m, b, id);
      assert RemoveAt(m, b) == RemoveAt(l, b);
      UsesUpdate(p.slots, id, 0, c, m);
    } else {
      var cut := p.slots[c := RemoveAt(l, b)];
      UsesUpdate(p.slots, id, 0, c, RemoveAt(l, b));
      if e.timer.repeat {
        var s, x := Target(e.timer, c, |p.slots|), [Relinked(e.timer, |p.slots|)];
        UsesAppend(cut[s], x, id);
        UsesUpdate(cut, id, 0, s, cut[s] + x);
      }
    }
  }

  lemma StepUses(p: Pass, id: nat)
    requires ValidPass(p) && Ahead(p) != []
    ensures ValidPass(Step(p))
    ensures UsesFrom(Step(p).slots, id, 0) + Freed(Ahead(p), id) == UsesFrom(p.slots, id, 0) + Freed(Ahead(Step(p)), id)
  {
    hide Step;
    StepAhead(p);
    StepSlots(p, id);
    FreedAppend(Ahead(p)[1..], Relinked(Ahead(p)[0].timer, |p.slots|), id);
  }

  lemma {:induction false} FinishUses(p: Pass, id: nat)
    requires ValidPass(p) && Zeros(Ahead(p)) <= 1
    ensures UsesFrom(Finish(p).slots, id, 0) + Freed(Ahead(p), id) == UsesFrom(p.slots, id, 0)
    decreases Measure(p).0, Measure(p).1, Measure(p).2
  {
    if Ahead(p) != [] {
      hide Step;
      StepUses(p, id);
      StepDecreases(p);
      FinishUses(Step(p), id);
    }
  }

  lemma {:induction false} FreedCount(l: seq<Entry>, t: Timer, n: nat)
    requires n > 0 && !t.repeat
    ensures Freed(l, t.id) >= Count(l, Row(t, 0), 0, n)
  {
    if l != [] {
      FreedCount(l[1..], t, n);
      if l[0].rotation > 0 {
        MulStep(0, l[0].rotation, n);
      }
    }
  }

  // ---- One timer over one tick ------------------------------------------------------------

  function InUse(w: Wheel, id: nat): nat {
    UsesFrom(w.slots, id, 0)
  }

  // The handle of t is in use once, by t, which has r passes to wait.
  predicate Awaits(w: Wheel, t: Timer, r: nat)
    requires w.cur < |w.slots|
  {
    InUse(w, t.id) == 1 && Table(w, Row(t, r)) == 1
  }

  lemma TickUses(w: Wheel, id: nat)
    requires ValidWheel(w) && Zeros(w.slots[w.cur]) <= 1
    ensures InUse(Tick(w).0, id) + Freed(w.slots[w.cur], id) == InUse(w, id)
  {
    assert Ahead(Start(w)) == w.slots[w.cur];
    FinishUses(Start(w), id);
  }

  // A timer with passes left to wait does not fire, and has one less to wait.
  lemma TickWaits(w: Wheel, t: Timer, r: nat)
    requires ValidWheel(w) && Zeros(w.slots[w.cur]) <= 1 && Awaits(w, t, r + 1)
    ensures Awaits(Tick(w).0, t, r) && multiset(Tick(w).1)[t] == 0
  {
    hide Tick, Table, ComesLate;
    var v := Tick(w).0;
    TableUsesOf(w, t, r + 1, 0);
    TickFires(w, t);
    TickUses(w, t.id);
    TickTable(w, t, r);
    if ComesLate(w, t) {
      LateShows(w, t);
    }
    TableUsesOf(v, t, r, r + 1);
  }

  lemma TableUsesOf(w: Wheel, t: Timer, r: nat, q: nat)
    requires w.cur < |w.slots| && r != q
    ensures Table(w, Row(t, r)) + Table(w, Row(t, q)) <= InUse(w, t.id)
  {
    TableUses(w.slots, w.cur, t, r, q, 0);
  }

  lemma ZeroIsLate(w: Wheel, t: Timer)
    requires ValidWheel(w) && Zeros(w.slots[w.cur]) <= 1 && ZeroTimer(t) && Table(w, Row(t, 0)) > 0
    ensures ComesLate(w, t)
  {
    NothingLeft(w.slots, w.cur, t, 0);
    ZeroCounts(w.slots[w.cur], t, |w.slots|);
  }

  // The passes from one firing of a repeating timer to the next: a lap more than `expires` if it
  // comes late, as a zero timer always does.
  function Gap(w: Wheel, t: Timer): (g: nat)
    requires w.cur < |w.slots|
    ensures t.repeat ==> g > 0
  {
    t.expires + if ComesLate(w, t) || ZeroTimer(t) then |w.slots| else 0
  }

  // f fires t exactly if b, and then once unless it is a zero timer.
  predicate FiresIf(f: seq<Timer>, t: Timer, b: bool) {
    (t in f <==> b) && (!ZeroTimer(t) ==> multiset(f)[t] == Hit(b))
  }

  // A timer with nothing left to wait fires.  If it repeats it starts anew, and it is late by a
  // lap exactly if it was the last and the only one to loop, or is a zero timer.
  lemma TickStarts(w: Wheel, t: Timer)
    requires ValidWheel(w) && Zeros(w.slots[w.cur]) <= 1 && Awaits(w, t, 0) && t.repeat
    ensures FiresIf(Tick(w).1, t, true) && Awaits(Tick(w).0, t, Gap(w, t) - 1)
  {
    if ZeroTimer(t) {
      ZeroIsLate(w, t);
    }
    hide Tick, Table, ComesLate;
    var v, r := Tick(w).0, Gap(w, t) - 1;
    TickFires(w, t);
    TickUses(w, t.id);
    TickTable(w, t, r);
    TableUsesOf(v, t, r, r + 1);
  }

  lemma TickEnds(w: Wheel, t: Timer)
    requires ValidWheel(w) && Zeros(w.slots[w.cur]) <= 1 && Awaits(w, t, 0) && !t.repeat
    ensures multiset(Tick(w).1)[t] == 1 && InUse(Tick(w).0, t.id) == 0
  {
    TickFires(w, t);
    TickUses(w, t.id);
    NothingLeft(w.slots, w.cur, t, 0);
    FreedCount(w.slots[w.cur], t, |w.slots|);
  }

  // ---- HyTimerAdd and HyTimerDel ----------------------------------------------------------

  function AddTimer(w: Wheel, t: Timer): Wheel
    requires |w.slots| > 0
  {
    var s := t.expires % |w.slots|;
    w.(slots := w.slots[s := w.slots[s] + [Relinked(t, |w.slots|)]])
  }

  lemma AddTable(w: Wheel, t: Timer, row: Row)
    requires w.cur < |w.slots|
    ensures Table(AddTimer(w, t), row) == Table(w, row) + Hit(row == Row(t, FirstWait(t, w.cur, |w.slots|)))
    ensures forall id :: InUse(AddTimer(w, t), id) == InUse(w, id) + Hit(t.id == id)
  {
    var n, s := |w.slots|, t.expires % |w.slots|;
    var l := w.slots[s] + [Relinked(t, n)];
    CountAppend(w.slots[s], Relinked(t, n), row, Dist(s, w.cur, n), n);
    CountUpdate(w.slots, w.cur, row, 0, s, l);
    forall id
      ensures InUse(AddTimer(w, t), id) == InUse(w, id) + Hit(t.id == id)
    {
      UsesAppend(w.slots[s], [Relinked(t, n)], id);
      UsesUpdate(w.slots, id, 0, s, l);
    }
  }

  // The delay promised is `expires`; it is kept exactly if the wheel stands at slot 0, and
  // missed by less than a lap otherwise.
  lemma FirstWaitExact(t: Timer, cur: nat, n: nat)
    requires cur < n
    ensures FirstWait(t, cur, n) == if cur <= t.expires % n then t.expires - cur else t.expires - cur + n
    ensures FirstWait(t, cur, n) == t.expires <==> cur == 0
    ensures t.expires - n < FirstWait(t, cur, n) < t.expires + n
  {
    DivMod(t.expires, n);
  }

  // The position of the first entry with this handle, or the length of the list.
  function FindId(l: seq<Entry>, id: nat): (i: nat)
    ensures i <= |l| && (i < |l| ==> l[i].timer.id == id)
    ensures forall j :: 0 <= j < i ==> l[j].timer.id != id
  {
    if l == [] then 0 else if l[0].timer.id == id then 0 else 1 + FindId(l[1..], id)
  }

  // The slots are searched in order, and the first entry with the handle is unlinked.
  function DelFrom(slots: seq<seq<Entry>>, id: nat, k: nat): (r: seq<seq<Entry>>)
    requires k <= |slots|
    ensures |r| == |slots|
    decreases |slots| - k
  {
    if k == |slots| then slots
    else
      var i := FindId(slots[k], id);
      if i < |slots[k]| then slots[k := RemoveAt(slots[k], i)] else DelFrom(slots, id, k + 1)
  }

  function DelTimer(w: Wheel, id: nat): Wheel {
    w.(slots := DelFrom(w.slots, id, 0))
  }

  lemma CountAt(l: seq<Entry>, b: nat, row: Row, d: nat, n: nat)
    requires b < |l|
    ensures Count(l, row, d, n) == Count(RemoveAt(l, b), row, d, n)
            + Hit(l[b].timer == row.timer && d + l[b].rotation * n == row.left)
    decreases b
  {
    if b == 0 {
      assert RemoveAt(l, 0) == l[1..];
    } else {
      CountAt(l[1..], b - 1, row, d, n);
      assert RemoveAt(l, b)[1..] == RemoveAt(l[1..], b - 1);
    }
  }

  lemma {:induction false} NotFound(l: seq<Entry>, id: nat)
    requires forall j :: 0 <= j < |l| ==> l[j].timer.id != id
    ensures Uses(l, id) == 0
  {
    if l != [] {
      NotFound(l[1..], id);
    }
  }

  // Deleting takes away one use of the handle, if there is one, and nothing else.
  lemma {:induction false} DelUses(slots: seq<seq<Entry>>, id: nat, k: nat, other: nat)
    requires k <= |slots|
    ensures UsesFrom(DelFrom(slots, id, k), other, k)
         == UsesFrom(slots, other, k) - Hit(other == id && UsesFrom(slots, id, k) > 0)
    decreases |slots| - k
  {
    if k < |slots| {
      var i := FindId(slots[k], id);
      if i < |slots[k]| {
        UsesAt(slots[k], i, other);
        UsesAt(slots[k], i, id);
        UsesUpdate(slots, other, k, k, RemoveAt(slots[k], i));
      } else {
        NotFound(slots[k], id);
        DelUses(slots, id, k + 1, other);
        DelKeeps(slots, id, k + 1, k);
      }
    }
  }

  lemma {:induction false} DelKeeps(slots: seq<seq<Entry>>, id: nat, k: nat, s: nat)
    requires s < k <= |slots|
    ensures DelFrom(slots, id, k)[s] == slots[s]
    decreases |slots| - k
  {
    if k < |slots| && FindId(slots[k], id) == |slots[k]| {
      DelKeeps(slots, id, k + 1, s);
    }
  }

  lemma {:induction false} DelCounts(slots: seq<seq<Entry>>, id: nat, k: nat, cur: nat, row: Row)
    requires k <= |slots| && cur < |slots| && row.timer.id != id
    ensures CountFrom(DelFrom(slots, id, k), cur, row, k) == CountFrom(slots, cur, row, k)
    decreases |slots| - k
  {
    if k < |slots| {
      var i := FindId(slots[k], id);
      if i < |slots[k]| {
        CountAt(slots[k], i, row, Dist(k, cur, |slots|), |slots|);
        CountUpdate(slots, cur, row, k, k, RemoveAt(slots[k], i));
      } else {
        DelCounts(slots, id, k + 1, cur, row);
        DelKeeps(slots, id, k + 1, k);
      }
    }
  }

  // A handle that is in use once is free after the deletion, and its rows are gone; the rows
  // of all other handles stay.
  lemma DelTable(w: Wheel, id: nat, row: Row)
    requires w.cur < |w.slots| && InUse(w, id) <= 1
    ensures InUse(DelTimer(w, id), id) == 0
    ensures forall other :: other != id ==> InUse(DelTimer(w, id), other) == InUse(w, other)
    ensures Table(DelTimer(w, id), row) == if row.timer.id == id then 0 else Table(w, row)
  {
    forall other
      ensures InUse(DelTimer(w, id), other) == InUse(w, other) - Hit(other == id && InUse(w, id) > 0)
    {
      DelUses(w.slots, id, 0, other);
    }
    if row.timer.id == id {
      TableUsesOf(DelTimer(w, id), row.timer, row.left, row.left + 1);
    } else {
      DelCounts(w.slots, id, 0, w.cur, row);
    }
  }

  // ---- Runs -------------------------------------------------------------------------------

  datatype Event = Elapse | Add(timer: Timer) | Del(id: nat)

  lemma AddValid(w: Wheel, t: Timer)
    requires ValidWheel(w)
    ensures ValidWheel(AddTimer(w, t))
  {
    assert Zero(Relinked(t, |w.slots|)) ==> Relinked(t, |w.slots|).rotation == 0;
    var v, s := AddTimer(w, t), t.expires % |w.slots|;
    assert forall i :: 0 <= i < |v.slots| && i != s ==> v.slots[i] == w.slots[i];
    assert forall e :: e in v.slots[s] ==> e in w.slots[s] || e == Relinked(t, |w.slots|);
  }

  lemma {:induction false} DelValid(slots: seq<seq<Entry>>, id: nat, k: nat)
    requires k <= |slots| && |slots| > 0 && Proper(|slots|, slots)
    ensures Proper(|slots|, DelFrom(slots, id, k))
    decreases |slots| - k
  {
    if k < |slots| {
      DelValid(slots, id, k + 1);
    }
  }

  // The caller's part in an event: malloc does not hand out the address of a timer that is still on
  // the wheel, and a pass finds one zero timer at most.
  predicate Allowed(w: Wheel, ev: Event)
    requires w.cur < |w.slots|
  {
    match ev
    case Elapse => Zeros(w.slots[w.cur]) <= 1
    case Add(t) => InUse(w, t.id) == 0
    case Del(_) => true
  }

  // What an event does to the wheel.
  ghost function After(w: Wheel, ev: Event): (v: Wheel)
    requires ValidWheel(w) && Allowed(w, ev)
    ensures ValidWheel(v) && |v.slots| == |w.slots|
  {
    match ev
    case Elapse => Tick(w).0
    case Add(t) =>
      AddValid(w, t);
      AddTimer(w, t)
    case Del(id) =>
      DelValid(w.slots, id, 0);
      DelTimer(w, id)
  }

  ghost predicate Legal(w: Wheel, es: seq<Event>)
    requires ValidWheel(w)
    decreases |es|
  {
    es == [] || (Allowed(w, es[0]) && Legal(After(w, es[0]), es[1..]))
  }

  // What the passes of a run fire, pass by pass.
  ghost function Firings(w: Wheel, es: seq<Event>): seq<seq<Timer>>
    requires ValidWheel(w) && Legal(w, es)
    decreases |es|
  {
    if es == [] then []
    else if es[0] == Elapse then [Tick(w).1] + Firings(After(w, Elapse), es[1..])
    else Firings(After(w, es[0]), es[1..])
  }

  // An event other than a tick that is not about the handle of t leaves t as it is.
  lemma OthersKeep(w: Wheel, ev: Event, t: Timer, r: nat)
    requires ValidWheel(w) && ev != Elapse && Allowed(w, ev) && Awaits(w, t, r) && ev != Del(t.id)
    ensures Awaits(After(w, ev), t, r)
  {
    match ev
    case Add(u) => AddTable(w, u, Row(t, r));
    case Del(id) =>
      DelCounts(w.slots, id, 0, w.cur, Row(t, r));
      DelUses(w.slots, id, 0, t.id);
  }

  function ModHit(k: nat, r: nat, expires: nat): nat
    requires expires > 0
  {
    Hit(k >= r && (k - r) % expires == 0)
  }

  // The pattern seen from one pass later.
  lemma ModHitLater(k: nat, r: nat, expires: nat)
    requires expires > 0
    ensures ModHit(0, r, expires) == Hit(r == 0)
    ensures k > 0 ==> ModHit(k, r, expires) == ModHit(k - 1, if r > 0 then r - 1 else expires - 1, expires)
  {
    if k >= expires && r == 0 {
      ModAdd(expires, k - expires, expires);
      DivModUnique(1, expires, 0);
    } else if r == 0 {
      DivMod(k, expires);
    }
  }

  lemma LateLoops(w: Wheel, t: Timer)
    requires w.cur < |w.slots| && t.expires % |w.slots| != 0
    ensures t.expires > 0 && !ComesLate(w, t)
  {
    DivMod(0, |w.slots|);
  }

  // A repeating timer whose `expires` is no multiple of the number of slots fires at the
  // passes r, r + expires, r + 2 * expires, ... and at no others, until it is deleted,
  // whatever other timers are added and deleted meanwhile.
  lemma {:induction false} EvenSchedule(w: Wheel, es: seq<Event>, t: Timer, r: nat)
    requires ValidWheel(w) && Legal(w, es) && Awaits(w, t, r)
    requires t.repeat && t.expires % |w.slots| != 0 && Del(t.id) !in es
    ensures t.expires > 0
    ensures forall k :: 0 <= k < |Firings(w, es)| ==> multiset(Firings(w, es)[k])[t] == ModHit(k, r, t.expires)
    decreases |es|
  {
    LateLoops(w, t);
    hide Awaits, Proper, ComesLate, ModHit;
    if es != [] {
      var v := After(w, es[0]);
      if es[0] == Elapse {
        if r > 0 {
          TickWaits(w, t, r - 1);
          EvenSchedule(v, es[1..], t, r - 1);
        } else {
          TickStarts(w, t);
          EvenSchedule(v, es[1..], t, t.expires - 1);
        }
        var f := Firings(v, es[1..]);
        forall k | 0 <= k < |Firings(w, es)|
          ensures multiset(Firings(w, es)[k])[t] == ModHit(k, r, t.expires)
        {
          ModHitLater(k, r, t.expires);
          assert k > 0 ==> Firings(w, es)[k] == f[k - 1];
        }
      } else {
        OthersKeep(w, es[0], t, r);
        EvenSchedule(v, es[1..], t, r);
      }
    }
  }

  // A timer with r passes to wait, of whatever kind, fires at pass r and not before.
  lemma {:induction false} FirstFiring(w: Wheel, es: seq<Event>, t: Timer, r: nat)
    requires ValidWheel(w) && Legal(w, es) && Awaits(w, t, r) && Del(t.id) !in es
    ensures forall k :: 0 <= k < |Firings(w, es)| && k <= r ==> FiresIf(Firings(w, es)[k], t, k == r)
    decreases |es|
  {
    if es != [] {
      var v := After(w, es[0]);
      if es[0] == Elapse {
        FiresNow(w, t, r);
        if r > 0 {
          TickWaits(w, t, r - 1);
          hide Awaits, Proper, FiresIf;
          FirstFiring(v, es[1..], t, r - 1);
          var f := Firings(v, es[1..]);
          assert forall k :: 0 < k < |Firings(w, es)| ==> Firings(w, es)[k] == f[k - 1];
        }
      } else {
        OthersKeep(w, es[0], t, r);
        hide Awaits, Proper, FiresIf;
        FirstFiring(v, es[1..], t, r);
      }
    }
  }

  lemma FiresNow(w: Wheel, t: Timer, r: nat)
    requires ValidWheel(w) && Zeros(w.slots[w.cur]) <= 1 && Awaits(w, t, r)
    ensures FiresIf(Tick(w).1, t, r == 0)
  {
    TickFires(w, t);
    if r > 0 {
      TableUsesOf(w, t, r, 0);
    }
  }

  // A repeating timer of any `expires` that fires now fires next after exactly `expires` passes,
  // or a lap later exactly if it was the last and the only one to loop, or if `expires` is 0.
  lemma NextFiring(w: Wheel, es: seq<Event>, t: Timer)
    requires ValidWheel(w) && Legal(w, [Elapse] + es) && Awaits(w, t, 0) && Del(t.id) !in es && t.repeat
    ensures var f, gap := Firings(w, [Elapse] + es), Gap(w, t);
            forall k :: 0 <= k < |f| && k <= gap ==> FiresIf(f[k], t, k == 0 || k == gap)
  {
    hide Awaits, Gap, Tick, After, Legal, Firings, FiresIf;
    ElapseFirst(w, es);
    TickStarts(w, t);
    var v := After(w, Elapse);
    FirstFiring(v, es, t, Gap(w, t) - 1);
    var g, f := Firings(v, es), Firings(w, [Elapse] + es);
    assert forall k :: 0 < k < |f| ==> f[k] == g[k - 1];
  }

  lemma ElapseFirst(w: Wheel, es: seq<Event>)
    requires ValidWheel(w) && Legal(w, [Elapse] + es)
    ensures Zeros(w.slots[w.cur]) <= 1
    ensures After(w, Elapse) == Tick(w).0 && Legal(After(w, Elapse), es)
    ensures Firings(w, [Elapse] + es) == [Tick(w).1] + Firings(After(w, Elapse), es)
  {
    hide Proper, Tick;
    assert ([Elapse] + es)[1..] == es;
  }

  // The wheel before pass k of a run.
  ghost function Before(w: Wheel, es: seq<Event>, k: nat): (v: Wheel)
    requires ValidWheel(w) && Legal(w, es) && k < |Firings(w, es)|
    ensures ValidWheel(v)
    decreases |es|
  {
    if es[0] != Elapse then Before(After(w, es[0]), es[1..], k)
    else if k == 0 then w
    else Before(After(w, Elapse), es[1..], k - 1)
  }

  // Over a whole run: whenever a repeating timer of any `expires` has fired, it fires next after
  // exactly `expires` passes, or a lap later exactly if it came late from the pass that fired it.
  lemma {:induction false} EveryGap(w: Wheel, es: seq<Event>, t: Timer, r: nat, k: nat)
    requires ValidWheel(w) && Legal(w, es) && Awaits(w, t, r) && Del(t.id) !in es && t.repeat
    requires k < |Firings(w, es)| && t in Firings(w, es)[k]
    ensures var f, gap := Firings(w, es), Gap(Before(w, es, k), t);
            forall j :: k <= j < |f| && j <= k + gap ==> FiresIf(f[j], t, j == k || j == k + gap)
    decreases |es|
  {
    hide Awaits, Proper, Gap, FiresIf;
    var v := After(w, es[0]);
    if es[0] != Elapse {
      OthersKeep(w, es[0], t, r);
      EveryGap(v, es[1..], t, r, k);
    } else if k == 0 {
      FiredIsDue(w, t, r);
      assert es == [Elapse] + es[1..];
      NextFiring(w, es[1..], t);
    } else {
      if r > 0 {
        TickWaits(w, t, r - 1);
      } else {
        TickStarts(w, t);
      }
      EveryGap(v, es[1..], t, if r > 0 then r - 1 else Gap(w, t) - 1, k - 1);
      var f, g := Firings(w, es), Firings(v, es[1..]);
      assert forall j :: 0 < j < |f| ==> f[j] == g[j - 1];
    }
  }

  lemma FiredIsDue(w: Wheel, t: Timer, r: nat)
    requires ValidWheel(w) && Zeros(w.slots[w.cur]) <= 1 && Awaits(w, t, r) && t in Tick(w).1
    ensures r == 0
  {
    FiresNow(w, t, r);
  }

  // A repeating timer of any `expires` that has r passes to wait: it fires at pass r and not before,
  // and whenever it has fired it fires next after exactly `expires` passes, or a lap later exactly if
  // it came late from the pass that fired it.
  ghost predicate Scheduled(w: Wheel, es: seq<Event>, t: Timer, r: nat)
    requires ValidWheel(w) && Legal(w, es)
  {
    var f := Firings(w, es);
    && (forall k :: 0 <= k < |f| && k <= r ==> FiresIf(f[k], t, k == r))
    && (forall k, j :: 0 <= k <= j < |f| && t in f[k] && j - k <= Gap(Before(w, es, k), t) ==>
          FiresIf(f[j], t, j == k || j - k == Gap(Before(w, es, k), t)))
  }

  // The schedule of a repeating timer over any run, whatever other timers are added and deleted
  // meanwhile.  If `expires` is no multiple of the number of slots, it never comes late.
  lemma RepeatSchedule(w: Wheel, es: seq<Event>, t: Timer, r: nat)
    requires ValidWheel(w) && Legal(w, es) && Awaits(w, t, r) && t.repeat && Del(t.id) !in es
    ensures Scheduled(w, es, t, r)
    ensures t.expires % |w.slots| != 0 ==>
              && t.expires > 0
              && forall k :: 0 <= k < |Firings(w, es)| ==> multiset(Firings(w, es)[k])[t] == ModHit(k, r, t.expires)
  {
    hide Awaits, Proper, Gap, FiresIf, ModHit, Firings, Legal, Before;
    FirstFiring(w, es, t, r);
    var f := Firings(w, es);
    forall k | 0 <= k < |f| && t in f[k]
      ensures forall j :: k <= j < |f| && j - k <= Gap(Before(w, es, k), t) ==>
                FiresIf(f[j], t, j == k || j - k == Gap(Before(w, es, k), t))
    {
      EveryGap(w, es, t, r, k);
    }
    if t.expires % |w.slots| != 0 {
      EvenSchedule(w, es, t, r);
    }
  }

  // A zero timer fires in every pass over its slot, that is once a lap, until it is deleted.
  lemma {:induction false} ZeroSchedule(w: Wheel, es: seq<Event>, t: Timer, r: nat)
    requires ValidWheel(w) && Legal(w, es) && Awaits(w, t, r) && ZeroTimer(t) && Del(t.id) !in es
    ensures forall k :: 0 <= k < |Firings(w, es)| ==>
              (t in Firings(w, es)[k] <==> ModHit(k, r, |w.slots|) == 1)
    decreases |es|
  {
    hide Awaits, Proper, ModHit;
    if es != [] {
      var v := After(w, es[0]);
      if es[0] == Elapse {
        FiresNow(w, t, r);
        var later := if r > 0 then r - 1 else |w.slots| - 1;
        if r > 0 {
          TickWaits(w, t, r - 1);
        } else {
          TickStarts(w, t);
        }
        ZeroSchedule(v, es[1..], t, later);
        var f := Firings(v, es[1..]);
        forall k | 0 <= k < |Firings(w, es)|
          ensures t in Firings(w, es)[k] <==> ModHit(k, r, |w.slots|) == 1
        {
          ModHitLater(k, r, |w.slots|);
          assert k > 0 ==> Firings(w, es)[k] == f[k - 1];
        }
      } else {
        OthersKeep(w, es[0], t, r);
        ZeroSchedule(v, es[1..], t, r);
      }
    }
  }

  // A once timer fires at pass r and never again while its handle is not handed out anew.
  lemma {:induction false} OnceSchedule(w: Wheel, es: seq<Event>, t: Timer, r: nat)
    requires ValidWheel(w) && Legal(w, es) && Awaits(w, t, r) && !t.repeat
    requires Del(t.id) !in es && forall u :: Add(u) in es ==> u.id != t.id
    ensures forall k :: 0 <= k < |Firings(w, es)| ==> multiset(Firings(w, es)[k])[t] == Hit(k == r)
    decreases |es|
  {
    hide Awaits, Proper, InUse;
    if es != [] {
      var v := After(w, es[0]);
      if es[0] == Elapse {
        var f := Firings(v, es[1..]);
        if r > 0 {
          TickWaits(w, t, r - 1);
          OnceSchedule(v, es[1..], t, r - 1);
        } else {
          TickEnds(w, t);
          FreeStaysSilent(v, es[1..], t);
        }
        assert forall k :: 0 < k < |Firings(w, es)| ==> Firings(w, es)[k] == f[k - 1];
      } else {
        OthersKeep(w, es[0], t, r);
        OnceSchedule(v, es[1..], t, r);
      }
    }
  }

  // A timer whose handle is not in use does not fire, until the handle is handed out anew.
  lemma {:induction false} FreeStaysSilent(w: Wheel, es: seq<Event>, t: Timer)
    requires ValidWheel(w) && Legal(w, es) && InUse(w, t.id) == 0
    requires forall u :: Add(u) in es ==> u.id != t.id
    ensures forall k :: 0 <= k < |Firings(w, es)| ==> t !in Firings(w, es)[k]
    decreases |es|
  {
    if es != [] {
      var v := After(w, es[0]);
      match es[0]
      case Elapse =>
        TickFires(w, t);
        TickUses(w, t.id);
        TableUsesOf(w, t, 0, 1);
        FreeStaysSilent(v, es[1..], t);
        var f := Firings(v, es[1..]);
        assert forall k :: 0 < k < |Firings(w, es)| ==> Firings(w, es)[k] == f[k - 1];
      case Add(u) =>
        AddTable(w, u, Row(t, 0));
        FreeStaysSilent(v, es[1..], t);
      case Del(id) =>
        DelUses(w.slots, id, 0, t.id);
        FreeStaysSilent(v, es[1..], t);
    }
  }

  // From HyTimerAdd on: a repeating timer that is added when the wheel stands at slot cur first
  // fires at pass FirstWait, and then has its schedule until it is deleted.
  lemma AddedTimerRuns(w: Wheel, t: Timer, es: seq<Event>)
    requires ValidWheel(w) && Legal(w, [Add(t)] + es) && Del(t.id) !in es && t.repeat
    ensures var n, r, v := |w.slots|, FirstWait(t, w.cur, |w.slots|), After(w, Add(t));
            && Legal(v, es) && Firings(w, [Add(t)] + es) == Firings(v, es) && Scheduled(v, es, t, r)
            && (t.expires % n != 0 ==>
                  && t.expires > 0
                  && forall k :: 0 <= k < |Firings(v, es)| ==>
                       multiset(Firings(v, es)[k])[t] == ModHit(k, r, t.expires))
  {
    var r, v := FirstWait(t, w.cur, |w.slots|), After(w, Add(t));
    AddTable(w, t, Row(t, r));
    TableUsesOf(v, t, r, r + 1);
    assert ([Add(t)] + es)[1..] == es;
    hide Scheduled, ModHit;
    RepeatSchedule(v, es, t, r);
  }

  // From HyTimerDel on, a timer does not fire until its handle is handed out anew.
  lemma DeletedTimerRests(w: Wheel, t: Timer, es: seq<Event>)
    requires ValidWheel(w) && Legal(w, [Del(t.id)] + es) && InUse(w, t.id) <= 1
    requires forall u :: Add(u) in es ==> u.id != t.id
    ensures forall k :: 0 <= k < |Firings(w, [Del(t.id)] + es)| ==> t !in Firings(w, [Del(t.id)] + es)[k]
  {
    DelTable(w, t.id, Row(t, 0));
    assert ([Del(t.id)] + es)[1..] == es;
    FreeStaysSilent(After(w, Del(t.id)), es, t);
  }

  // ---- Handles ----------------------------------------------------------------------------

  ghost predicate Unique(w: Wheel) {
    forall id :: InUse(w, id) <= 1
  }

  ghost function RunEnd(w: Wheel, es: seq<Event>): (v: Wheel)
    requires ValidWheel(w) && Legal(w, es)
    ensures ValidWheel(v)
    decreases |es|
  {
    if es == [] then w else RunEnd(After(w, es[0]), es[1..])
  }

  // No handle is ever on the wheel twice.
  lemma {:induction false} RunKeepsUnique(w: Wheel, es: seq<Event>)
    requires ValidWheel(w) && Legal(w, es) && Unique(w)
    ensures Unique(RunEnd(w, es))
    decreases |es|
  {
    if es != [] {
      var v := After(w, es[0]);
      forall id
        ensures InUse(v, id) <= 1
      {
        assert InUse(w, id) <= 1;
        match es[0]
        case Elapse =>
          TickUses(w, id);
          assert v == Tick(w).0;
        case Add(u) => AddTable(w, u, Row(u, 0));
        case Del(i) => DelUses(w.slots, i, 0, id);
      }
      RunKeepsUnique(v, es[1..]);
    }
  }

  // So a pass fires exactly the timers with nothing left to wait, and each at most once but for a
  // zero timer.
  lemma PassFiresOnce(w: Wheel, t: Timer)
    requires ValidWheel(w) && Zeros(w.slots[w.cur]) <= 1 && Unique(w)
    ensures FiresIf(Tick(w).1, t, Awaits(w, t, 0))
  {
    TickFires(w, t);
    TableUsesOf(w, t, 0, 1);
  }
}
