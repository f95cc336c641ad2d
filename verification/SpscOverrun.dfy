// When the macro that is compiled, which reads the other side's counter twice, makes a put read
// past its data or a get write past the caller's buffer.
module SpscOverrun {
  import opened Basics
  import opened Fifo
  import opened SpscFifo

  predicate NoPut(run: seq<Action>) {
    forall a <- run :: !a.Put?
  }

  predicate NoGet(run: seq<Action>) {
    forall a <- run :: !a.Get?
  }

  // The get that has read the counter once is about to overrun.
  predicate GetIsStuck(s: State)
    requires Sized(s)
  {
    s.consumer.GetAgain? && s.consumer.asked < Used(s)
  }

  // The put that has read the counter once is about to overrun.
  predicate PutIsStuck(s: State)
    requires Sized(s)
  {
    s.producer.PutAgain? && |s.producer.data| < Free(s)
  }

  // ---- Runs one after the other -------------------------------------------------------------------

  lemma {:induction false} RunsJoin(s: State, a: seq<Action>, b: seq<Action>)
    requires Legal(s, a) && Legal(Exec(s, a), b)
    ensures Legal(s, a + b) && Exec(s, a + b) == Exec(Exec(s, a), b)
    decreases |a|
  {
    if a == [] {
      assert a + b == b;
    } else {
      assert (a + b)[1..] == a[1..] + b;
      hide Next, Enabled, Sized, Overrun;
      RunsJoin(Next(s, a[0]), a[1..], b);
    }
  }

  lemma OneAction(s: State, a: Action)
    requires Sized(s) && !Overrun(s) && Enabled(s, a)
    ensures Legal(s, [a]) && Exec(s, [a]) == Next(s, a)
  {
    hide Next, Enabled, Sized, Overrun;
    assert [a][1..] == [];
  }

  // v is reached from s by a run that starts no put and no get; the buffer keeps its size.
  ghost predicate Reaches(s: State, run: seq<Action>, v: State) {
    && NoPut(run) && NoGet(run) && Legal(s, run) && Exec(s, run) == v
    && Inv(v) && v.snapshot == s.snapshot && |v.buf| == |s.buf|
  }

  // A get that is copying can be finished.
  lemma {:induction false} FinishGet(s: State) returns (run: seq<Action>, v: State)
    requires Inv(s) && s.consumer.GetCopying? && !s.producer.PutOverrun?
    ensures Reaches(s, run, v) && v.consumer == GetIdle && v.producer == s.producer
    ensures v.accepted == s.accepted && |v.taken| == |s.taken| + s.consumer.len
    decreases s.consumer.len - |s.consumer.dst|
  {
    CountersTell(s);
    if |s.consumer.dst| < s.consumer.len {
      GetByteInv(s);
      var r := Next(s, GetByte);
      OneAction(s, GetByte);
      var rest;
      rest, v := FinishGet(r);
      RunsJoin(s, [GetByte], rest);
      run := [GetByte] + rest;
    } else {
      GetDoneInv(s);
      run, v := [GetDone], Next(s, GetDone);
      OneAction(s, GetDone);
    }
  }

  // A put that is copying can be finished.
  lemma {:induction false} FinishPut(s: State) returns (run: seq<Action>, v: State)
    requires Inv(s) && s.producer.PutCopying? && !s.consumer.GetOverrun?
    ensures Reaches(s, run, v) && v.producer == PutIdle && v.consumer == s.consumer
    ensures v.taken == s.taken && |v.accepted| == |s.accepted| + s.producer.len
    decreases s.producer.len - s.producer.done
  {
    CountersTell(s);
    if s.producer.done < s.producer.len {
      PutByteInv(s);
      var r := Next(s, PutByte);
      OneAction(s, PutByte);
      var rest;
      rest, v := FinishPut(r);
      RunsJoin(s, [PutByte], rest);
      run := [PutByte] + rest;
    } else {
      PutDoneInv(s);
      run, v := [PutDone], Next(s, PutDone);
      OneAction(s, PutDone);
    }
  }

  // A get that has read the counter once can be finished, if the second reading does not give more
  // than was asked for.
  lemma RereadAndFinishGet(s: State) returns (run: seq<Action>, v: State)
    requires Inv(s) && s.consumer.GetAgain? && !s.producer.PutOverrun? && Sized(s) && Used(s) <= s.consumer.asked
    ensures Reaches(s, run, v) && v.consumer == GetIdle && v.producer == s.producer
    ensures v.accepted == s.accepted == v.taken
  {
    CountersTell(s);
    ReadingInv(s, GetReread);
    OneAction(s, GetReread);
    var r := Next(s, GetReread);
    var rest;
    rest, v := FinishGet(r);
    RunsJoin(s, [GetReread], rest);
    run := [GetReread] + rest;
  }

  lemma RereadAndFinishPut(s: State) returns (run: seq<Action>, v: State)
    requires Inv(s) && s.producer.PutAgain? && !s.consumer.GetOverrun? && Sized(s) && Free(s) <= |s.producer.data|
    ensures Reaches(s, run, v) && v.producer == PutIdle && v.consumer == s.consumer
    ensures v.taken == s.taken && |v.accepted| == |v.taken| + |v.buf|
  {
    CountersTell(s);
    ReadingInv(s, PutReread);
    OneAction(s, PutReread);
    var r := Next(s, PutReread);
    var rest;
    rest, v := FinishPut(r);
    RunsJoin(s, [PutReread], rest);
    run := [PutReread] + rest;
  }

  // ---- A put that reads past its data ---------------------------------------------------------------

  // The consumer brings the get it is at to an end.
  lemma GetComesToEnd(s: State) returns (run: seq<Action>, v: State)
    requires Inv(s) && Sized(s) && !Overrun(s) && (s.consumer.GetAgain? ==> Used(s) <= s.consumer.asked)
    ensures Reaches(s, run, v) && v.consumer == GetIdle && v.producer == s.producer
    ensures v.accepted == s.accepted && |v.taken| >= |s.taken|
  {
    match s.consumer {
      case GetIdle => run, v := [], s;
      case GetAgain(_, _) => run, v := RereadAndFinishGet(s);
      case GetCopying(_, _, _) => run, v := FinishGet(s);
    }
  }

  // The consumer, idle, gets all the bytes that are stored.
  lemma GetAll(s: State) returns (run: seq<Action>, v: State)
    requires Inv(s) && !s.snapshot && s.consumer == GetIdle && !s.producer.PutOverrun?
    ensures NoPut(run) && Legal(s, run) && Exec(s, run) == v && Inv(v) && |v.buf| == |s.buf|
    ensures v.producer == s.producer && v.consumer == GetIdle && v.taken == v.accepted == s.accepted
  {
    CountersTell(s);
    var u := Used(s);
    ReadingInv(s, Get(u));
    OneAction(s, Get(u));
    var r := Next(s, Get(u));
    CountersTell(r);
    var rest;
    rest, v := RereadAndFinishGet(r);
    RunsJoin(s, [Get(u)], rest);
    run := [Get(u)] + rest;
  }

  lemma RereadOverruns(s: State)
    requires Inv(s) && s.producer.PutAgain? && !s.consumer.GetOverrun? && Sized(s) && |s.producer.data| < Free(s)
    ensures Legal(s, [PutReread]) && Exec(s, [PutReread]).producer.PutOverrun?
  {
    OneAction(s, PutReread);
  }

  lemma DrainThenOverrun(s: State) returns (run: seq<Action>)
    requires Inv(s) && Sized(s) && !s.snapshot && s.producer.PutAgain? && |s.producer.data| < |s.buf|
    requires !Overrun(s) && (s.consumer.GetAgain? ==> Used(s) <= s.consumer.asked)
    ensures NoPut(run) && Legal(s, run) && Exec(s, run).producer.PutOverrun?
  {
    hide Inv, Next, Enabled, Overrun;
    var run1, v1 := GetComesToEnd(s);
    var run2, v2 := GetAll(v1);
    CountersTell(v2);
    RereadOverruns(v2);
    RunsJoin(v1, run2, [PutReread]);
    RunsJoin(s, run1, run2 + [PutReread]);
    run := run1 + (run2 + [PutReread]);
  }

  // Whether the producer can still be on the safe side.
  predicate PutSafe(s: State) {
    match s.producer
    case PutAgain(data, _) => |data| >= |s.buf|
    case PutOverrun => false
    case _ => true
  }

  lemma {:induction false} PutStaysSafe(s: State, run: seq<Action>)
    requires Inv(s) && PutSafe(s) && Legal(s, run) && NoPut(run)
    ensures !Exec(s, run).producer.PutOverrun?
    decreases |run|
  {
    if run != [] {
      var r := Next(s, run[0]);
      CountersTell(s);
      NextInv(s, run[0]);
      assert run[0] in run && NoPut(run[1..]);
      assert PutSafe(r) by {
        hide Inv, NoPut;
      }
      hide Inv, Next, Enabled, NoPut;
      if Overrun(r) {
        assert run[1..] == [];
      } else {
        PutStaysSafe(r, run[1..]);
      }
    }
  }

  // A consumer about to overrun cannot make room for a put any more.
  lemma StuckPutIsSafe(s: State, run: seq<Action>)
    requires Inv(s) && Sized(s) && s.producer.PutAgain? && Free(s) <= |s.producer.data|
    requires s.consumer.GetAgain? && Used(s) > s.consumer.asked && Legal(s, run) && NoPut(run)
    ensures !Exec(s, run).producer.PutOverrun?
  {
    if run != [] {
      assert run[0] in run && NoPut(run[1..]);
      var r := Next(s, run[0]);
      ReadingInv(s, run[0]);
      if run[0] == GetReread {
        assert run[1..] == [];
      } else {
        PutStaysSafe(r, run[1..]);
      }
    }
  }

  // Whatever the consumer is at, the put that starts now can be made to read past its data exactly
  // if it does not find more room than it needs at first, is smaller than the whole buffer, and
  // the consumer is not about to overrun itself.
  lemma PutCanOverrunExactly(s: State, data: seq<byte>)
    requires Inv(s) && !s.snapshot && s.producer.PutIdle? && !Overrun(s)
    ensures Sized(s)
    ensures (exists run: seq<Action> :: PutOverrunsBy(s, data, run))
            <==> Free(s) <= |data| < |s.buf| && !GetIsStuck(s)
  {
    CountersTell(s);
    ReadingInv(s, Put(data));
    OneAction(s, Put(data));
    var r := Next(s, Put(data));
    CountersTell(r);
    if Free(s) <= |data| < |s.buf| && !GetIsStuck(s) {
      var run := DrainThenOverrun(r);
      RunsJoin(s, [Put(data)], run);
      assert PutOverrunsBy(s, data, run);
    } else {
      forall run: seq<Action> | NoPut(run) && Legal(s, [Put(data)] + run)
        ensures !PutOverrunsBy(s, data, run)
      {
        assert ([Put(data)] + run)[1..] == run;
        hide Inv, Next, Enabled, Sized, NoPut;
        if PutSafe(r) {
          PutStaysSafe(r, run);
        } else {
          StuckPutIsSafe(r, run);
        }
      }
    }
  }

  // The run, in which no other put starts, lets the put of data read past its end.
  ghost predicate PutOverrunsBy(s: State, data: seq<byte>, run: seq<Action>) {
    && NoPut(run) && Legal(s, [Put(data)] + run)
    && Exec(s, [Put(data)] + run).producer.PutOverrun?
  }

  // ---- A get that writes past the caller's buffer -----------------------------------------------------

  // The producer brings the put it is at to an end.
  lemma PutComesToEnd(s: State) returns (run: seq<Action>, v: State)
    requires Inv(s) && Sized(s) && !Overrun(s) && (s.producer.PutAgain? ==> Free(s) <= |s.producer.data|)
    ensures Reaches(s, run, v) && v.producer == PutIdle && v.consumer == s.consumer
  {
    match s.producer {
      case PutIdle => run, v := [], s;
      case PutAgain(_, _) => run, v := RereadAndFinishPut(s);
      case PutCopying(_, _, _) => run, v := FinishPut(s);
    }
  }

  // The producer, idle, puts as many bytes as there is room for.
  lemma PutAll(s: State) returns (run: seq<Action>, v: State)
    requires Inv(s) && !s.snapshot && s.producer == PutIdle && !s.consumer.GetOverrun?
    ensures NoGet(run) && Legal(s, run) && Exec(s, run) == v && Inv(v) && |v.buf| == |s.buf|
    ensures v.consumer == s.consumer && v.producer == PutIdle && |v.accepted| == |v.taken| + |v.buf|
  {
    CountersTell(s);
    var data := seq(Free(s), _ => 0 as byte);
    ReadingInv(s, Put(data));
    OneAction(s, Put(data));
    var r := Next(s, Put(data));
    CountersTell(r);
    var rest;
    rest, v := RereadAndFinishPut(r);
    RunsJoin(s, [Put(data)], rest);
    run := [Put(data)] + rest;
  }

  lemma GetRereadOverruns(s: State)
    requires Inv(s) && s.consumer.GetAgain? && !s.producer.PutOverrun? && Sized(s) && s.consumer.asked < Used(s)
    ensures Legal(s, [GetReread]) && Exec(s, [GetReread]).consumer.GetOverrun?
  {
    OneAction(s, GetReread);
  }

  lemma FillThenOverrun(s: State) returns (run: seq<Action>)
    requires Inv(s) && Sized(s) && !s.snapshot && s.consumer.GetAgain? && s.consumer.asked < |s.buf|
    requires !Overrun(s) && (s.producer.PutAgain? ==> Free(s) <= |s.producer.data|)
    ensures NoGet(run) && Legal(s, run) && Exec(s, run).consumer.GetOverrun?
  {
    hide Inv, Next, Enabled, Overrun;
    var run1, v1 := PutComesToEnd(s);
    var run2, v2 := PutAll(v1);
    CountersTell(v2);
    GetRereadOverruns(v2);
    RunsJoin(v1, run2, [GetReread]);
    RunsJoin(s, run1, run2 + [GetReread]);
    run := run1 + (run2 + [GetReread]);
  }

  // Whether the consumer can still be on the safe side.
  predicate GetSafe(s: State) {
    match s.consumer
    case GetAgain(asked, _) => asked >= |s.buf|
    case GetOverrun => false
    case _ => true
  }

  lemma {:induction false} GetStaysSafe(s: State, run: seq<Action>)
    requires Inv(s) && GetSafe(s) && Legal(s, run) && NoGet(run)
    ensures !Exec(s, run).consumer.GetOverrun?
    decreases |run|
  {
    if run != [] {
      var r := Next(s, run[0]);
      CountersTell(s);
      NextInv(s, run[0]);
      assert run[0] in run && NoGet(run[1..]);
      assert GetSafe(r) by {
        hide Inv, NoGet;
      }
      hide Inv, Next, Enabled, NoGet;
      if Overrun(r) {
        assert run[1..] == [];
      } else {
        GetStaysSafe(r, run[1..]);
      }
    }
  }

  // A producer about to overrun cannot add bytes for a get any more.
  lemma StuckGetIsSafe(s: State, run: seq<Action>)
    requires Inv(s) && Sized(s) && s.consumer.GetAgain? && Used(s) <= s.consumer.asked
    requires s.producer.PutAgain? && Free(s) > |s.producer.data| && Legal(s, run) && NoGet(run)
    ensures !Exec(s, run).consumer.GetOverrun?
  {
    if run != [] {
      assert run[0] in run && NoGet(run[1..]);
      var r := Next(s, run[0]);
      ReadingInv(s, run[0]);
      if run[0] == PutReread {
        assert run[1..] == [];
      } else {
        GetStaysSafe(r, run[1..]);
      }
    }
  }

  // The run, in which no other get starts, lets the get write past the buffer for it.
  ghost predicate GetOverrunsBy(s: State, asked: nat, run: seq<Action>) {
    && NoGet(run) && Legal(s, [Get(asked)] + run)
    && Exec(s, [Get(asked)] + run).consumer.GetOverrun?
  }

  // Whatever the producer is at, the get that starts now can be made to write past the caller's
  // buffer exactly if it does not find more bytes than it asks for at first, asks for less than
  // the whole buffer, and the producer is not about to overrun itself.
  lemma GetCanOverrunExactly(s: State, asked: nat)
    requires Inv(s) && !s.snapshot && s.consumer.GetIdle? && !Overrun(s)
    ensures Sized(s)
    ensures (exists run: seq<Action> :: GetOverrunsBy(s, asked, run))
            <==> Used(s) <= asked < |s.buf| && !PutIsStuck(s)
  {
    CountersTell(s);
    ReadingInv(s, Get(asked));
    OneAction(s, Get(asked));
    var r := Next(s, Get(asked));
    CountersTell(r);
    if Used(s) <= asked < |s.buf| && !PutIsStuck(s) {
      var run := FillThenOverrun(r);
      RunsJoin(s, [Get(asked)], run);
      assert GetOverrunsBy(s, asked, run);
    } else {
      forall run: seq<Action> | NoGet(run) && Legal(s, [Get(asked)] + run)
        ensures !GetOverrunsBy(s, asked, run)
      {
        assert ([Get(asked)] + run)[1..] == run;
        hide Inv, Next, Enabled, Sized, NoGet;
        if GetSafe(r) {
          GetStaysSafe(r, run);
        } else {
          StuckGetIsSafe(r, run);
        }
      }
    }
  }

  // ---- Puts and gets of one size ------------------------------------------------------------------------

  // Every put and every get of the run is of this many bytes.
  predicate OfSize(run: seq<Action>, size: nat) {
    forall a <- run :: (a.Put? ==> |a.data| == size) && (a.Get? ==> a.asked == size)
  }

  // A get that finds more bytes than it asks for takes exactly these.
  lemma GetOne(s: State, asked: nat) returns (run: seq<Action>, v: State)
    requires Inv(s) && s.consumer == GetIdle && !s.producer.PutOverrun? && Sized(s) && asked < Used(s)
    ensures NoPut(run) && OfSize(run, asked) && Legal(s, run) && Exec(s, run) == v && Inv(v) && |v.buf| == |s.buf|
    ensures v.snapshot == s.snapshot && v.producer == s.producer && v.consumer == GetIdle
    ensures v.accepted == s.accepted && |v.taken| == |s.taken| + asked
  {
    CountersTell(s);
    ReadingInv(s, Get(asked));
    OneAction(s, Get(asked));
    var rest;
    rest, v := FinishGet(Next(s, Get(asked)));
    RunsJoin(s, [Get(asked)], rest);
    run := [Get(asked)] + rest;
  }

  // A put that finds more room than it needs stores all its bytes.
  lemma PutOne(s: State, data: seq<byte>) returns (run: seq<Action>, v: State)
    requires Inv(s) && s.producer == PutIdle && !s.consumer.GetOverrun? && Sized(s) && |data| < Free(s)
    ensures NoGet(run) && OfSize(run, |data|) && Legal(s, run) && Exec(s, run) == v && Inv(v) && |v.buf| == |s.buf|
    ensures v.snapshot == s.snapshot && v.producer == PutIdle && v.consumer == s.consumer
    ensures v.taken == s.taken && |v.accepted| == |s.accepted| + |data|
  {
    CountersTell(s);
    ReadingInv(s, Put(data));
    OneAction(s, Put(data));
    var rest;
    rest, v := FinishPut(Next(s, Put(data)));
    RunsJoin(s, [Put(data)], rest);
    run := [Put(data)] + rest;
  }

  lemma NothingStarts(run: seq<Action>, size: nat)
    requires NoPut(run) && NoGet(run)
    ensures OfSize(run, size)
  {
  }

  lemma SizesJoin(a: seq<Action>, b: seq<Action>, size: nat)
    requires OfSize(a, size) && OfSize(b, size)
    ensures OfSize(a + b, size)
  {
  }

  // Two gets of its own size are enough to let a put overrun that found no more room than it needs,
  // on a buffer of more than three times the size.
  lemma TwoGetsThenOverrun(s: State) returns (run: seq<Action>)
    requires Inv(s) && Sized(s) && s.producer.PutAgain? && s.consumer == GetIdle
    requires 0 < |s.producer.data| && 3 * |s.producer.data| < |s.buf| && Free(s) <= |s.producer.data|
    ensures NoPut(run) && OfSize(run, |s.producer.data|) && Legal(s, run) && Exec(s, run).producer.PutOverrun?
  {
    var n := |s.producer.data|;
    CountersTell(s);
    var run1, v1 := GetOne(s, n);
    CountersTell(v1);
    var run2, v2 := GetOne(v1, n);
    CountersTell(v2);
    hide Inv, Next, Enabled;
    RereadOverruns(v2);
    RunsJoin(v1, run2, [PutReread]);
    RunsJoin(s, run1, run2 + [PutReread]);
    run := run1 + (run2 + [PutReread]);
  }

  lemma TwoPutsThenOverrun(s: State) returns (run: seq<Action>)
    requires Inv(s) && Sized(s) && s.consumer.GetAgain? && s.producer == PutIdle
    requires 0 < s.consumer.asked && 3 * s.consumer.asked < |s.buf| && Used(s) <= s.consumer.asked
    ensures NoGet(run) && OfSize(run, s.consumer.asked) && Legal(s, run) && Exec(s, run).consumer.GetOverrun?
  {
    var data := seq(s.consumer.asked, _ => 0 as byte);
    CountersTell(s);
    var run1, v1 := PutOne(s, data);
    CountersTell(v1);
    var run2, v2 := PutOne(v1, data);
    CountersTell(v2);
    hide Inv, Next, Enabled;
    GetRereadOverruns(v2);
    RunsJoin(v1, run2, [GetReread]);
    RunsJoin(s, run1, run2 + [GetReread]);
    run := run1 + (run2 + [GetReread]);
  }

  // Whatever the consumer is at, it first brings that to an end.
  lemma DrainBySize(s: State) returns (run: seq<Action>)
    requires Inv(s) && Sized(s) && s.producer.PutAgain? && !Overrun(s)
    requires 0 < |s.producer.data| && 3 * |s.producer.data| < |s.buf|
    requires s.consumer.GetAgain? ==> Used(s) <= s.consumer.asked
    ensures NoPut(run) && OfSize(run, |s.producer.data|) && Legal(s, run) && Exec(s, run).producer.PutOverrun?
  {
    hide Inv, Next, Enabled, Overrun;
    var n := |s.producer.data|;
    var run1, v := GetComesToEnd(s);
    CountersTell(v);
    NothingStarts(run1, n);
    var run2;
    if n < Free(v) {
      RereadOverruns(v);
      run2 := [PutReread];
    } else {
      run2 := TwoGetsThenOverrun(v);
    }
    RunsJoin(s, run1, run2);
    SizesJoin(run1, run2, n);
    run := run1 + run2;
  }

  lemma FillBySize(s: State) returns (run: seq<Action>)
    requires Inv(s) && Sized(s) && s.consumer.GetAgain? && !Overrun(s)
    requires 0 < s.consumer.asked && 3 * s.consumer.asked < |s.buf|
    requires s.producer.PutAgain? ==> Free(s) <= |s.producer.data|
    ensures NoGet(run) && OfSize(run, s.consumer.asked) && Legal(s, run) && Exec(s, run).consumer.GetOverrun?
  {
    hide Inv, Next, Enabled, Overrun;
    var n := s.consumer.asked;
    var run1, v := PutComesToEnd(s);
    CountersTell(v);
    NothingStarts(run1, n);
    var run2;
    if n < Used(v) {
      GetRereadOverruns(v);
      run2 := [GetReread];
    } else {
      run2 := TwoPutsThenOverrun(v);
    }
    RunsJoin(s, run1, run2);
    SizesJoin(run1, run2, n);
    run := run1 + run2;
  }

  // With puts and gets of one size only from now on, on a buffer of more than three times that
  // size, it is the same, whatever the other thread is at: a put can overrun exactly if there is
  // room for one at most, and a get exactly if bytes for one at most are stored, and the other
  // thread is not about to overrun itself.
  lemma SameSizeCanOverrunExactly(s: State, data: seq<byte>)
    requires Inv(s) && !s.snapshot && !Overrun(s)
    requires 0 < |data| && 3 * |data| < |s.buf|
    ensures Sized(s)
    ensures s.producer.PutIdle? ==>
              ((exists run :: OfSize(run, |data|) && PutOverrunsBy(s, data, run))
               <==> Free(s) <= |data| && !GetIsStuck(s))
    ensures s.consumer.GetIdle? ==>
              ((exists run :: OfSize(run, |data|) && GetOverrunsBy(s, |data|, run))
               <==> Used(s) <= |data| && !PutIsStuck(s))
  {
    CountersTell(s);
    if s.producer.PutIdle? {
      PutCanOverrunExactly(s, data);
      if Free(s) <= |data| && !GetIsStuck(s) {
        var run := PutTears(s, data);
        assert OfSize(run, |data|) && PutOverrunsBy(s, data, run);
      }
    }
    if s.consumer.GetIdle? {
      GetCanOverrunExactly(s, |data|);
      if Used(s) <= |data| && !PutIsStuck(s) {
        var run := GetTears(s, |data|);
        assert OfSize(run, |data|) && GetOverrunsBy(s, |data|, run);
      }
    }
  }

  lemma PutTears(s: State, data: seq<byte>) returns (run: seq<Action>)
    requires Inv(s) && !s.snapshot && s.producer.PutIdle? && !Overrun(s) && Sized(s) && !GetIsStuck(s)
    requires 0 < |data| && 3 * |data| < |s.buf| && Free(s) <= |data|
    ensures OfSize(run, |data|) && PutOverrunsBy(s, data, run)
  {
    ReadingInv(s, Put(data));
    OneAction(s, Put(data));
    CountersTell(Next(s, Put(data)));
    run := DrainBySize(Next(s, Put(data)));
    RunsJoin(s, [Put(data)], run);
  }

  lemma GetTears(s: State, asked: nat) returns (run: seq<Action>)
    requires Inv(s) && !s.snapshot && s.consumer.GetIdle? && !Overrun(s) && Sized(s) && !PutIsStuck(s)
    requires 0 < asked && 3 * asked < |s.buf| && Used(s) <= asked
    ensures OfSize(run, asked) && GetOverrunsBy(s, asked, run)
  {
    ReadingInv(s, Get(asked));
    OneAction(s, Get(asked));
    CountersTell(Next(s, Get(asked)));
    run := FillBySize(Next(s, Get(asked)));
    RunsJoin(s, [Get(asked)], run);
  }
}
