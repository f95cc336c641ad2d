// How many bytes a put accepts and a get takes between the two threads.
module SpscTransfer {
  import opened Basics
  import opened Fifo
  import opened SpscFifo
  import opened SpscOverrun

  // ---- A put --------------------------------------------------------------------------------------

  // Of data, k bytes have been accepted behind acc.
  predicate Accepted(s: State, acc: seq<byte>, data: seq<byte>, k: nat) {
    k <= |data| && s.accepted == acc + data[..k]
  }

  // The put of data, which started with acc accepted, is on its way to accept lo to hi bytes, or has
  // accepted them.
  ghost predicate Putting(s: State, acc: seq<byte>, data: seq<byte>, lo: nat, hi: nat) {
    match s.producer
    case PutIdle => exists k: nat :: lo <= k <= hi && Accepted(s, acc, data, k)
    case PutAgain(d, _) => d == data && s.accepted == acc && Sized(s) && lo <= Free(s) && hi == |data|
    case PutCopying(d, len, _) => d == data && s.accepted == acc && lo <= len <= hi
    case PutOverrun => true
  }

  // The consumer leaves the put alone, and makes room.
  lemma ConsumerSteps(s: State, a: Action)
    requires Inv(s) && Enabled(s, a) && (a.Get? || a.GetReread? || a.GetByte? || a.GetDone?)
    ensures Sized(s) && var r := Next(s, a);
            Sized(r) && r.producer == s.producer && r.accepted == s.accepted && Free(r) >= Free(s)
  {
    CountersTell(s);
    if a == GetDone {
      GetDoneInv(s);
      CountersTell(Next(s, a));
    }
    hide Inv, Free, Cell;
  }

  lemma ProducerSteps(s: State, a: Action)
    requires Inv(s) && Enabled(s, a) && (a.Put? || a.PutReread? || a.PutByte? || a.PutDone?)
    ensures Sized(s) && var r := Next(s, a);
            Sized(r) && r.consumer == s.consumer && r.taken == s.taken && Used(r) >= Used(s)
  {
    CountersTell(s);
    if a == PutDone {
      PutDoneInv(s);
      CountersTell(Next(s, a));
    }
    hide Inv, Used, Cell;
  }

  lemma PutGoesOn(s: State, a: Action, acc: seq<byte>, data: seq<byte>, lo: nat, hi: nat)
    requires Inv(s) && Enabled(s, a) && !a.Put? && Putting(s, acc, data, lo, hi)
    ensures Sized(s) && Putting(Next(s, a), acc, data, lo, hi)
  {
    var r := Next(s, a);
    if a.PutReread? || a.PutByte? || a.PutDone? {
      CountersTell(s);
      assert s.producer.PutCopying? ==> s.producer.len <= |data|;
      hide Inv, Free, Cell;
      if a == PutDone {
        assert Accepted(r, acc, data, s.producer.len);
      }
    } else {
      ConsumerSteps(s, a);
      hide Inv, Free, Next, Enabled, Sized;
      if s.producer.PutIdle? {
        var k: nat :| lo <= k <= hi && Accepted(s, acc, data, k);
        assert Accepted(r, acc, data, k);
      }
    }
  }

  lemma {:induction false} PutRuns(s: State, run: seq<Action>, acc: seq<byte>, data: seq<byte>, lo: nat, hi: nat)
    requires Inv(s) && Legal(s, run) && NoPut(run) && Putting(s, acc, data, lo, hi)
    ensures Putting(Exec(s, run), acc, data, lo, hi) || Overrun(Exec(s, run))
    decreases |run|
  {
    if run != [] {
      var r := Next(s, run[0]);
      NextInv(s, run[0]);
      assert run[0] in run && NoPut(run[1..]);
      PutGoesOn(s, run[0], acc, data, lo, hi);
      hide Inv, Next, Enabled, NoPut, Putting;
      if Overrun(r) {
        assert run[1..] == [];
      } else {
        PutRuns(r, run[1..], acc, data, lo, hi);
      }
    }
  }

  // In every interleaving, a put that comes to its end has accepted a prefix of its data: with one
  // snapshot of the other counter exactly what there was room for when it started, and with the
  // compiled macro at least that.
  lemma PutAccepts(s: State, data: seq<byte>, run: seq<Action>) returns (k: nat)
    requires Inv(s) && s.producer.PutIdle? && !Overrun(s) && Sized(s)
    requires NoPut(run) && Legal(s, [Put(data)] + run)
    requires Exec(s, [Put(data)] + run).producer.PutIdle? && !Overrun(Exec(s, [Put(data)] + run))
    ensures Min(|data|, Free(s)) <= k <= |data| && (s.snapshot ==> k == Min(|data|, Free(s)))
    ensures Exec(s, [Put(data)] + run).accepted == s.accepted + data[..k]
  {
    var lo := Min(|data|, Free(s));
    var hi, r := if s.snapshot then lo else |data|, Next(s, Put(data));
    assert ([Put(data)] + run)[1..] == run;
    CountersTell(s);
    ReadingInv(s, Put(data));
    CountersTell(r);
    assert Putting(r, s.accepted, data, lo, hi) by {
      hide Inv;
    }
    hide Inv, Next, Enabled;
    PutRuns(r, run, s.accepted, data, lo, hi);
    k :| lo <= k <= hi && Accepted(Exec(r, run), s.accepted, data, k);
  }

  // ---- A get --------------------------------------------------------------------------------------

  ghost predicate Getting(s: State, before: nat, asked: nat, lo: nat, hi: nat) {
    match s.consumer
    case GetIdle => before + lo <= |s.taken| <= before + hi
    case GetAgain(n, _) => n == asked && |s.taken| == before && Sized(s) && lo <= Used(s) && hi == asked
    case GetCopying(n, len, dst) => n == asked && |s.taken| == before && lo <= len <= hi
    case GetOverrun => true
  }

  lemma GetGoesOn(s: State, a: Action, before: nat, asked: nat, lo: nat, hi: nat)
    requires Inv(s) && Enabled(s, a) && !a.Get? && Getting(s, before, asked, lo, hi)
    ensures Sized(s) && Getting(Next(s, a), before, asked, lo, hi)
  {
    if a.GetReread? || a.GetByte? || a.GetDone? {
      CountersTell(s);
      hide Inv, Used, Cell;
    } else {
      ProducerSteps(s, a);
      hide Inv, Used, Next, Enabled, Sized;
    }
  }

  lemma {:induction false} GetRuns(s: State, run: seq<Action>, before: nat, asked: nat, lo: nat, hi: nat)
    requires Inv(s) && Legal(s, run) && NoGet(run) && Getting(s, before, asked, lo, hi)
    ensures Getting(Exec(s, run), before, asked, lo, hi) || Overrun(Exec(s, run))
    decreases |run|
  {
    if run != [] {
      var r := Next(s, run[0]);
      NextInv(s, run[0]);
      assert run[0] in run && NoGet(run[1..]);
      GetGoesOn(s, run[0], before, asked, lo, hi);
      hide Inv, Next, Enabled, NoGet, Getting;
      if Overrun(r) {
        assert run[1..] == [];
      } else {
        GetRuns(r, run[1..], before, asked, lo, hi);
      }
    }
  }

  // In every interleaving, a get that comes to its end has taken the next bytes of the stream: with
  // one snapshot exactly those that were stored when it started, up to what was asked for, and with
  // the compiled macro at least these.
  lemma GetTakes(s: State, asked: nat, run: seq<Action>)
    requires Inv(s) && s.consumer.GetIdle? && !Overrun(s) && Sized(s)
    requires NoGet(run) && Legal(s, [Get(asked)] + run)
    requires Exec(s, [Get(asked)] + run).consumer.GetIdle? && !Overrun(Exec(s, [Get(asked)] + run))
    ensures var r := Exec(s, [Get(asked)] + run); var k := |r.taken| - |s.taken|;
            && Min(asked, Used(s)) <= k <= asked && (s.snapshot ==> k == Min(asked, Used(s)))
            && r.taken <= r.accepted
  {
    var lo := Min(asked, Used(s));
    var hi, r := if s.snapshot then lo else asked, Next(s, Get(asked));
    assert ([Get(asked)] + run)[1..] == run;
    CountersTell(s);
    ReadingInv(s, Get(asked));
    CountersTell(r);
    assert Getting(r, |s.taken|, asked, lo, hi) by {
      hide Inv;
    }
    RunKeeps(r, run);
    hide Next, Enabled, Stored;
    GetRuns(r, run, |s.taken|, asked, lo, hi);
  }
}
