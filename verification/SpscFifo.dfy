// The ring buffer of src/hy_fifo.c between one producing and one consuming thread.  A put and
// a get are taken apart into their reads of the other side's counter, the copy byte by byte
// and the update of their own counter, and the steps of the two threads interleave freely.
module SpscFifo {
  import opened Basics
  import opened Arith
  import opened Bits
  import opened Fifo

  // A put or get in progress.  With the macro that is compiled, the length is compared with
  // one reading of the other counter and, if it is not smaller, taken from another reading.
  datatype Producer =
    | PutIdle
    | PutAgain(data: seq<byte>, free: nat)
    | PutCopying(data: seq<byte>, len: nat, done: nat)
    | PutOverrun

  datatype Consumer =
    | GetIdle
    | GetAgain(asked: nat, used: nat)
    | GetCopying(asked: nat, len: nat, dst: seq<byte>)
    | GetOverrun

  // snapshot tells whether the other counter is read only once, as the disabled code does.
  // accepted and taken are all the bytes of the puts and gets completed so far.
  datatype State = State(
    snapshot: bool, buf: seq<byte>, inn: nat, outt: nat,
    producer: Producer, consumer: Consumer,
    accepted: seq<byte>, taken: seq<byte>)

  datatype Action =
    | Put(data: seq<byte>) | PutReread | PutByte | PutDone
    | Get(asked: nat) | GetReread | GetByte | GetDone

  function Free(s: State): nat
    requires |s.buf| < SIZE_MOD && s.inn < SIZE_MOD && s.outt < SIZE_MOD
  {
    Add(Sub(|s.buf|, s.inn), s.outt)
  }

  function Used(s: State): nat
    requires s.inn < SIZE_MOD && s.outt < SIZE_MOD
  {
    Sub(s.inn, s.outt)
  }

  predicate Sized(s: State) {
    0 < |s.buf| <= MAX_SIZE && s.inn < SIZE_MOD && s.outt < SIZE_MOD
  }

  predicate Enabled(s: State, a: Action) {
    match a
    case Put(_) => s.producer.PutIdle?
    case PutReread => s.producer.PutAgain?
    case PutByte =>
      && s.producer.PutCopying? && s.producer.done <= |s.buf|
      && s.producer.done < s.producer.len <= |s.producer.data|
    case PutDone => s.producer.PutCopying? && s.producer.done == s.producer.len
    case Get(_) => s.consumer.GetIdle?
    case GetReread => s.consumer.GetAgain?
    case GetByte => s.consumer.GetCopying? && |s.consumer.dst| < s.consumer.len && |s.consumer.dst| <= |s.buf|
    case GetDone => s.consumer.GetCopying? && |s.consumer.dst| == s.consumer.len
  }

  // One step of one thread.  A put that chose more bytes than it was given would read past
  // its data, and a get that chose more than was asked for write past the caller's buffer:
  // from then on nothing is said about the run.
  function Next(s: State, a: Action): State
    requires Sized(s) && Enabled(s, a)
  {
    match a
    case Put(data) =>
      var free := Free(s);
      s.(producer := if |data| < free then PutCopying(data, |data|, 0)
                     else if s.snapshot then PutCopying(data, free, 0)
                     else PutAgain(data, free))
    case PutReread =>
      var free := Free(s);
      s.(producer := if free <= |s.producer.data| then PutCopying(s.producer.data, free, 0) else PutOverrun)
    case PutByte =>
      var p := s.producer;
      s.(buf := s.buf[Cell(s.inn % |s.buf|, p.done, |s.buf|) := p.data[p.done]], producer := p.(done := p.done + 1))
    case PutDone =>
      var p := s.producer;
      s.(inn := Add(s.inn, p.len), producer := PutIdle,
         accepted := s.accepted + if p.len <= |p.data| then p.data[..p.len] else [])
    case Get(asked) =>
      var used := Used(s);
      s.(consumer := if asked < used then GetCopying(asked, asked, [])
                     else if s.snapshot then GetCopying(asked, used, [])
                     else GetAgain(asked, used))
    case GetReread =>
      var used := Used(s);
      s.(consumer := if used <= s.consumer.asked then GetCopying(s.consumer.asked, used, []) else GetOverrun)
    case GetByte =>
      var c := s.consumer;
      s.(consumer := c.(dst := c.dst + [s.buf[Cell(s.outt % |s.buf|, |c.dst|, |s.buf|)]]))
    case GetDone =>
      var c := s.consumer;
      s.(outt := Add(s.outt, c.len), consumer := GetIdle, taken := s.taken + c.dst)
  }

  predicate Overrun(s: State) {
    s.producer.PutOverrun? || s.consumer.GetOverrun?
  }

  // ---- The invariant ----------------------------------------------------------------------

  // Byte number p of the stream is in its cell.
  predicate Stored(buf: seq<byte>, p: nat, x: byte)
    requires |buf| > 0
  {
    buf[p % |buf|] == x
  }

  // The counter, which wraps around, for a stream of `total` bytes.
  predicate Counts(counter: nat, total: nat) {
    counter == total % SIZE_MOD
  }

  ghost predicate Inv(s: State) {
    var size, a, t := |s.buf|, |s.accepted|, |s.taken|;
    && 0 < size <= MAX_SIZE && IsPow2(size)
    && Counts(s.inn, a) && Counts(s.outt, t)
    && t <= a <= t + size
    && s.taken == s.accepted[..t]
    && (forall p :: t <= p < a ==> Stored(s.buf, p, s.accepted[p]))
    && (match s.producer
        case PutCopying(data, len, done) =>
          done <= len <= |data| && a + len <= t + size && forall i :: 0 <= i < done ==> Stored(s.buf, a + i, data[i])
        case _ => true)
    && (match s.consumer
        case GetCopying(asked, len, dst) =>
          |dst| <= len <= asked && t + len <= a && dst == s.accepted[t..t + |dst|]
        case _ => true)
  }

  // The wrapped counters tell the number of bytes stored and the room left.
  lemma CountersTell(s: State)
    requires Inv(s)
    ensures Sized(s) && Used(s) == |s.accepted| - |s.taken| && Free(s) == |s.buf| - Used(s)
  {
    hide Sub, Add, IsPow2;
    var a, t := |s.accepted|, |s.taken|;
    var u := a - t;
    ModAdd(t, u, SIZE_MOD);
    DivMod(t, SIZE_MOD);
    DivMod(u, SIZE_MOD);
    ModWrap(t % SIZE_MOD, u, SIZE_MOD);
    SubBack(s.inn, s.outt);
    FreeCells(|s.buf|, s.inn, s.outt);
  }

  // The masked counter, i cells on, is the cell of byte number total + i of the stream.
  lemma CellOfByte(total: nat, i: nat, size: nat)
    requires 0 < size <= MAX_SIZE && IsPow2(size) && i <= size
    ensures Cell(total % SIZE_MOD % size, i, size) == (total + i) % size
  {
    var k: nat :| size == Pow2(k);
    SizeDivides(k);
    ModMod(total, SIZE_MOD, size);
    ModAdd(total, i, size);
    DivMod(total, size);
    if i < size {
      ModWrap(total % size, i, size);
    } else {
      DivModUnique(1, size, total % size);
    }
  }

  // A byte of a put that is being copied goes to a cell that holds no unread byte and none of
  // the bytes copied before it.
  lemma PutByteKeepsUnread(s: State, p: nat)
    requires Inv(s) && Enabled(s, PutByte)
    requires |s.taken| <= p < |s.accepted| + s.producer.done
    ensures Sized(s) && Next(s, PutByte).buf[p % |s.buf|] == s.buf[p % |s.buf|]
  {
    CountersTell(s);
    hide Stored, Cell, IsPow2;
    var size, a, done := |s.buf|, |s.accepted|, s.producer.done;
    CellOfByte(a, done, size);
    if p % size == (a + done) % size {
      ModApart(p, a + done, size);
    }
  }

  // The same in terms of what is stored, and the byte that is copied.
  lemma PutByteStores(s: State)
    requires Inv(s) && Enabled(s, PutByte)
    ensures var r, a, p := Next(s, PutByte), |s.accepted|, s.producer;
            && Sized(s) && |r.buf| == |s.buf| && Stored(r.buf, a + p.done, p.data[p.done])
            && forall k, x :: |s.taken| <= k < a + p.done && Stored(s.buf, k, x) ==> Stored(r.buf, k, x)
  {
    CountersTell(s);
    var a, p := |s.accepted|, s.producer;
    CellOfByte(a, p.done, |s.buf|);
    forall k, x | |s.taken| <= k < a + p.done && Stored(s.buf, k, x)
      ensures Stored(Next(s, PutByte).buf, k, x)
    {
      PutByteKeepsUnread(s, k);
    }
  }

  lemma PutByteInv(s: State)
    requires Inv(s) && Enabled(s, PutByte)
    ensures Sized(s) && Inv(Next(s, PutByte))
  {
    PutByteStores(s);
    hide Stored, Cell, IsPow2, Counts;
    var r, a, p := Next(s, PutByte), |s.accepted|, s.producer;
    assert r.producer == p.(done := p.done + 1);
  }

  lemma CountsOn(counter: nat, total: nat, len: nat)
    requires Counts(counter, total)
    ensures Counts(Add(counter, len), total + len)
  {
    ModAdd(total, len, SIZE_MOD);
  }

  lemma PutDoneInv(s: State)
    requires Inv(s) && Enabled(s, PutDone)
    ensures Sized(s) && Inv(Next(s, PutDone))
  {
    CountersTell(s);
    hide Stored, IsPow2, Add, Counts, Used, Free;
    var p := s.producer;
    CountsOn(s.inn, |s.accepted|, p.len);
    AllStored(s.buf, s.accepted, p.data, p.len, |s.taken|);
  }

  lemma AllStored(buf: seq<byte>, accepted: seq<byte>, data: seq<byte>, len: nat, t: nat)
    requires |buf| > 0 && t <= |accepted| && len <= |data|
    requires forall k :: t <= k < |accepted| ==> Stored(buf, k, accepted[k])
    requires forall i :: 0 <= i < len ==> Stored(buf, |accepted| + i, data[i])
    ensures var all := accepted + data[..len];
            (forall k :: t <= k < |all| ==> Stored(buf, k, all[k])) && all[..t] == accepted[..t]
  {
    hide Stored;
    var all := accepted + data[..len];
    forall k | |accepted| <= k < |all|
      ensures Stored(buf, k, all[k])
    {
      var i := k - |accepted|;
      assert Stored(buf, |accepted| + i, data[i]);
    }
  }

  lemma GetByteInv(s: State)
    requires Inv(s) && Enabled(s, GetByte)
    ensures Sized(s) && Inv(Next(s, GetByte))
  {
    GetByteDelivers(s);
    hide Stored, Cell, IsPow2, Next, Counts;
    SliceGrows(s.accepted, |s.taken|, |s.consumer.dst|);
  }

  lemma SliceGrows(q: seq<byte>, t: nat, d: nat)
    requires t + d < |q|
    ensures q[t..t + d] + [q[t + d]] == q[t..t + d + 1]
  {
  }

  lemma PrefixGrows(q: seq<byte>, t: nat, d: nat)
    requires t + d <= |q|
    ensures q[..t] + q[t..t + d] == q[..t + d]
  {
  }

  lemma GetByteDelivers(s: State)
    requires Inv(s) && Enabled(s, GetByte)
    ensures var t, c := |s.taken|, s.consumer;
            Sized(s) && Next(s, GetByte) == s.(consumer := c.(dst := c.dst + [s.accepted[t + |c.dst|]]))
  {
    CountersTell(s);
    var t, c := |s.taken|, s.consumer;
    CellOfByte(t, |c.dst|, |s.buf|);
    assert Stored(s.buf, t + |c.dst|, s.accepted[t + |c.dst|]);
  }

  lemma GetDoneInv(s: State)
    requires Inv(s) && Enabled(s, GetDone)
    ensures Sized(s) && Inv(Next(s, GetDone))
  {
    CountersTell(s);
    var t, c := |s.taken|, s.consumer;
    CountsOn(s.outt, t, c.len);
    hide Stored, IsPow2, Add, Counts;
    PrefixGrows(s.accepted, t, c.len);
  }

  // The steps that only read the counters leave all bytes where they are.
  lemma PutReads(s: State, a: Action)
    requires Inv(s) && Enabled(s, a) && (a.Put? || a.PutReread?)
    ensures Sized(s) && (Overrun(Next(s, a)) || Inv(Next(s, a)))
  {
    CountersTell(s);
    hide Stored, IsPow2, Free, Counts;
  }

  lemma GetReads(s: State, a: Action)
    requires Inv(s) && Enabled(s, a) && (a.Get? || a.GetReread?)
    ensures Sized(s) && (Overrun(Next(s, a)) || Inv(Next(s, a)))
  {
    CountersTell(s);
    hide Stored, IsPow2, Used, Counts;
    var t := |s.taken|;
    assert s.accepted[t..t] == [];
  }

  lemma ReadingInv(s: State, a: Action)
    requires Inv(s) && Enabled(s, a) && (a.Put? || a.PutReread? || a.Get? || a.GetReread?)
    ensures Sized(s) && (Overrun(Next(s, a)) || Inv(Next(s, a)))
  {
    hide Inv, Next, Enabled, Sized;
    if a.Put? || a.PutReread? {
      PutReads(s, a);
    } else {
      GetReads(s, a);
    }
  }

  // Every step of either thread keeps the invariant, unless it overruns the caller's buffer.
  lemma NextInv(s: State, a: Action)
    requires Inv(s) && Enabled(s, a)
    ensures Sized(s) && (Overrun(Next(s, a)) || Inv(Next(s, a)))
  {
    hide Inv, Next, Enabled;
    match a {
      case PutByte => PutByteInv(s);
      case PutDone => PutDoneInv(s);
      case GetByte => GetByteInv(s);
      case GetDone => GetDoneInv(s);
      case _ => ReadingInv(s, a);
    }
  }

  // ---- Runs -------------------------------------------------------------------------------

  // The actions can be taken one after the other; a run ends with an overrun.
  predicate Legal(s: State, run: seq<Action>)
    decreases |run|
  {
    if run == [] then true
    else Sized(s) && !Overrun(s) && Enabled(s, run[0]) && Legal(Next(s, run[0]), run[1..])
  }

  function Exec(s: State, run: seq<Action>): State
    requires Legal(s, run)
    decreases |run|
  {
    if run == [] then s else Exec(Next(s, run[0]), run[1..])
  }

  predicate Init(s: State) {
    && 0 < |s.buf| <= MAX_SIZE && s.inn == s.outt == 0
    && s.producer == PutIdle && s.consumer == GetIdle && s.accepted == s.taken == []
  }

  // In every interleaving, the bytes got, also those of a get that is still copying, are a
  // prefix of the bytes accepted, and the unread ones are all in their cells.
  lemma {:induction false} RunKeeps(s: State, run: seq<Action>)
    requires Inv(s) && Legal(s, run)
    ensures Overrun(Exec(s, run)) || Inv(Exec(s, run))
    decreases |run|
  {
    if run != [] {
      NextInv(s, run[0]);
      if |run| > 1 {
        RunKeeps(Next(s, run[0]), run[1..]);
      }
    }
  }

  lemma GotIsPrefix(s: State)
    requires Inv(s)
    ensures (s.taken + if s.consumer.GetCopying? then s.consumer.dst else []) <= s.accepted
  {
    if s.consumer.GetCopying? {
      hide Stored, IsPow2;
      PrefixGrows(s.accepted, |s.taken|, |s.consumer.dst|);
    }
  }

  // With one snapshot of the other counter, no run ever overruns.
  lemma {:induction false} SnapshotNeverOverruns(s: State, run: seq<Action>)
    requires Inv(s) && s.snapshot && Legal(s, run)
    requires !s.producer.PutAgain? && !s.consumer.GetAgain? && !Overrun(s)
    ensures !Overrun(Exec(s, run)) && Inv(Exec(s, run))
    decreases |run|
  {
    if run != [] {
      NextInv(s, run[0]);
      SnapshotNeverOverruns(Next(s, run[0]), run[1..]);
    }
  }

  lemma RunIsSafe(s: State, run: seq<Action>)
    requires Init(s) && IsPow2(|s.buf|) && s.snapshot && Legal(s, run)
    ensures var r := Exec(s, run);
            Inv(r) && !Overrun(r) && (r.taken + if r.consumer.GetCopying? then r.consumer.dst else []) <= r.accepted
  {
    assert Inv(s);
    SnapshotNeverOverruns(s, run);
    GotIsPrefix(Exec(s, run));
  }
}
