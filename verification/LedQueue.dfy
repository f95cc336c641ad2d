// The queue of LED records between HyNetWiredSetLed and _led_loop_cb in src/hy_net_wired.c:
// records of eight bytes in a byte FIFO that was asked to hold six of them.
module LedQueue {
  import opened Basics
  import opened Bits
  import opened Fifo
  import SpscFifo
  import SpscOverrun
  import Words

  datatype LedMode = LedMode(led: Words.Word, mode: Words.Word)

  const RECORD_LEN := 8

  function Encode(r: LedMode): (b: seq<byte>)
    ensures |b| == RECORD_LEN
  {
    Words.ToBytes(r.led) + Words.ToBytes(r.mode)
  }

  function Decode(b: seq<byte>): LedMode
    requires |b| == RECORD_LEN
  {
    LedMode(Words.ToWord(b[..4]), Words.ToWord(b[4..]))
  }

  lemma DecodeEncode(r: LedMode)
    ensures Decode(Encode(r)) == r
  {
    Words.WordOfBytes(r.led);
    Words.WordOfBytes(r.mode);
    assert Encode(r)[..4] == Words.ToBytes(r.led) && Encode(r)[4..] == Words.ToBytes(r.mode);
  }

  // The bytes of a record: first those of the LED's number, and then those of the mode.
  lemma Layout(r: LedMode)
    ensures Encode(r)[..4] == Words.ToBytes(r.led) && Encode(r)[4..] == Words.ToBytes(r.mode)
  {
    hide Words.ToBytes;
  }

  function Flatten(rs: seq<LedMode>): (b: seq<byte>)
    ensures |b| == RECORD_LEN * |rs|
  {
    if rs == [] then [] else Encode(rs[0]) + Flatten(rs[1..])
  }

  lemma {:induction false} FlattenAppend(rs: seq<LedMode>, r: LedMode)
    ensures Flatten(rs + [r]) == Flatten(rs) + Encode(r)
  {
    if rs == [] {
      assert rs + [r] == [r];
    } else {
      assert (rs + [r])[1..] == rs[1..] + [r];
      FlattenAppend(rs[1..], r);
    }
  }

  // The only power of two from 48 to 64 is 64.
  lemma SizeIs64(size: nat)
    requires IsPow2(size) && 48 <= size && forall p :: IsPow2(p) && 48 <= p ==> size <= p
    ensures size == 64
  {
    assert Pow2(5) == 32 && Pow2(6) == 64;
    var k: nat :| size == Pow2(k);
    if k < 6 {
      Pow2Monotone(k, 5);
    } else {
      Pow2Monotone(6, k);
    }
    assert IsPow2(64);
  }

  class LedFifo {
    const fifo: HyFifo
    // The records put and not yet got.
    ghost var records: seq<LedMode>

    ghost predicate Valid()
      reads this, fifo, fifo.buf
    {
      && fifo.Valid() && fifo.size == 64 && fifo.untold == 0
      && fifo.Contents() == Flatten(records)
    }

    // The FIFO part of HyNetWiredCreate
    constructor ()
      ensures Valid() && records == [] && fresh(fifo) && fresh(fifo.buf)
    {
      fifo := new HyFifo(RECORD_LEN * 6);
      records := [];
      new;
      SizeIs64(fifo.size);
    }

    // HyNetWiredSetLed: a record is stored whole, or not at all when eight are waiting.
    method SetLed(led: Words.Word, mode: Words.Word)
      requires Valid()
      modifies this, fifo`inn, fifo`useCnt, fifo.buf
      ensures Valid() && |records| <= 8
      ensures records == if |old(records)| < 8 then old(records) + [LedMode(led, mode)] else old(records)
    {
      var r := LedMode(led, mode);
      var len := fifo.Put(Encode(r));
      FlattenAppend(records, r);
      if |records| < 8 {
        records := records + [r];
      }
    }

    // One round of _led_loop_cb on the queue: nothing while no byte is in use, then one record.
    method TakeLed() returns (r: Option<LedMode>)
      requires Valid()
      modifies this, fifo`outt, fifo`useCnt
      ensures Valid()
      ensures r == if old(records) == [] then None else Some(old(records)[0])
      ensures records == if old(records) == [] then [] else old(records)[1..]
    {
      hide Window, Encode, Decode, Add, Sub, IsPow2;
      var val := fifo.GetInfo(UsedLen);
      if val == 0 {
        return None;
      }
      ghost var c := fifo.Contents();
      var dst := new byte[RECORD_LEN];
      var len := fifo.Get(dst, RECORD_LEN);
      assert c == Encode(records[0]) + Flatten(records[1..]);
      assert c[..RECORD_LEN] == Encode(records[0]) && c[RECORD_LEN..] == Flatten(records[1..]);
      assert dst[..] == c[..RECORD_LEN];
      DecodeEncode(records[0]);
      r := Some(Decode(dst[..]));
      records := records[1..];
    }
  }

  // With both threads at work on the FIFO and nothing but records put and got, whatever the other
  // thread is at: the put of a record can run past it exactly if there is room for one record at
  // most, and the get of a record past its destination exactly if one record at most is waiting,
  // unless the other thread is about to overrun itself.  The macro takes the length from its second
  // reading of the other counter.
  lemma RecordCanTearExactly(s: SpscFifo.State, r: LedMode)
    requires SpscFifo.Inv(s) && !s.snapshot && !SpscFifo.Overrun(s) && |s.buf| == 64
    ensures SpscFifo.Sized(s)
    ensures s.producer.PutIdle? ==>
              ((exists run :: SpscOverrun.OfSize(run, RECORD_LEN) && SpscOverrun.PutOverrunsBy(s, Encode(r), run))
               <==> SpscFifo.Free(s) <= RECORD_LEN && !SpscOverrun.GetIsStuck(s))
    ensures s.consumer.GetIdle? ==>
              ((exists run :: SpscOverrun.OfSize(run, RECORD_LEN) && SpscOverrun.GetOverrunsBy(s, RECORD_LEN, run))
               <==> SpscFifo.Used(s) <= RECORD_LEN && !SpscOverrun.PutIsStuck(s))
  {
    SpscOverrun.SameSizeCanOverrunExactly(s, Encode(r));
  }
}
