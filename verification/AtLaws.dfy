// What single turns of the AT engine do, told on the bytes in the FIFO, the queue and plain numbers.
module AtLaws {
  import opened Basics
  import opened AtSpec
  import opened AtTags
  import opened AtQueue

  // The bytes of v can be looked at: no more than the buffer holds, and none behind a begun frame.
  predicate InReach(e: Engine, v: seq<byte>)
    requires Framed(e)
  {
    v <= e.fifo && |v| <= 200 && (e.union.Some? ==> e.frameSum + |v| <= |e.union.value|)
  }

  // The view is the longest such part of the FIFO.
  lemma ViewIs(e: Engine)
    requires Framed(e)
    ensures InReach(e, View(e)) && forall v :: InReach(e, v) ==> v <= View(e)
  {
  }

  // Nothing but the FIFO, the state and the offset has changed.
  predicate Only(e: Engine, f: Engine) {
    f == e.(fifo := f.fifo, state := f.state, offset := f.offset)
  }

  predicate BeginsOne(table: seq<Catch>, b: byte) {
    exists c <- table :: c.str != [] && c.str[0] == b
  }

  lemma StartsIs(table: seq<Catch>, b: byte)
    ensures Starts(table, b) <==> BeginsOne(table, b)
  {
    if Starts(table, b) {
      var i :| 0 <= i < |table| && table[i].str != [] && table[i].str[0] == b;
      assert table[i] in table;
    }
  }

  // With nothing in the FIFO, a turn that reads goes back to idle.
  lemma NothingInView(cfg: Config, e: Engine, now: nat)
    requires Inv(cfg, e) && e.fifo == [] && e.state !in {Write, WriteCmd, WriteCmdWait, WriteData, WriteMax, Idle}
    ensures TurnDefined(e) && Turn(cfg, e, now) == Quiet(e.(state := Idle))
  {
    hide QueueInv, TagAtFront, ValidConfig;
  }

  // The scan drops what is in view up to the first byte that a catch string begins with, and there
  // the head is examined; if there is no such byte, it drops all and the engine is idle.
  lemma ScanExactly(cfg: Config, e: Engine, now: nat)
    requires Inv(cfg, e) && e.state == Read && !e.parsing && e.fifo != []
    ensures TurnDefined(e)
    ensures var o := Turn(cfg, e, now); var f := o.engine; var k := |e.fifo| - |f.fifo|;
            && o == Quiet(f) && Only(e, f) && f.offset == 0
            && 0 <= k <= |View(e)| && f.fifo == e.fifo[k..]
            && (forall j :: 0 <= j < k ==> !BeginsOne(cfg.table, e.fifo[j]))
            && (if k < |View(e)| then f.state == ReadHead && BeginsOne(cfg.table, e.fifo[k]) else f.state == Idle)
  {
    var v := View(e);
    var k := FirstStart(cfg.table, v);
    TurnReads(cfg, e, now);
    hide Turn, ReadTurn, QueueInv, TagAtFront, ValidConfig, View, Starts, BeginsOne;
    forall j | 0 <= j < |v|
      ensures e.fifo[j] == v[j] && (Starts(cfg.table, v[j]) <==> BeginsOne(cfg.table, v[j]))
    {
      StartsIs(cfg.table, v[j]);
    }
  }

  lemma HeadTurns(cfg: Config, e: Engine, now: nat)
    requires Inv(cfg, e) && e.state == ReadHead && !e.parsing
    ensures TurnDefined(e) && 0 < |View(e)| && View(e)[0] == e.fifo[0]
    ensures Turn(cfg, e, now) == HeadTurn(cfg.table, e, View(e))
  {
    TurnReads(cfg, e, now);
    hide Turn, ReadTurn, QueueInv, ValidConfig, HeadTurn, Starts;
  }

  // The examination of a head: the first catch string that fits leads to its state, the first one
  // that delays leads nowhere, and if none does a lone '>' leads to the data, and any other byte is
  // dropped.
  lemma HeadExactly(cfg: Config, e: Engine, now: nat)
    requires Inv(cfg, e) && e.state == ReadHead && !e.parsing
    ensures TurnDefined(e)
    ensures forall i :: 0 <= i < |cfg.table| && Decides(cfg.table, View(e), i) ==>
              var c := cfg.table[i];
              Turn(cfg, e, now) == Quiet(if Fits(c, View(e)) then e.(state := c.state, offset := |c.str|) else e)
    ensures (forall i :: 0 <= i < |cfg.table| ==> !Decides(cfg.table, View(e), i)) ==>
              Turn(cfg, e, now) == Quiet(if e.fifo == [62] then e.(state := Send, offset := 1)
                                         else e.(state := Idle, offset := 0, fifo := e.fifo[1..]))
  {
    HeadTurns(cfg, e, now);
    HeadTagDecided(cfg.table, View(e));
    hide Turn, QueueInv, TagAtFront, ValidConfig, View, HeadTag, Decides, Fits;
    assert |e.fifo| == 1 && e.fifo[0] == 62 <==> e.fifo == [62];
  }

  // The catch string of the state stands in front of the FIFO, and f is behind it.
  ghost predicate Passes(table: seq<Catch>, e: Engine, f: Engine) {
    && f.offset == 0
    && exists c <- table :: c.state == e.state && c.str <= e.fifo && e.offset == |c.str| && f.fifo == e.fifo[|c.str|..]
  }

  lemma DropPasses(cfg: Config, e: Engine)
    requires Inv(cfg, e) && !e.parsing && IsReply(e.state) && e.state != Closed && e.state != Send
    ensures Passes(cfg.table, e, Drop(e))
  {
    assert HasTag(cfg.table, e) by {
      hide HasTag, QueueInv, ValidConfig, Framed, Starts;
    }
    hide Inv;
    var c :| c in cfg.table && c.state == e.state && c.str <= e.fifo && e.offset == |c.str|;
    assert Drop(e).fifo == e.fifo[|c.str|..];
  }

  lemma FirstTry(cfg: Config, e: Engine)
    requires QueueInv(cfg, e) && e.cmds != []
    ensures (e.cmds[0].delCnt == 1 || e.cmds[0].delCnt == 2) && e.cmds[0].retry < 256
    ensures (e.cmds[0].delCnt + 255) % 256 == e.cmds[0].delCnt - 1
    ensures (e.cmds[0].retry + 255) % 256 == if e.cmds[0].retry == 0 then 255 else e.cmds[0].retry - 1
    ensures (e.count + 255) % 256 == (|e.cmds| - 1) % 256
  {
    CountDown(|e.cmds|);
  }

  // A reply OK takes its text out of the FIFO and is reported.  It counts against the first command,
  // which leaves the queue with the last reply due to it, and the engine is free after it exactly if
  // the command has no data or its data has been sent.
  lemma OkExactly(cfg: Config, e: Engine, now: nat)
    requires Inv(cfg, e) && TurnDefined(e) && !e.parsing && e.fifo != [] && e.state in {Ok, ConnectOk}
    ensures e.cmds != []
    ensures var o := Turn(cfg, e, now); var f := o.engine; var c := e.cmds[0];
            && o == Outcome(f, e.state, [], []) && Passes(cfg.table, e, f) && f.state == Idle
            && f == e.(fifo := f.fifo, state := Idle, offset := 0, busy := f.busy, cmds := f.cmds, count := f.count)
            && f.busy == (if c.data == [] || e.busy == 2 then 0 else e.busy)
            && f.cmds == if c.delCnt == 1 then e.cmds[1..] else [c.(delCnt := 1)] + e.cmds[1..]
  {
    FirstTry(cfg, e);
    DropPasses(cfg, e);
    OkTurns(cfg, e, now);
    CountedIs(e);
    hide Turn, Counted, QueueInv, TagAtFront, ValidConfig, View, Passes, Drop;
    BehindTheReply(cfg.table, e, Counted(e).(state := Idle));
  }

  lemma OkTurns(cfg: Config, e: Engine, now: nat)
    requires Inv(cfg, e) && TurnDefined(e) && !e.parsing && e.fifo != [] && e.state in {Ok, ConnectOk}
    ensures e.cmds != [] && Turn(cfg, e, now) == OkTurn(e)
  {
    TurnReads(cfg, e, now);
    hide Turn, ReadTurn, OkTurn, QueueInv, TagAtFront, ValidConfig, View;
  }

  lemma BehindTheReply(table: seq<Catch>, e: Engine, g: Engine)
    requires Passes(table, e, Drop(e)) && g.fifo == e.fifo && g.offset == e.offset
    ensures Passes(table, e, Drop(g)) && Drop(g) == g.(fifo := Drop(e).fifo, offset := 0)
  {
  }

  lemma CountedIs(e: Engine)
    requires e.cmds != [] && (e.cmds[0].delCnt == 1 || e.cmds[0].delCnt == 2)
    ensures var f := Counted(e); var c := e.cmds[0];
            && f == e.(busy := f.busy, cmds := f.cmds, count := f.count)
            && f.busy == (if c.data == [] || e.busy == 2 then 0 else e.busy)
            && f.cmds == if c.delCnt == 1 then e.cmds[1..] else [c.(delCnt := 1)] + e.cmds[1..]
  {
  }

  // A failure reply empties the FIFO and makes the first command be sent again with one try less;
  // its last try is reported as a closed connection, and the command leaves the queue.
  lemma FailExactly(cfg: Config, e: Engine, now: nat)
    requires Inv(cfg, e) && TurnDefined(e) && !e.parsing && e.fifo != [] && e.state in {Error, Faild}
    ensures e.cmds != []
    ensures var o := Turn(cfg, e, now); var f := o.engine; var c := e.cmds[0];
            && o == Outcome(f, if c.retry == 1 then Closed else e.state, [], [])
            && f == e.(fifo := [], state := Write, cmds := f.cmds, count := f.count)
            && f.cmds == (if c.retry == 1 then e.cmds[1..]
                          else [c.(retry := if c.retry == 0 then 255 else c.retry - 1)] + e.cmds[1..])
  {
    FirstTry(cfg, e);
    FailTurns(cfg, e, now);
    FailedIs(e);
    hide Turn, FailTurn, QueueInv, TagAtFront, ValidConfig, View;
  }

  lemma FailTurns(cfg: Config, e: Engine, now: nat)
    requires Inv(cfg, e) && TurnDefined(e) && !e.parsing && e.fifo != [] && e.state in {Error, Faild}
    ensures e.cmds != [] && Turn(cfg, e, now) == FailTurn(e)
  {
    TurnReads(cfg, e, now);
    hide Turn, ReadTurn, FailTurn, QueueInv, TagAtFront, ValidConfig, View;
  }

  lemma FailedIs(e: Engine)
    requires e.cmds != [] && e.cmds[0].retry < 256
    ensures var o := FailTurn(e); var f := o.engine; var c := e.cmds[0];
            && o == Outcome(f, if c.retry == 1 then Closed else e.state, [], [])
            && f == e.(fifo := [], state := Write, cmds := f.cmds, count := f.count)
            && f.cmds == (if c.retry == 1 then e.cmds[1..]
                          else [c.(retry := if c.retry == 0 then 255 else c.retry - 1)] + e.cmds[1..])
  {
  }

  // The replies that concern neither the queue nor a frame: READY is reported, after "busy" the
  // engine reads on, and after the prompt the data is sent.
  lemma PlainExactly(cfg: Config, e: Engine, now: nat)
    requires Inv(cfg, e) && !e.parsing && e.fifo != [] && e.state in {Ready, BusyS, Send}
    ensures TurnDefined(e)
    ensures var o := Turn(cfg, e, now); var f := o.engine;
            && o == Outcome(f, if e.state == Ready then Ready else Idle, [], [])
            && Only(e, f)
            && f.state == (if e.state == Ready then Idle else if e.state == BusyS then Read else WriteData)
            && (Passes(cfg.table, e, f) || (e.state == Send && f.offset == 0 && e.fifo == [62] + f.fifo))
  {
    SendPasses(cfg, e);
    TurnReads(cfg, e, now);
    hide Turn, ReadTurn, QueueInv, TagAtFront, ValidConfig, View, Passes;
    BehindThePrompt(cfg.table, e);
  }

  lemma BehindThePrompt(table: seq<Catch>, e: Engine)
    requires Passes(table, e, Drop(e)) || (e.state == Send && e.fifo == [62] + Drop(e).fifo)
    ensures forall s :: Drop(e.(state := s)) == Drop(e).(state := s)
    ensures forall s ::
              && (Passes(table, e, Drop(e)) ==> Passes(table, e, Drop(e.(state := s))))
              && Only(e, Drop(e.(state := s)))
  {
  }

  lemma SendPasses(cfg: Config, e: Engine)
    requires Inv(cfg, e) && !e.parsing && e.state in {Ready, BusyS, Send}
    ensures Passes(cfg.table, e, Drop(e)) || (e.state == Send && e.fifo == [62] + Drop(e).fifo)
  {
    assert HasTag(cfg.table, e) by {
      hide HasTag, QueueInv, ValidConfig, Framed, Starts;
    }
    hide Inv;
    if c :| c in cfg.table && c.state == e.state && c.str <= e.fifo && e.offset == |c.str| {
      assert Drop(e).fifo == e.fifo[|c.str|..];
    } else {
      assert e.fifo == [62] + e.fifo[1..];
    }
  }

  // The first "OK" of the view is at k, and no zero byte is before it.
  predicate OkAt(v: seq<byte>, k: nat) {
    && k + 1 < |v| && v[k] == 79 && v[k + 1] == 75
    && (forall j :: 0 <= j < k ==> v[j] != 0 && !(v[j] == 79 && v[j + 1] == 75))
  }

  lemma SignalLenIs(v: seq<byte>)
    ensures forall k: nat :: OkAt(v, k) ==> SignalLen(v) == k
    ensures SignalLen(v) > 0 ==> OkAt(v, SignalLen(v))
  {
    var c := CString(v);
    hide IndexOfOk, IndexOf;
    forall k: nat | OkAt(v, k)
      ensures SignalLen(v) == k
    {
      assert IndexOf(v, 0) >= k + 2;
      assert c[k..][..2] == OK_TEXT;
      OkIsFirst(c, k);
    }
    var n := IndexOfOk(c);
    if n < |c| {
      assert v[n] == c[n..][0] == 79 && v[n + 1] == c[n..][1] == 75;
      forall j | 0 <= j < n
        ensures v[j] != 0 && !(v[j] == 79 && v[j + 1] == 75)
      {
        assert c[j..][..2] == [v[j], v[j + 1]];
      }
      assert OkAt(v, n);
    }
  }

  lemma OkIsFirst(c: seq<byte>, k: nat)
    requires k + 1 < |c| && c[k] == 79 && c[k + 1] == 75
    requires forall j :: 0 <= j < k ==> !(c[j] == 79 && c[j + 1] == 75)
    ensures IndexOfOk(c) == k
  {
    hide IndexOfOk;
    var n := IndexOfOk(c);
    assert c[k..][..2] == OK_TEXT;
    forall j | 0 <= j < k
      ensures !(OK_TEXT <= c[j..])
    {
      assert c[j..][0] == c[j] && c[j..][1] == c[j + 1];
    }
  }

  // A signal reply is delivered up to the first "OK", once there are 16 bytes for the signal
  // quality, or 38 for the access point; until then the turn leaves everything as it is.
  lemma SignalExactly(cfg: Config, e: Engine, now: nat)
    requires Inv(cfg, e) && TurnDefined(e) && !e.parsing && e.fifo != [] && e.state in {SignalCsq, SignalCwjap}
    ensures var v, o, least := View(e), Turn(cfg, e, now), if e.state == SignalCsq then 16 else 38;
            && (forall k: nat :: 0 < k && OkAt(v, k) && |v| >= least ==>
                  o == Outcome(e.(fifo := e.fifo[k..], state := Idle, offset := 0), Idle, [Frame(0, v[..k])], []))
            && ((|v| < least || forall k: nat :: OkAt(v, k) ==> k == 0) ==> o == Quiet(e))
  {
    SignalTurns(cfg, e, now);
    SignalLenIs(View(e));
    hide Turn, TurnDefined, Inv, SignalLen, OkAt, View;
  }

  lemma SignalTurns(cfg: Config, e: Engine, now: nat)
    requires Inv(cfg, e) && TurnDefined(e) && !e.parsing && e.fifo != [] && e.state in {SignalCsq, SignalCwjap}
    ensures Turn(cfg, e, now) == SignalTurn(e, View(e), if e.state == SignalCsq then 16 else 38)
    ensures View(e) <= e.fifo
  {
    TurnReads(cfg, e, now);
    hide Turn, ReadTurn, SignalTurn, QueueInv, TagAtFront, ValidConfig, View;
  }

  // After a frame has been delivered the engine is idle and no frame is begun; queue and timing are
  // as before.
  lemma DeliveredFrameEnds(cfg: Config, e: Engine, now: nat)
    requires Inv(cfg, e) && TurnDefined(e) && Turn(cfg, e, now).frames != []
    ensures var o := Turn(cfg, e, now);
            && o.ret == Idle && o.writes == [] && |o.frames| == 1
            && o.engine == Engine(o.engine.fifo, None, 0, 0, Idle, e.busy, false, e.cmds, e.count, e.tick)
  {
    if IsRead(e.state) {
      ReadDelivers(cfg, e);
    } else {
      hide Inv, Since, ValidConfig;
    }
  }

  lemma ReadDelivers(cfg: Config, e: Engine)
    requires ValidConfig(cfg) && Framed(e) && TurnDefined(e) && IsRead(e.state) && ReadTurn(cfg, e).frames != []
    ensures var o := ReadTurn(cfg, e);
            && o.ret == Idle && o.writes == [] && |o.frames| == 1
            && o.engine == Engine(o.engine.fifo, None, 0, 0, Idle, e.busy, false, e.cmds, e.count, e.tick)
  {
    hide ValidConfig, HeadTag, FirstStart, View, IpdRefused, IpdDataLen, IpdFormatLen, SignalLen, Overlay;
    hide Starts, CString, Field;
  }

  // A header that is refused, and a cleaning, leave the engine as it was created.
  lemma CleanedIsCreated(cfg: Config, e: Engine)
    requires QueueInv(cfg, e)
    ensures Cleaned(e) == CREATED == Engine([], None, 0, 0, Idle, 0, false, [], 0, 0)
  {
    CleanKeepsQueue(cfg, e);
  }

  // An idle engine reads if there is something to read.  Else it sends the first command if none is
  // under way, or again if that one's time is up: unless this was the last try, which is reported as
  // a closed connection.
  lemma IdleExactly(cfg: Config, e: Engine, now: nat)
    requires Inv(cfg, e) && e.state == Idle
    ensures TurnDefined(e)
    ensures e.fifo != [] ==> Turn(cfg, e, now) == Quiet(e.(state := Read))
    ensures e.fifo == [] && e.cmds == [] ==> Turn(cfg, e, now) == Quiet(e)
    ensures e.fifo == [] && e.cmds != [] ==>
              var c, late := e.cmds[0], (now - e.tick) % 0x1_0000_0000 > e.cmds[0].waitTime;
              var again := c.(retry := if c.retry == 0 then 255 else c.retry - 1);
              Turn(cfg, e, now) ==
              if !late then Quiet(if e.busy == 0 then e.(state := Write) else e)
              else Outcome(e.(tick := now, busy := 0, cmds := [again] + e.cmds[1..],
                              state := if c.retry == 1 then Idle else Write),
                           if c.retry == 1 then Closed else Idle, [], [])
  {
    hide TagAtFront, ValidConfig, View;
    if e.cmds != [] {
      FirstTry(cfg, e);
      hide QueueInv, Framed, TurnDefined;
      LateIs(e, now);
    }
  }

  lemma LateIs(e: Engine, now: nat)
    requires e.cmds != []
    ensures Since(e, now) == (now - e.tick) % 0x1_0000_0000
    ensures forall c :: e.cmds[0 := c] == [c] + e.cmds[1..]
  {
  }

  // The turns that write: the text of the first command, and its data when the prompt has come.
  lemma SendsExactly(cfg: Config, e: Engine, now: nat)
    requires ValidConfig(cfg) && Framed(e) && TurnDefined(e) && e.state in {Write, WriteCmd, WriteData}
    ensures e.state == Write ==> Turn(cfg, e, now) == Quiet(e.(state := WriteCmd))
    ensures e.state == WriteCmd ==>
              && e.cmds != []
              && Turn(cfg, e, now)
                 == Outcome(e.(state := WriteCmdWait, busy := 1, tick := now), Idle, [], [e.cmds[0].text])
    ensures e.state == WriteData ==>
              && e.cmds != []
              && Turn(cfg, e, now) == Outcome(e.(state := Read, busy := 2, tick := now), Idle, [], [e.cmds[0].data])
  {
    WriteTurns(cfg, e, now);
    hide ValidConfig, Framed, TurnDefined, Turn, Since;
  }

  // After a command has been sent, reading begins when more than 10 ms have gone by.
  lemma WaitsExactly(cfg: Config, e: Engine, now: nat)
    requires ValidConfig(cfg) && Framed(e) && e.state == WriteCmdWait
    ensures TurnDefined(e)
    ensures Turn(cfg, e, now) == Quiet(if (now - e.tick) % 0x1_0000_0000 > 10 then e.(state := Read) else e)
  {
    WriteTurns(cfg, e, now);
    hide ValidConfig, Framed, Turn;
  }

  lemma WriteTurns(cfg: Config, e: Engine, now: nat)
    requires ValidConfig(cfg) && Framed(e) && TurnDefined(e) && e.state in {Write, WriteCmd, WriteCmdWait, WriteData}
    ensures (e.state == WriteCmd || e.state == WriteData) ==> e.cmds != []
    ensures Turn(cfg, e, now) == WriteTurn(e, now)
  {
    hide ValidConfig, View, ReadTurn, IdleTurn, Since;
  }

  lemma SendingFinds(e: Engine)
    requires Framed(e) && TurnDefined(e) && (e.state == WriteCmd || e.state == WriteData)
    ensures e.cmds != []
  {
    hide View;
  }

  // A command is accepted exactly if there is no limit or the queue is below it.  It goes to the end
  // of the queue, and waits for two replies if it has data and commands are answered apart.
  lemma AcceptedExactly(cfg: Config, e: Engine, text: seq<byte>, data: seq<byte>, waitTime: nat, retry: nat)
    requires Inv(cfg, e)
    ensures Refuses(cfg, e) <==> cfg.cmdNum != 0 && |e.cmds| == cfg.cmdNum
    ensures var f := Issue(cfg, e, text, data, waitTime, retry);
            if Refuses(cfg, e) then f == e
            else
              var replies := if cfg.isCmdOk && data != [] then 2 else 1;
              && f == e.(cmds := e.cmds + [Cmd(text, data, waitTime, retry, replies)], count := f.count)
              && f.count == (|e.cmds| + 1) % 256
  {
    hide TagAtFront, Framed, QueueInv;
    CountUp(|e.cmds|);
    AtLimit(cfg, e);
    hide Refuses, Inv;
  }

  lemma CountUp(n: nat)
    ensures (n % 256 + 1) % 256 == (n + 1) % 256
  {
  }

  lemma AtLimit(cfg: Config, e: Engine)
    requires QueueInv(cfg, e) && cfg.cmdNum < 256
    ensures Refuses(cfg, e) <==> cfg.cmdNum != 0 && |e.cmds| == cfg.cmdNum
    ensures e.count == |e.cmds| % 256
  {
  }

  // The FIFO takes the bytes that have room, from the front of the data on.
  lemma PutExactly(cfg: Config, e: Engine, data: seq<byte>)
    requires |e.fifo| <= cfg.size
    ensures var f := PutData(cfg, e, data);
            && f == e.(fifo := f.fifo) && e.fifo <= f.fifo <= e.fifo + data
            && (f.fifo == e.fifo + data || |f.fifo| == cfg.size)
  {
  }
}
