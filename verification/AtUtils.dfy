// The AT engine as the code runs it: the fields of at_utils_context_t, changed step by step over
// the byte FIFO, and proved against the functions of AtSpec and AtEngine.
module AtUtils {
  import opened Basics
  import opened Fifo
  import opened AtSpec
  import opened AtTags
  import opened AtQueue
  import opened AtEngine
  import opened AtLaws

  // The loops of _find_frame_tag with flag 0.
  method FindStart(table: seq<Catch>, buf: seq<byte>) returns (cnt: nat)
    requires forall c :: c in table ==> c.str != []
    ensures cnt == FirstStart(table, buf)
  {
    cnt := 0;
    while cnt < |buf|
      invariant cnt <= |buf| && forall j :: 0 <= j < cnt ==> !Starts(table, buf[j])
    {
      var i := 0;
      while i < |table|
        invariant 0 <= i <= |table| && forall j :: 0 <= j < i ==> table[j].str[0] != buf[cnt]
      {
        if table[i].str[0] == buf[cnt] {
          return;
        }
        i := i + 1;
      }
      cnt := cnt + 1;
    }
  }

  // The loop of _find_frame_tag with flag 1.
  method FindHead(table: seq<Catch>, v: seq<byte>) returns (head: Head)
    requires |v| <= FACTOR_LEN && forall c :: c in table ==> 0 < |c.str| <= FACTOR_LEN && 0 !in c.str
    ensures head == HeadTag(table, v)
    ensures forall i :: 0 <= i < |table| && Decides(table, v, i) ==>
              head == if Fits(table[i], v) then Tag(table[i]) else Wait
    ensures head == NoTag <==> forall i :: 0 <= i < |table| ==> !Decides(table, v, i)
  {
    HeadTagDecided(table, v);
    hide Decides, Fits, HeadTag, FirstTwo, Padded;
    var buf := Padded(v);
    var i := 0;
    assert table[0..] == table;
    while i < |table|
      invariant 0 <= i <= |table| && HeadTag(table, v) == HeadTag(table[i..], v)
    {
      var str := table[i].str;
      HeadTagFrom(table, v, i);
      if FirstTwo(str, buf) && |str| > |v| {
        return Wait;
      }
      if buf[..|str|] == str {
        return Tag(table[i]);
      }
      i := i + 1;
    }
    HeadTagOfNone(table[i..], v);
    return NoTag;
  }

  // The search from one entry on.
  lemma HeadTagFrom(table: seq<Catch>, v: seq<byte>, i: nat)
    requires |v| <= FACTOR_LEN && i < |table| && forall c :: c in table ==> 0 < |c.str| <= FACTOR_LEN
    ensures var str := table[i].str;
            HeadTag(table[i..], v) == if FirstTwo(str, Padded(v)) && |str| > |v| then Wait
                                      else if Padded(v)[..|str|] == str then Tag(table[i])
                                      else HeadTag(table[i + 1..], v)
  {
    hide FirstTwo, Padded;
    assert table[i..][0] == table[i] && table[i..][1..] == table[i + 1..];
  }

  lemma HeadTagOfNone(table: seq<Catch>, v: seq<byte>)
    requires |v| <= FACTOR_LEN && table == []
    ensures HeadTag(table, v) == NoTag
  {
  }

  // _get_signal_str
  method GetSignalStr(v: seq<byte>) returns (n: nat)
    ensures n == SignalLen(v)
  {
    ghost var c := CString(v);
    var i := 0;
    while i < |v| && v[i] != 0
      invariant 0 <= i <= |c| && forall j :: 0 <= j < i ==> !(OK_TEXT <= c[j..])
    {
      if v[i] == 79 && i + 1 < |v| && v[i + 1] == 75 {
        assert OK_TEXT <= c[i..];
        return i;
      }
      assert OK_TEXT <= c[i..] ==> c[i..][0] == 79 && c[i..][1] == 75;
      i := i + 1;
    }
    return 0;
  }

  // _get_ipd_data_len; sscanf and atoi are the functions Field and Value.
  method GetIpdDataLen(v: seq<byte>) returns (fmt: nat, n: nat)
    ensures fmt == IpdFormatLen(v) && n == IpdDataLen(v)
  {
    hide Field, Value;
    fmt, n := 0, 0;
    if |v| >= 8 {
      var field := Field(v);
      var i := 0;
      while i < |field| && 48 <= field[i] <= 57
        invariant 0 <= i <= |field| && forall j :: 0 <= j < i ==> 48 <= field[j] <= 57
      {
        i := i + 1;
      }
      if i == |field| {
        n := Value(field) % 0x1_0000;
      }
      fmt := 6 + |field|;
    }
  }

  // What the cases of the switch find.
  lemma SwitchFacts(cfg: Config, e: Engine)
    requires Inv(cfg, e) && TurnDefined(e) && !e.parsing && View(e) != [] && IsRead(e.state)
    ensures e.union.None? && e.frameSum == 0 && QueueInv(cfg, e) && e.count == |e.cmds| % 256
    ensures e.state in {Ok, ConnectOk, Error, Faild} ==> e.cmds != []
    ensures e.state == IpdData ==> IpdDefined(View(e))
  {
  }

  // Which cases of the switch report a value, and which a frame.
  lemma SwitchReports(cfg: Config, e: Engine, v: seq<byte>)
    requires ValidConfig(cfg) && Framed(e) && IsRead(e.state) && TurnDefined(e) && !e.parsing
    requires v == View(e) && v != []
    ensures var o := SwitchTurn(cfg, e, v);
            && (e.state in {Read, ReadHead, IpdData, SignalCsq, SignalCwjap} ==> o.ret == Idle)
            && (e.state !in {IpdData, SignalCsq, SignalCwjap} ==> o.frames == [])
  {
    hide ValidConfig, HeadTag, FirstStart, View, IpdRefused, IpdFormatLen, IpdDataLen, SignalLen, Overlay, Drop;
  }

  lemma ShortLength(n: nat)
    requires n <= FACTOR_LEN
    ensures n % U32_MOD == n
  {
  }

  class Context {
    const table: seq<Catch>
    const cmdNum: nat
    const isCmdOk: bool
    const fifo: HyFifo
    var union: array?<byte>
    var frameSum: nat
    var offset: nat
    var state: State
    var busy: nat
    var parsing: bool
    var cmds: seq<Cmd>
    var count: nat
    var tick: nat

    ghost function Cfg(): Config {
      Config(fifo.size, table, cmdNum, isCmdOk)
    }

    ghost predicate Shape()
      reads this, fifo
    {
      fifo.Valid() && union != fifo.buf && ValidConfig(Cfg()) && offset <= FACTOR_LEN
    }

    ghost function Model(): Engine
      requires Shape()
      reads this, fifo, fifo.buf, union
    {
      Engine(fifo.Contents(), if union == null then None else Some(union[..]), frameSum, offset, state, busy, parsing,
             cmds, count, tick)
    }

    ghost predicate Valid()
      reads this, fifo, fifo.buf, union
    {
      Shape() && Inv(Cfg(), Model())
    }

    // HyAtUtilsCreate
    constructor (catches: seq<Catch>, request: nat, num: nat, ok: bool)
      requires request < SIZE_MOD && request % U32_MOD <= MAX_SIZE && num < 256
      requires forall c :: c in catches ==>
                 && 0 < |c.str| <= FACTOR_LEN && 0 !in c.str && IsReply(c.state)
                 && (c.state == IpdData ==> c.str == IPD_TAG)
      ensures Valid() && Model() == CREATED && fresh(fifo) && fresh(fifo.buf)
      ensures table == catches && cmdNum == num && isCmdOk == ok
    {
      fifo := new HyFifo(request);
      table, cmdNum, isCmdOk := catches, num, ok;
      union, frameSum, offset, state, busy, parsing, cmds, count, tick := null, 0, 0, Idle, 0, false, [], 0, 0;
    }

    // The peek into a cleared buffer of FACTOR_LEN bytes.
    method Look(factor: nat) returns (v: seq<byte>)
      requires Shape() && factor <= FACTOR_LEN
      ensures v == fifo.Contents()[..Min(factor, |fifo.Contents()|)]
    {
      hide HyFifo.Valid, HyFifo.Contents, ValidConfig;
      ShortLength(factor);
      var buf := new byte[FACTOR_LEN](_ => 0);
      var len := fifo.Peek(buf, factor);
      v := buf[..len];
    }

    // HyFifoUpdateOut(offset_len)
    method Update()
      requires Shape()
      modifies this`offset, fifo
      ensures Shape() && Model() == Drop(old(Model()))
    {
      hide ValidConfig, HyFifo.Valid, HyFifo.Contents;
      ShortLength(offset);
      var len := fifo.UpdateOut(offset);
      offset := 0;
    }

    method ScanStep(v: seq<byte>)
      requires Shape() && |v| <= FACTOR_LEN
      modifies this, fifo
      ensures Shape() && union == old(union)
      ensures Model() == ScanTurn(table, old(Model()), v).engine
    {
      hide FirstStart, HyFifo.Valid, HyFifo.Contents;
      var cnt := FindStart(table, v);
      state := if cnt < |v| then ReadHead else Idle;
      offset := cnt;
      Update();
    }

    method HeadStep(v: seq<byte>)
      requires Shape() && 0 < |v| <= FACTOR_LEN
      modifies this, fifo
      ensures Shape() && union == old(union)
      ensures Model() == HeadTurn(table, old(Model()), v).engine
    {
      hide HeadTag;
      HeadTagFinds(table, v);
      var head := FindHead(table, v);
      match head
      case Wait =>
      case Tag(c) =>
        offset := |c.str|;
        state := c.state;
      case NoTag =>
        offset := 1;
        if fifo.Used() == 1 && v[0] == GREATER {
          state := Send;
        } else {
          state := Idle;
          Update();
        }
    }

    // _destroy_cmd_list
    method DestroyCmdList(all: bool)
      requires count == |cmds| % 256
      modifies this`cmds, this`count
      ensures all ==> cmds == [] && count == 0
      ensures !all ==> cmds == old(if cmds == [] then [] else cmds[1..])
      ensures !all ==> count == old(if cmds == [] then count else (count + 255) % 256)
    {
      while cmds != []
        invariant count == |cmds| % 256
        invariant !all ==> cmds == old(cmds)
        decreases |cmds|
      {
        count := (count + 255) % 256;
        cmds := cmds[1..];
        if !all {
          break;
        }
      }
    }

    // _destroy_clean
    method DestroyClean()
      requires Shape() && QueueInv(Cfg(), Model())
      modifies this, fifo, fifo.buf
      ensures Shape() && Model() == Cleaned(old(Model())) && union == null
    {
      hide ValidConfig, HyFifo.Valid, HyFifo.Contents;
      CleanKeepsQueue(Cfg(), Model());
      DestroyCmdList(true);
      fifo.Clean();
      union := null;
      tick, frameSum, offset, state, busy, parsing := 0, 0, 0, Idle, 0, false;
    }

    method FailStep() returns (ret: State)
      requires Shape() && cmds != [] && count == |cmds| % 256
      modifies this, fifo, fifo.buf
      ensures Shape() && union == old(union)
      ensures Model() == FailTurn(old(Model())).engine && ret == FailTurn(old(Model())).ret
      ensures union != null ==> union[..] == old(if union == null then [] else union[..])
    {
      hide ValidConfig, HyFifo.Valid, HyFifo.Contents;
      fifo.Clean();
      ret := state;
      var pos := cmds[0].(retry := (cmds[0].retry + 255) % 256);
      cmds := cmds[0 := pos];
      if pos.retry == 0 {
        ret := Closed;
        DestroyCmdList(false);
      }
      state := Write;
    }

    method CountOff()
      requires Shape() && cmds != [] && count == |cmds| % 256
      modifies this`busy, this`cmds, this`count
      ensures Shape() && Model() == Counted(old(Model()))
    {
      hide ValidConfig, HyFifo.Valid, HyFifo.Contents;
      var pos := cmds[0];
      if busy == 2 || |pos.data| == 0 {
        busy := 0;
      }
      pos := pos.(delCnt := (pos.delCnt + 255) % 256);
      cmds := cmds[0 := pos];
      if pos.delCnt == 0 {
        DestroyCmdList(false);
      }
    }

    method OkStep() returns (ret: State)
      requires Shape() && cmds != [] && count == |cmds| % 256
      modifies this, fifo
      ensures Shape() && union == old(union)
      ensures Model() == OkTurn(old(Model())).engine && ret == OkTurn(old(Model())).ret
    {
      hide ValidConfig, HyFifo.Valid, HyFifo.Contents, Counted;
      CountOff();
      ret := state;
      state := Idle;
      Update();
    }

    // HyBufUnionCreate, and the copy of what is there into it.
    method NewUnion(n: nat, src: seq<byte>) returns (u: array<byte>)
      requires |src| <= n
      ensures fresh(u) && u[..] == Overlay(Zeros(n), 0, src)
    {
      u := new byte[n](_ => 0);
      MemCopy(u, 0, src);
    }

    method SignalStep(v: seq<byte>, least: nat) returns (frames: seq<Frame>)
      requires Shape() && |v| <= FACTOR_LEN
      modifies this, fifo
      ensures Shape() && union == old(union)
      ensures var o := SignalTurn(old(Model()), v, least); Model() == o.engine && frames == o.frames
    {
      hide ValidConfig, HyFifo.Valid, HyFifo.Contents, SignalLen;
      frames := [];
      if |v| < least {
        return;
      }
      var n := GetSignalStr(v);
      if n != 0 {
        var signal := NewUnion(n, v[..n]);
        assert signal[..] == v[..n];
        offset, state := n, Idle;
        frames := [Frame(0, signal[..])];
        Update();
      }
    }

    // _handle_ipd_data where no frame has been begun.
    method NewFrame(v: seq<byte>) returns (frames: seq<Frame>)
      requires Shape() && QueueInv(Cfg(), Model()) && |v| <= FACTOR_LEN
      requires IpdDefined(v) && union == null && frameSum == 0
      modifies this, fifo, fifo.buf
      ensures Shape() && (union == null || fresh(union))
      ensures Model() == NewFrameTurn(old(Model()), v).engine && frames == NewFrameTurn(old(Model()), v).frames
    {
      hide ValidConfig, HyFifo.Valid, HyFifo.Contents, IpdFormatLen, IpdDataLen, QueueInv;
      frames := [];
      var fmt, n := GetIpdDataLen(v);
      if fmt >= 10 || n > 1024 || n == 0 {
        DestroyClean();
        return;
      }
      TakenInView(v);
      frames := StoreFrame(v, fmt, n);
    }

    // The rest of _handle_ipd_data for a new frame.
    method StoreFrame(v: seq<byte>, fmt: nat, n: nat) returns (frames: seq<Frame>)
      requires Shape() && fmt <= |v| <= FACTOR_LEN && 0 < n && union == null && frameSum == 0
      modifies this, fifo
      ensures Shape() && (union == null || fresh(union))
      ensures Model() == StartFrame(old(Model()), v, fmt, n).engine
      ensures frames == StartFrame(old(Model()), v, fmt, n).frames
    {
      hide ValidConfig, HyFifo.Valid, HyFifo.Contents;
      frames := [];
      if n + fmt <= |v| {
        union := NewUnion(n, v[fmt..fmt + n]);
        assert union[..] == v[fmt..fmt + n];
        frames := [Frame(1, union[..])];
        union, offset, frameSum, parsing, state := null, fmt + n, 0, false, Idle;
        assert Model() == old(Model().(state := Idle, offset := fmt + n, frameSum := 0, parsing := false));
      } else {
        union := NewUnion(n, v[fmt..]);
        frameSum, offset, parsing := frameSum + |v| - fmt, |v|, true;
        assert Model() == old(Model()).(union := Some(Overlay(Zeros(n), 0, v[fmt..])), frameSum := |v| - fmt,
                                        parsing := true, offset := |v|);
      }
      hide Drop, Overlay;
      Update();
    }

    // _handle_ipd_data where a frame has been begun.
    method MoreFrame(v: seq<byte>) returns (frames: seq<Frame>)
      requires Shape() && |v| <= FACTOR_LEN && union != null && frameSum + |v| <= union.Length
      modifies this, fifo, union
      ensures Shape() && (union == null || union == old(union))
      ensures Model() == MoreFrameTurn(old(Model()), v).engine && frames == MoreFrameTurn(old(Model()), v).frames
    {
      hide ValidConfig, HyFifo.Valid, HyFifo.Contents;
      frames := [];
      MemCopy(union, frameSum, v);
      assert union[..] == Overlay(old(union[..]), frameSum, v);
      if frameSum + |v| == union.Length {
        frames := [Frame(1, union[..])];
        union, frameSum, offset, parsing, state := null, 0, |v|, false, Idle;
      } else {
        frameSum, offset, parsing := frameSum + |v|, |v|, true;
      }
      Update();
    }

    // The replies that concern neither the queue nor a frame.
    method PlainStep() returns (ret: State)
      requires Shape()
      modifies this, fifo
      ensures Shape() && union == old(union)
      ensures var o := PlainTurn(old(Model())); Model() == o.engine && ret == o.ret
    {
      hide ValidConfig, HyFifo.Valid, HyFifo.Contents;
      ret := Idle;
      var update := true;
      match state {
        case Ready =>
          ret, state := state, Idle;
        case BusyS =>
          state := Read;
        case Closed =>
          ret := Closed;
        case Send =>
          state := WriteData;
        case _ =>
          update := false;
      }
      assert Model() == old(Model()).(state := state);
      if update {
        Update();
      }
    }

    // The switch of _read_handle.
    method Switch(v: seq<byte>) returns (ret: State, frames: seq<Frame>)
      requires Valid() && IsRead(state) && TurnDefined(Model()) && !parsing
      requires v == View(Model()) && v != []
      modifies this, fifo, fifo.buf
      ensures Shape() && (union == null || fresh(union))
      ensures var o := SwitchTurn(Cfg(), old(Model()), v); Model() == o.engine && ret == o.ret && frames == o.frames
    {
      hide ValidConfig, HyFifo.Valid, HyFifo.Contents, TagAtFront, QueueInv, Framed, TurnDefined;
      hide FailTurn, OkTurn, ScanTurn, HeadTurn, NewFrameTurn, PlainTurn, SignalTurn;
      SwitchFacts(Cfg(), Model());
      SwitchReports(Cfg(), Model(), v);
      ret, frames := Idle, [];
      if state == Read {
        ScanStep(v);
      } else if state == ReadHead {
        HeadStep(v);
      } else if state == Error || state == Faild {
        ret := FailStep();
      } else if state == Ok || state == ConnectOk {
        ret := OkStep();
      } else if state == IpdData {
        frames := NewFrame(v);
      } else if state == SignalCsq {
        frames := SignalStep(v, CSQ_MIN);
      } else if state == SignalCwjap {
        frames := SignalStep(v, CWJAP_MIN);
      } else {
        ret := PlainStep();
      }
    }

    // One round of the loop in _read_handle; more says whether the loop condition was reached.
    method ReadRound() returns (ret: State, frames: seq<Frame>, more: bool)
      requires Valid() && IsRead(state) && TurnDefined(Model())
      modifies this, fifo, fifo.buf, union
      ensures Shape() && (union == null || union == old(union) || fresh(union))
      ensures var o := ReadTurn(Cfg(), old(Model())); Model() == o.engine && ret == o.ret && frames == o.frames
      ensures more <==> View(old(Model())) != []
    {
      assert Framed(Model());
      hide ValidConfig, HyFifo.Valid, HyFifo.Contents, Inv, SwitchTurn, MoreFrameTurn, TurnDefined;
      ret, frames, more := Idle, [], true;
      var factor := if union == null then FACTOR_LEN else Min(union.Length - frameSum, FACTOR_LEN);
      var v := Look(factor);
      assert v == View(Model());
      if v == [] {
        state := Idle;
        more := false;
      } else if parsing {
        state := IpdData;
        frames := MoreFrame(v);
      } else {
        ret, frames := Switch(v);
      }
    }

    // _read_handle
    method ReadHandle() returns (ret: State, frames: seq<Frame>)
      requires Valid() && IsRead(state) && TurnDefined(Model())
      modifies this, fifo, fifo.buf, union
      ensures Valid() && (union == null || union == old(union) || fresh(union))
      ensures Outcome(Model(), ret, frames, []) == AtEngine.ReadHandle(Cfg(), old(Model()))
    {
      hide ValidConfig, HyFifo.Valid, HyFifo.Contents, TagAtFront, QueueInv, ReadTurn, TurnDefined, View, Remains;
      hide AtEngine.ReadHandle;
      ret, frames := Idle, [];
      var more := true;
      ghost var total := AtEngine.ReadHandle(Cfg(), Model());
      LoopStarts(Cfg(), Model());
      while more
        invariant Valid() && (union == null || union == old(union) || fresh(union))
        invariant more ==> IsRead(state) && TurnDefined(Model())
        invariant Remains(Cfg(), total, Model(), ret, frames, more)
        decreases more, |Model().fifo|
      {
        ParsingGoesOn(Cfg(), Model());
        LoopGoesOn(Cfg(), total, Model(), ret, frames);
        var r, f, again := ReadRound();
        ret := if r != Idle then r else ret;
        frames := frames + f;
        more := again && parsing;
      }
      assert Outcome(Model(), ret, frames, []) == total by {
        LoopEnds(Cfg(), total, Model(), ret, frames);
      }
    }

    // _write_handle
    method WriteHandle(now: nat) returns (writes: seq<seq<byte>>)
      requires Shape() && ((state == WriteCmd || state == WriteData) ==> cmds != [])
      modifies this`state, this`tick, this`busy
      ensures Shape()
      ensures var o := WriteTurn(old(Model()), now); Model() == o.engine && writes == o.writes
    {
      hide ValidConfig, HyFifo.Valid, HyFifo.Contents;
      writes := [];
      match state {
        case Write =>
          state := WriteCmd;
        case WriteCmd =>
          writes := [cmds[0].text];
          tick := now;
          state := WriteCmdWait;
          busy := 1;
        case WriteCmdWait =>
          if (now - tick) % U32_MOD > 10 {
            state := Read;
          }
        case WriteData =>
          writes := [cmds[0].data];
          tick := now;
          busy := 2;
          state := Read;
        case _ =>
      }
      assert Model() == old(Model()).(state := state, tick := tick, busy := busy);
    }

    // The idle case of HyAtUtilsProcess
    method IdleHandle(now: nat) returns (ret: State)
      requires Shape()
      modifies this`state, this`tick, this`busy, this`cmds
      ensures Shape()
      ensures Model() == IdleTurn(old(Model()), now).engine && ret == IdleTurn(old(Model()), now).ret
    {
      hide ValidConfig, HyFifo.Contents, Add;
      ret := Idle;
      if fifo.Used() > 0 {
        state := Read;
      } else if cmds != [] {
        var pos := cmds[0];
        if (now - tick) % U32_MOD > pos.waitTime {
          tick := now;
          busy := 0;
          pos := pos.(retry := (pos.retry + 255) % 256);
          cmds := cmds[0 := pos];
          if pos.retry == 0 {
            ret := Closed;
            return;
          }
        }
        if busy == 0 {
          state := Write;
        }
      }
    }

    // HyAtUtilsProcess
    method Process(now: nat) returns (ret: State, frames: seq<Frame>, writes: seq<seq<byte>>)
      requires Valid() && TurnDefined(Model())
      modifies this, fifo, fifo.buf, union
      ensures Valid() && (union == null || union == old(union) || fresh(union))
      ensures Outcome(Model(), ret, frames, writes) == AtEngine.Process(Cfg(), old(Model()), now)
    {
      TurnKeepsInv(Cfg(), Model(), now);
      if state == WriteCmd || state == WriteData {
        SendingFinds(Model());
      }
      OtherWrites(Cfg(), Model(), now);
      hide ValidConfig, HyFifo.Valid, HyFifo.Contents, Inv, TurnDefined, WriteTurn, IdleTurn, AtEngine.ReadHandle;
      ret, frames, writes := Idle, [], [];
      if state == Idle {
        ret := IdleHandle(now);
      } else if IsRead(state) {
        ret, frames := ReadHandle();
      } else {
        writes := WriteHandle(now);
      }
    }

    // HyAtUtilsWriteCmd
    method WriteCommand(text: seq<byte>, data: seq<byte>, waitTime: nat, retry: nat) returns (ok: bool)
      requires Valid() && retry < 256
      modifies this`cmds, this`count
      ensures Valid() && ok == !Refuses(Cfg(), old(Model()))
      ensures Model() == Issue(Cfg(), old(Model()), text, data, waitTime, retry)
    {
      hide ValidConfig, HyFifo.Valid, HyFifo.Contents, TagAtFront, QueueInv, Framed;
      IssueKeepsInv(Cfg(), Model(), text, data, waitTime, retry);
      if cmdNum != 0 && count >= cmdNum {
        return false;
      }
      var delCnt := 1;
      if data != [] && isCmdOk {
        delCnt := delCnt + 1;
      }
      cmds, count := cmds + [Cmd(text, data, waitTime, retry, delCnt)], (count + 1) % 256;
      return true;
    }

    // HyAtUtilsPutData
    method PutData(bytes: seq<byte>) returns (len: nat)
      requires Valid() && |bytes| < SIZE_MOD
      modifies fifo, fifo.buf
      ensures Valid() && len == Min(|bytes|, fifo.size - |old(Model()).fifo|)
      ensures Model() == AtSpec.PutData(Cfg(), old(Model()), bytes)
    {
      PutKeepsInv(Cfg(), Model(), bytes);
      hide ValidConfig, HyFifo.Valid, HyFifo.Contents, Inv;
      len := fifo.Put(bytes);
    }

    // HyAtUtilsClean
    method Clean()
      requires Valid()
      modifies this, fifo, fifo.buf
      ensures Valid() && Model() == Cleaned(old(Model()))
    {
      CleanKeepsInv(Cfg(), Model());
      hide ValidConfig, HyFifo.Valid, HyFifo.Contents, TagAtFront;
      DestroyClean();
    }
  }
}
