// The command queue of the AT engine, and the invariant that every turn keeps.
module AtQueue {
  import opened Basics
  import opened AtSpec
  import opened AtTags
  import opened AtFrames

  // The replies that count a command off, and those that make it be sent again.
  predicate Confirms(e: Engine)
    requires Framed(e)
  {
    !e.parsing && View(e) != [] && (e.state == Ok || e.state == ConnectOk)
  }

  predicate Fails(e: Engine)
    requires Framed(e)
  {
    !e.parsing && View(e) != [] && (e.state == Error || e.state == Faild)
  }

  // A header that is refused resets the engine and empties the queue.
  predicate Resets(e: Engine)
    requires Framed(e)
  {
    !e.parsing && View(e) != [] && e.state == IpdData && IpdRefused(View(e))
  }

  function Texts(cmds: seq<Cmd>): (t: seq<(seq<byte>, seq<byte>)>)
    ensures |t| == |cmds| && forall i :: 0 <= i < |cmds| ==> t[i] == (cmds[i].text, cmds[i].data)
  {
    seq(|cmds|, i requires 0 <= i < |cmds| => (cmds[i].text, cmds[i].data))
  }

  // How many commands a turn takes from the front of the queue.
  function Finished(e: Engine): nat
    requires Framed(e)
  {
    if Resets(e) then |e.cmds|
    else if e.cmds != [] && ((Confirms(e) && e.cmds[0].delCnt == 1) || (Fails(e) && e.cmds[0].retry == 1)) then 1
    else 0
  }

  // The queue is at its time limit: the head loses a try.
  predicate TimesOut(e: Engine, now: nat) {
    e.state == Idle && e.fifo == [] && e.cmds != [] && Since(e, now) > e.cmds[0].waitTime
  }

  predicate SameQueue(e: Engine, f: Engine) {
    f.cmds == e.cmds && f.count == e.count
  }

  lemma ReadTurnsLeaveQueue(cfg: Config, e: Engine)
    requires ValidConfig(cfg) && Framed(e) && TurnDefined(e) && IsRead(e.state)
    requires !Confirms(e) && !Fails(e) && !Resets(e)
    ensures SameQueue(e, ReadTurn(cfg, e).engine)
  {
    hide IpdRefused, IpdDataLen, IpdFormatLen, HeadTag, FirstStart, SignalLen, Overlay, View;
    hide ValidConfig, Starts, CString, Field;
  }

  lemma OthersLeaveQueue(cfg: Config, e: Engine, now: nat)
    requires ValidConfig(cfg) && Framed(e) && TurnDefined(e)
    requires !Confirms(e) && !Fails(e) && !Resets(e) && !TimesOut(e, now)
    ensures SameQueue(e, Turn(cfg, e, now).engine)
  {
    if IsRead(e.state) {
      ReadTurnsLeaveQueue(cfg, e);
    } else {
      hide Since, ValidConfig;
    }
  }

  lemma FailedQueue(e: Engine)
    requires e.cmds != [] && e.cmds[0].retry < 256
    ensures Texts(FailTurn(e).engine.cmds) == Texts(e.cmds)[if e.cmds[0].retry == 1 then 1 else 0..]
  {
    TextsKept(e.cmds, e.cmds[0].(retry := (e.cmds[0].retry + 255) % 256));
    hide Texts;
  }

  // A command whose counters have changed has the same text and data.
  lemma TextsKept(cmds: seq<Cmd>, c: Cmd)
    requires cmds != [] && c.text == cmds[0].text && c.data == cmds[0].data
    ensures Texts(cmds[0 := c]) == Texts(cmds) == Texts(cmds)[0..] && Texts(cmds[0 := c][1..]) == Texts(cmds)[1..]
  {
  }

  lemma ConfirmedQueue(e: Engine)
    requires e.cmds != [] && e.cmds[0].delCnt < 256
    ensures Texts(OkTurn(e).engine.cmds) == Texts(e.cmds)[if e.cmds[0].delCnt == 1 then 1 else 0..]
  {
    TextsKept(e.cmds, e.cmds[0].(delCnt := (e.cmds[0].delCnt + 255) % 256));
    hide Texts;
  }

  lemma ResetQueue(e: Engine)
    requires Framed(e) && e.union.None? && IpdRefused(View(e)) && IpdDefined(View(e))
    ensures NewFrameTurn(e, View(e)).engine == Cleaned(e)
    ensures Texts(NewFrameTurn(e, View(e)).engine.cmds) == Texts(e.cmds)[|e.cmds|..]
  {
  }

  lemma TimedOutQueue(e: Engine, now: nat)
    requires TimesOut(e, now)
    ensures Texts(IdleTurn(e, now).engine.cmds) == Texts(e.cmds)
  {
  }

  // A command leaves the queue on the last reply that counts for it, when its last try fails, or
  // with a reset, and in no other turn; the commands stay in the order they came in.
  lemma QueueShrinksExactly(cfg: Config, e: Engine, now: nat)
    requires Inv(cfg, e) && TurnDefined(e)
    ensures Texts(Turn(cfg, e, now).engine.cmds) == Texts(e.cmds)[Finished(e)..]
  {
    hide TagAtFront, FailTurn, OkTurn, NewFrameTurn, Texts;
    if Confirms(e) {
      ConfirmedQueue(e);
    } else if Fails(e) {
      FailedQueue(e);
    } else if Resets(e) {
      ResetQueue(e);
    } else if TimesOut(e, now) {
      TimedOutQueue(e, now);
    } else {
      OthersLeaveQueue(cfg, e, now);
    }
  }

  lemma DropKeepsQueue(cfg: Config, e: Engine)
    requires QueueInv(cfg, e)
    ensures QueueInv(cfg, DropFirst(e))
  {
    if e.cmds != [] {
      CountDown(|e.cmds|);
    }
  }

  lemma CountDown(n: nat)
    requires n > 0
    ensures (n % 256 + 255) % 256 == (n - 1) % 256
  {
  }

  lemma CleanKeepsQueue(cfg: Config, e: Engine)
    requires QueueInv(cfg, e)
    ensures QueueInv(cfg, Cleaned(e)) && Cleaned(e).count == 0
  {
  }

  lemma FailKeepsQueue(cfg: Config, e: Engine)
    requires QueueInv(cfg, e) && e.cmds != []
    ensures QueueInv(cfg, FailTurn(e).engine)
  {
    var f := e.(cmds := e.cmds[0 := e.cmds[0].(retry := (e.cmds[0].retry + 255) % 256)]);
    assert QueueInv(cfg, f);
    DropKeepsQueue(cfg, f);
  }

  lemma OkKeepsQueue(cfg: Config, e: Engine)
    requires QueueInv(cfg, e) && e.cmds != []
    ensures QueueInv(cfg, OkTurn(e).engine)
  {
    assert 1 <= e.cmds[0].delCnt <= 2;
    var f := e.(cmds := e.cmds[0 := e.cmds[0].(delCnt := (e.cmds[0].delCnt + 255) % 256)]);
    if e.cmds[0].delCnt == 2 {
      assert QueueInv(cfg, f);
    } else {
      assert f.cmds[1..] == e.cmds[1..];
      DropKeepsQueue(cfg, e);
    }
    hide QueueInv;
    SameKeepsQueue(cfg, if e.cmds[0].delCnt == 2 then f else DropFirst(e), OkTurn(e).engine);
  }

  lemma TimeOutKeepsQueue(cfg: Config, e: Engine, now: nat)
    requires QueueInv(cfg, e) && TimesOut(e, now)
    ensures QueueInv(cfg, IdleTurn(e, now).engine)
  {
  }

  lemma TurnKeepsQueue(cfg: Config, e: Engine, now: nat)
    requires Inv(cfg, e) && TurnDefined(e)
    ensures QueueInv(cfg, Turn(cfg, e, now).engine)
  {
    hide TagAtFront, QueueInv, FailTurn, OkTurn, NewFrameTurn, IdleTurn;
    if Confirms(e) {
      OkKeepsQueue(cfg, e);
    } else if Fails(e) {
      FailKeepsQueue(cfg, e);
    } else if Resets(e) {
      ResetQueue(e);
      CleanKeepsQueue(cfg, e);
    } else if TimesOut(e, now) {
      TimeOutKeepsQueue(cfg, e, now);
    } else {
      OthersLeaveQueue(cfg, e, now);
      SameKeepsQueue(cfg, e, Turn(cfg, e, now).engine);
    }
  }

  lemma SameKeepsQueue(cfg: Config, e: Engine, f: Engine)
    requires QueueInv(cfg, e) && SameQueue(e, f)
    ensures QueueInv(cfg, f)
  {
  }

  lemma ScanKeepsTag(cfg: Config, e: Engine, v: seq<byte>)
    requires ValidConfig(cfg) && v <= e.fifo
    ensures TagAtFront(cfg.table, ScanTurn(cfg.table, e, v).engine)
  {
  }

  lemma HeadKeepsTag(cfg: Config, e: Engine, v: seq<byte>)
    requires ValidConfig(cfg) && v <= e.fifo && 0 < |v| <= FACTOR_LEN && e.state == ReadHead
    requires TagAtFront(cfg.table, e)
    ensures TagAtFront(cfg.table, HeadTurn(cfg.table, e, v).engine)
  {
    HeadTagFinds(cfg.table, v);
    hide HeadTag;
    match HeadTag(cfg.table, v)
    case Tag(c) => assert c.str <= e.fifo;
    case _ =>
  }

  lemma PlainKeepsTag(cfg: Config, e: Engine)
    requires Inv(cfg, e) && TurnDefined(e) && IsRead(e.state) && !e.parsing
    requires e.state !in {Read, ReadHead, SignalCsq, SignalCwjap, IpdData}
    ensures TagAtFront(cfg.table, ReadTurn(cfg, e).engine)
  {
    if View(e) == [] {
      NothingToRead(cfg, e);
    } else {
      TurnReads(cfg, e, 0);
      hide QueueInv, ValidConfig, View, Turn, ReadTurn, HasTag, Starts;
      hide FailTurn, OkTurn, PlainTurn;
      if e.state == Error || e.state == Faild || e.state == Ok || e.state == ConnectOk {
        AnswerLeaves(e);
      } else {
        PlainLeaves(cfg.table, e);
      }
    }
  }

  lemma AnswerLeaves(e: Engine)
    requires e.cmds != []
    ensures FailTurn(e).engine.state == Write && OkTurn(e).engine.state == Idle
  {
  }

  lemma PlainLeaves(table: seq<Catch>, e: Engine)
    requires !e.parsing && TagAtFront(table, e)
    ensures TagAtFront(table, PlainTurn(e).engine)
  {
    hide Starts;
  }

  lemma SignalKeepsTag(table: seq<Catch>, e: Engine, v: seq<byte>, least: nat)
    requires e.state != ReadHead && TagAtFront(table, e)
    ensures TagAtFront(table, SignalTurn(e, v, least).engine)
  {
    hide Starts, SignalLen, HasTag;
  }

  lemma NewFrameKeepsTag(table: seq<Catch>, e: Engine, v: seq<byte>)
    requires e.state == IpdData && e.union.None? && e.frameSum == 0 && IpdDefined(v)
    ensures TagAtFront(table, NewFrameTurn(e, v).engine)
  {
    hide Starts, HasTag, Overlay, IpdRefused, IpdDataLen, IpdFormatLen;
  }

  lemma MoreFrameKeepsTag(table: seq<Catch>, e: Engine, v: seq<byte>)
    requires e.state == IpdData && e.union.Some? && e.frameSum + |v| <= |e.union.value|
    ensures TagAtFront(table, MoreFrameTurn(e, v).engine)
  {
    hide Starts, HasTag, Overlay;
  }

  lemma FrameKeepsTag(cfg: Config, e: Engine)
    requires Inv(cfg, e) && TurnDefined(e) && IsRead(e.state)
    requires e.parsing || e.state in {SignalCsq, SignalCwjap, IpdData}
    ensures TagAtFront(cfg.table, ReadTurn(cfg, e).engine)
  {
    hide TagAtFront, QueueInv, ValidConfig, IpdDefined, SignalDefined, MoreFrameTurn, NewFrameTurn, SignalTurn;
    var v := View(e);
    if v == [] {
      NothingToRead(cfg, e);
    } else if e.parsing {
      MoreFrameKeepsTag(cfg.table, e.(state := IpdData), v);
    } else {
      TurnReads(cfg, e, 0);
      hide Turn, ReadTurn, View;
      if e.state == IpdData {
        NewFrameKeepsTag(cfg.table, e, v);
      } else {
        SignalKeepsTag(cfg.table, e, v, if e.state == SignalCsq then CSQ_MIN else CWJAP_MIN);
      }
    }
  }

  lemma TurnKeepsTag(cfg: Config, e: Engine, now: nat)
    requires Inv(cfg, e) && TurnDefined(e)
    ensures TagAtFront(cfg.table, Turn(cfg, e, now).engine)
  {
    if !IsRead(e.state) {
      OtherTurnsKeepTag(cfg, e, now);
    } else {
      TurnReads(cfg, e, now);
      hide TagAtFront, QueueInv, ValidConfig, ScanTurn, HeadTurn, Turn, ReadTurn;
      if e.parsing || e.state in {SignalCsq, SignalCwjap, IpdData} {
        FrameKeepsTag(cfg, e);
      } else if View(e) != [] && e.state == Read {
        ScanKeepsTag(cfg, e, View(e));
      } else if View(e) != [] && e.state == ReadHead {
        HeadKeepsTag(cfg, e, View(e));
      } else if View(e) != [] {
        PlainKeepsTag(cfg, e);
      } else {
        NothingToRead(cfg, e);
      }
    }
  }

  lemma OtherTurnsKeepTag(cfg: Config, e: Engine, now: nat)
    requires ValidConfig(cfg) && Framed(e) && TurnDefined(e) && !IsRead(e.state)
    ensures TagAtFront(cfg.table, Turn(cfg, e, now).engine)
  {
    hide Starts, ValidConfig, HasTag, Since;
  }

  lemma NothingToRead(cfg: Config, e: Engine)
    requires Inv(cfg, e) && TurnDefined(e) && IsRead(e.state) && View(e) == []
    ensures TagAtFront(cfg.table, ReadTurn(cfg, e).engine)
  {
    hide QueueInv, Starts;
  }

  lemma HeadKeepsOffset(cfg: Config, e: Engine, v: seq<byte>)
    requires ValidConfig(cfg) && e.offset <= FACTOR_LEN && 0 < |v| <= FACTOR_LEN
    ensures HeadTurn(cfg.table, e, v).engine.offset <= FACTOR_LEN
  {
    HeadTagFinds(cfg.table, v);
    hide HeadTag;
  }

  lemma ReadKeepsOffset(cfg: Config, e: Engine)
    requires Inv(cfg, e) && TurnDefined(e) && IsRead(e.state)
    ensures ReadTurn(cfg, e).engine.offset <= FACTOR_LEN
  {
    hide QueueInv, TagAtFront, HeadTurn, View, TurnDefined, ValidConfig;
    if !e.parsing && View(e) != [] && e.state == ReadHead {
      HeadKeepsOffset(cfg, e, View(e));
    } else {
      hide SignalLen, FirstStart, Overlay, Starts, Field, CString, HeadTag;
    }
  }

  lemma TurnKeepsOffset(cfg: Config, e: Engine, now: nat)
    requires Inv(cfg, e) && TurnDefined(e)
    ensures Turn(cfg, e, now).engine.offset <= FACTOR_LEN
  {
    if IsRead(e.state) {
      ReadKeepsOffset(cfg, e);
    } else {
      hide QueueInv, TagAtFront, ValidConfig, Since;
    }
  }

  // Every turn keeps the invariant.
  lemma TurnKeepsInv(cfg: Config, e: Engine, now: nat)
    requires Inv(cfg, e) && TurnDefined(e)
    ensures Inv(cfg, Turn(cfg, e, now).engine)
  {
    TurnKeepsQueue(cfg, e, now);
    TurnKeepsTag(cfg, e, now);
    TurnKeepsOffset(cfg, e, now);
    TurnEffect(cfg, e, now);
    hide Turn, TagAtFront, QueueInv, NoFrame, Begins, Grows, Finishes, Whole, Signals;
  }

  lemma PutKeepsInv(cfg: Config, e: Engine, data: seq<byte>)
    requires Inv(cfg, e)
    ensures Inv(cfg, PutData(cfg, e, data))
  {
    var f := PutData(cfg, e, data);
    if !e.parsing && IsReply(e.state) {
      if c :| c in cfg.table && c.state == e.state && c.str <= e.fifo && e.offset == |c.str| {
        assert c.str <= f.fifo;
      }
    }
  }

  lemma IssueKeepsInv(cfg: Config, e: Engine, text: seq<byte>, data: seq<byte>, waitTime: nat, retry: nat)
    requires Inv(cfg, e) && retry < 256
    ensures Inv(cfg, Issue(cfg, e, text, data, waitTime, retry))
  {
    hide Starts;
    var f := Issue(cfg, e, text, data, waitTime, retry);
    assert HasTag(cfg.table, e) ==> HasTag(cfg.table, f);
  }

  lemma CleanKeepsInv(cfg: Config, e: Engine)
    requires Inv(cfg, e)
    ensures Inv(cfg, Cleaned(e))
  {
    CleanKeepsQueue(cfg, e);
  }

  // After a failure reply the next two turns reach the point of sending a command, and there is
  // one to send exactly if it was not the only command's last try.
  lemma ResendsExactly(cfg: Config, e: Engine, now: nat)
    requires Inv(cfg, e) && TurnDefined(e) && Fails(e)
    ensures var f := Turn(cfg, e, now).engine;
            && Framed(f) && TurnDefined(f)
            && var g := Turn(cfg, f, now).engine;
               g.state == WriteCmd && Framed(g) && (TurnDefined(g) <==> !(|e.cmds| == 1 && e.cmds[0].retry == 1))
  {
    assert e.cmds[0].retry < 256;
    TurnReads(cfg, e, now);
    var f := FailTurn(e).engine;
    assert Turn(cfg, e, now).engine == f by {
      hide Inv, View, FailTurn, Turn, ReadTurn;
    }
    hide Inv, View, Fails, ReadTurn, SwitchTurn;
    FailedIsSent(cfg, e, now);
  }

  lemma FailedIsSent(cfg: Config, e: Engine, now: nat)
    requires ValidConfig(cfg) && Framed(e) && e.cmds != [] && e.cmds[0].retry < 256
    ensures var f := FailTurn(e).engine;
            && Framed(f) && TurnDefined(f)
            && var g := Turn(cfg, f, now).engine;
               g.state == WriteCmd && Framed(g) && (TurnDefined(g) <==> !(|e.cmds| == 1 && e.cmds[0].retry == 1))
  {
    var f := FailTurn(e).engine;
    assert f.state == Write && f.union == e.union && f.frameSum == e.frameSum && f.parsing == e.parsing;
    assert f.cmds == [] <==> |e.cmds| == 1 && e.cmds[0].retry == 1;
    hide FailTurn, ValidConfig, Turn, TurnDefined;
    WriteGoesOn(cfg, f, now);
  }

  lemma WriteGoesOn(cfg: Config, f: Engine, now: nat)
    requires ValidConfig(cfg) && Framed(f) && f.state == Write
    ensures TurnDefined(f) && Turn(cfg, f, now) == Quiet(f.(state := WriteCmd))
    ensures TurnDefined(f.(state := WriteCmd)) <==> f.cmds != []
  {
    hide ValidConfig, View;
  }
}
