// What a turn of the AT engine takes out of the FIFO, and what becomes of it.
module AtFrames {
  import opened Basics
  import opened AtSpec
  import opened AtHeader
  import opened AtTags

  // ---- The effects a turn can have ------------------------------------------------------------

  function Taken(e: Engine, f: Engine): seq<byte> {
    if |f.fifo| <= |e.fifo| then e.fifo[..|e.fifo| - |f.fifo|] else []
  }

  // Bytes leave the FIFO at its front only.
  ghost predicate TakesFront(e: Engine, f: Engine) {
    e.fifo == Taken(e, f) + f.fifo
  }

  ghost predicate NoFrame(e: Engine, o: Outcome) {
    && o.frames == [] && o.engine.union == e.union && o.engine.frameSum == e.frameSum
    && (e.union.Some? ==> Taken(e, o.engine) == [])
  }

  // t is a header of h bytes that announces n bytes, and then p.
  ghost predicate Split(t: seq<byte>, h: nat, n: nat, p: seq<byte>) {
    h <= |t| && IsHeader(t[..h], n) && t[h..] == p
  }

  // A header and the bytes behind it, up to all but one of the frame.
  ghost predicate Begins(e: Engine, o: Outcome) {
    && o.frames == [] && e.union.None? && o.engine.union.Some?
    && o.engine.frameSum < |o.engine.union.value|
    && exists h: nat ::
         Split(Taken(e, o.engine), h, |o.engine.union.value|, o.engine.union.value[..o.engine.frameSum])
  }

  ghost predicate Grows(e: Engine, o: Outcome) {
    && o.frames == [] && e.union.Some? && o.engine.union.Some?
    && |o.engine.union.value| == |e.union.value|
    && e.frameSum <= o.engine.frameSum < |e.union.value|
    && o.engine.union.value[..o.engine.frameSum] == e.union.value[..e.frameSum] + Taken(e, o.engine)
  }

  ghost predicate Finishes(e: Engine, o: Outcome) {
    && e.union.Some? && o.engine.union.None? && e.frameSum < |e.union.value|
    && o.frames == [Frame(1, e.union.value[..e.frameSum] + Taken(e, o.engine))]
    && e.frameSum + |Taken(e, o.engine)| == |e.union.value|
  }

  ghost predicate Whole(e: Engine, o: Outcome) {
    && e.union.None? && o.engine.union.None?
    && |o.frames| == 1 && o.frames[0].kind == 1
    && exists h: nat :: Split(Taken(e, o.engine), h, |o.frames[0].payload|, o.frames[0].payload)
  }

  ghost predicate Signals(e: Engine, o: Outcome) {
    && e.union.None? && o.engine.union.None?
    && o.frames == [Frame(0, Taken(e, o.engine))] && OK_TEXT <= o.engine.fifo
  }

  ghost predicate Effect(e: Engine, o: Outcome) {
    && Framed(o.engine) && TakesFront(e, o.engine)
    && (NoFrame(e, o) || Begins(e, o) || Grows(e, o) || Finishes(e, o) || Whole(e, o) || Signals(e, o))
  }

  lemma TakesPrefix(e: Engine, f: Engine, v: seq<byte>, m: nat)
    requires v <= e.fifo && m <= |v| && f.fifo == e.fifo[m..]
    ensures TakesFront(e, f) && Taken(e, f) == v[..m]
  {
  }

  lemma WholeEffect(e: Engine, v: seq<byte>, fmt: nat, n: nat)
    requires Framed(e) && e.union.None? && v <= e.fifo && fmt + n <= |v| && IsHeader(v[..fmt], n)
    ensures Effect(e, Outcome(Drop(e.(state := Idle, offset := fmt + n, frameSum := 0, parsing := false)), Idle,
                              [Frame(1, v[fmt..fmt + n])], []))
  {
    hide IsHeader, TakesFront, Taken;
    var o := Outcome(Drop(e.(state := Idle, offset := fmt + n, frameSum := 0, parsing := false)), Idle,
                     [Frame(1, v[fmt..fmt + n])], []);
    TakesPrefix(e, o.engine, v, fmt + n);
    hide Drop;
    var t := Taken(e, o.engine);
    assert t[..fmt] == v[..fmt] && t[fmt..] == v[fmt..fmt + n];
    assert Split(t, fmt, |o.frames[0].payload|, o.frames[0].payload);
    assert Whole(e, o);
  }

  lemma BeginEffect(e: Engine, v: seq<byte>, fmt: nat, n: nat)
    requires Framed(e) && e.union.None? && v <= e.fifo && fmt <= |v| < fmt + n && IsHeader(v[..fmt], n)
    ensures Effect(e, Quiet(Drop(e.(union := Some(Overlay(Zeros(n), 0, v[fmt..])), frameSum := |v| - fmt,
                                    parsing := true, offset := |v|))))
  {
    hide IsHeader, TakesFront, Taken;
    var o := Quiet(Drop(e.(union := Some(Overlay(Zeros(n), 0, v[fmt..])), frameSum := |v| - fmt,
                           parsing := true, offset := |v|)));
    TakesPrefix(e, o.engine, v, |v|);
    hide Drop;
    var t := Taken(e, o.engine);
    assert t == v && t[..fmt] == v[..fmt];
    assert o.engine.union.value[..|v| - fmt] == v[fmt..];
    assert Split(t, fmt, n, o.engine.union.value[..o.engine.frameSum]);
    assert Begins(e, o);
  }

  lemma NewFrameEffect(e: Engine, v: seq<byte>)
    requires Framed(e) && e.union.None? && v <= e.fifo && IPD_TAG <= e.fifo && IpdDefined(v)
    ensures Effect(e, NewFrameTurn(e, v))
  {
    hide IsHeader, Begins, Grows, Finishes, Whole, Signals, Value, Field;
    if IpdRefused(v) {
      assert NoFrame(e, NewFrameTurn(e, v));
    } else {
      assert IPD_TAG <= v;
      HeaderParsed(v);
      hide Effect, Drop, IpdFormatLen, IpdDataLen, IpdRefused;
      var fmt, n := IpdFormatLen(v), IpdDataLen(v);
      if n + fmt <= |v| {
        WholeEffect(e, v, fmt, n);
      } else {
        BeginEffect(e, v, fmt, n);
      }
    }
  }

  lemma MoreFrameEffect(e: Engine, v: seq<byte>)
    requires Framed(e) && e.union.Some? && v <= e.fifo && v != [] && e.frameSum + |v| <= |e.union.value|
    ensures Effect(e, MoreFrameTurn(e.(state := IpdData), v))
  {
    var o := MoreFrameTurn(e.(state := IpdData), v);
    assert Taken(e, o.engine) == v;
    var u := Overlay(e.union.value, e.frameSum, v);
    if e.frameSum + |v| == |u| {
      assert u == u[..|u|] == e.union.value[..e.frameSum] + v;
      assert Finishes(e, o);
    } else {
      assert Grows(e, o);
    }
  }

  lemma SignalEffect(e: Engine, v: seq<byte>, least: nat)
    requires Framed(e) && e.union.None? && v <= e.fifo
    ensures Effect(e, SignalTurn(e, v, least))
  {
    var o, n := SignalTurn(e, v, least), SignalLen(v);
    if |v| >= least && n != 0 {
      assert Taken(e, o.engine) == v[..n];
      var c := CString(v);
      assert OK_TEXT <= c[n..];
      assert c[n..][..2] == v[n..n + 2] == e.fifo[n..][..2];
      assert Signals(e, o);
    }
  }

  lemma DropEffect(e: Engine, f: Engine, ret: State)
    requires Framed(e) && e.union.None? && f.fifo == e.fifo
    requires f.union == e.union && f.frameSum == e.frameSum && f.parsing == e.parsing
    ensures Effect(e, Outcome(Drop(f), ret, [], [])) && Effect(e, Outcome(f, ret, [], []))
  {
    hide Begins, Grows, Finishes, Whole, Signals;
    assert NoFrame(e, Outcome(Drop(f), ret, [], []));
    assert NoFrame(e, Outcome(f, ret, [], []));
  }

  lemma TagOfIpd(cfg: Config, e: Engine)
    requires Inv(cfg, e) && e.state == IpdData && !e.parsing
    ensures IPD_TAG <= e.fifo
  {
  }

  lemma EmptyEffect(e: Engine)
    requires Framed(e)
    ensures Effect(e, Quiet(e.(state := Idle)))
  {
    hide Begins, Grows, Finishes, Whole, Signals;
    assert NoFrame(e, Quiet(e.(state := Idle)));
  }

  // Every turn has one of the six effects.
  lemma ReadEffect(cfg: Config, e: Engine)
    requires Inv(cfg, e) && TurnDefined(e) && IsRead(e.state)
    ensures Effect(e, ReadTurn(cfg, e))
  {
    hide Effect, NewFrameTurn, MoreFrameTurn, SignalTurn;
    var v := View(e);
    if v == [] {
      EmptyEffect(e);
    } else if e.parsing {
      MoreFrameEffect(e, v);
    } else if e.state == IpdData {
      TagOfIpd(cfg, e);
      NewFrameEffect(e, v);
    } else if e.state == SignalCsq {
      SignalEffect(e, v, CSQ_MIN);
    } else if e.state == SignalCwjap {
      SignalEffect(e, v, CWJAP_MIN);
    } else {
      PlainEffect(cfg, e);
    }
  }

  // The turns that neither begin nor go on with a frame.
  lemma PlainEffect(cfg: Config, e: Engine)
    requires Inv(cfg, e) && TurnDefined(e) && IsRead(e.state) && !e.parsing && View(e) != []
    requires e.state !in {IpdData, SignalCsq, SignalCwjap}
    ensures Effect(e, ReadTurn(cfg, e))
  {
    hide Effect, Drop;
    var v, o := View(e), ReadTurn(cfg, e);
    match e.state
    case Read =>
      var k := FirstStart(cfg.table, v);
      DropEffect(e, e.(state := if k < |v| then ReadHead else Idle, offset := k), Idle);
    case ReadHead =>
      match HeadTag(cfg.table, v) {
        case Wait => DropEffect(e, e, Idle);
        case Tag(c) => DropEffect(e, e.(state := c.state, offset := |c.str|), Idle);
        case NoTag =>
          DropEffect(e, e.(state := Send, offset := 1), Idle);
          DropEffect(e, e.(state := Idle, offset := 1), Idle);
      }
    case Ready => DropEffect(e, e.(state := Idle), Ready);
    case BusyS => DropEffect(e, e.(state := Read), Idle);
    case Closed => DropEffect(e, e, Closed);
    case Error => FailEffect(e);
    case Faild => FailEffect(e);
    case Ok => OkEffect(e);
    case ConnectOk => OkEffect(e);
    case Send => DropEffect(e, e.(state := WriteData), Idle);
    case _ => DropEffect(e, e, Idle);
  }

  lemma FailEffect(e: Engine)
    requires Framed(e) && e.union.None? && e.cmds != []
    ensures Effect(e, FailTurn(e))
  {
    hide Begins, Grows, Finishes, Whole, Signals;
    assert NoFrame(e, FailTurn(e));
  }

  lemma OkEffect(e: Engine)
    requires Framed(e) && e.union.None? && e.cmds != []
    ensures Effect(e, OkTurn(e))
  {
    hide Begins, Grows, Finishes, Whole, Signals;
    assert NoFrame(e, OkTurn(e));
  }

  lemma WriteEffect(e: Engine, o: Outcome)
    requires Framed(e) && o.frames == [] && o.engine.fifo == e.fifo
    requires o.engine.union == e.union && o.engine.frameSum == e.frameSum && o.engine.parsing == e.parsing
    ensures Effect(e, o)
  {
    hide Begins, Grows, Finishes, Whole, Signals;
    TakesPrefix(e, o.engine, [], 0);
    assert NoFrame(e, o);
  }

  lemma OtherTurns(cfg: Config, e: Engine, now: nat)
    requires ValidConfig(cfg) && Framed(e) && TurnDefined(e) && !IsRead(e.state)
    ensures var o := Turn(cfg, e, now);
            && o.frames == [] && o.engine.fifo == e.fifo && o.engine.union == e.union
            && o.engine.frameSum == e.frameSum && o.engine.parsing == e.parsing
  {
    hide ValidConfig, Since;
  }

  lemma TurnEffect(cfg: Config, e: Engine, now: nat)
    requires Inv(cfg, e) && TurnDefined(e)
    ensures Effect(e, Turn(cfg, e, now))
  {
    hide Effect, TagAtFront, QueueInv, TurnDefined, ReadTurn, IdleTurn, WriteTurn, Framed, ValidConfig;
    if IsRead(e.state) {
      ReadEffect(cfg, e);
    } else {
      OtherTurns(cfg, e, now);
      WriteEffect(e, Turn(cfg, e, now));
    }
  }

  // A reply takes exactly the text of its catch string out of the FIFO, and is reported unless it
  // only says that the module is busy.
  lemma ReplyTakesItsText(cfg: Config, e: Engine, now: nat)
    requires Inv(cfg, e) && TurnDefined(e) && !e.parsing && View(e) != []
    requires e.state in {Ready, Ok, ConnectOk, BusyS}
    ensures exists c :: c in cfg.table && c.state == e.state && Taken(e, Turn(cfg, e, now).engine) == c.str
    ensures Turn(cfg, e, now).ret == if e.state == BusyS then Idle else e.state
    ensures Turn(cfg, e, now).engine.state == if e.state == BusyS then Read else Idle
  {
    var c :| c in cfg.table && c.state == e.state && c.str <= e.fifo && e.offset == |c.str|;
    hide QueueInv, TagAtFront, ValidConfig, View;
    TurnReads(cfg, e, now);
    hide Turn, ReadTurn;
    var f := Turn(cfg, e, now).engine;
    assert f.fifo == e.fifo[|c.str|..];
    assert Taken(e, f) == c.str;
  }

  lemma SignalUndefinedExactly(v: seq<byte>)
    requires |v| <= FACTOR_LEN
    ensures !SignalDefined(v) <==> |v| == FACTOR_LEN && 0 !in v && forall j :: 0 <= j < |v| ==> !(OK_TEXT <= v[j..])
  {
  }

  // A reply at the front of the FIFO that the code cannot deal with.
  ghost predicate BadReply(e: Engine, v: seq<byte>) {
    || (e.state in {Ok, ConnectOk, Faild, Error} && e.cmds == [])
    || (e.state == IpdData && (CutHeader(v) || LongField(v)))
    || (e.state in {SignalCsq, SignalCwjap} && |v| == FACTOR_LEN && 0 !in v
        && forall j :: 0 <= j < |v| ==> !(OK_TEXT <= v[j..]))
  }

  // Told by the bytes in view and the queue, when a turn leaves what the language defines.
  lemma TurnDefinedExactly(cfg: Config, e: Engine)
    requires Inv(cfg, e)
    ensures !TurnDefined(e) <==>
              || ((e.state == WriteCmd || e.state == WriteData) && e.cmds == [])
              || (!e.parsing && View(e) != [] && BadReply(e, View(e)))
  {
    hide TagAtFront, QueueInv, ValidConfig, View, IpdDefined, SignalDefined, CutHeader, LongField;
    var v := View(e);
    if e.state == IpdData && !e.parsing {
      IpdTurnDefined(cfg, e);
    } else if e.state == SignalCsq || e.state == SignalCwjap {
      SignalUndefinedExactly(v);
    }
  }

  lemma IpdTurnDefined(cfg: Config, e: Engine)
    requires Inv(cfg, e) && e.state == IpdData && !e.parsing
    ensures !IpdDefined(View(e)) <==> CutHeader(View(e)) || LongField(View(e))
  {
    TagOfIpd(cfg, e);
    hide Inv, IpdDefined;
    if |View(e)| >= 5 {
      IpdUndefinedExactly(View(e));
    } else {
      ShortIsDefined(View(e));
    }
  }

  lemma ShortIsDefined(v: seq<byte>)
    requires |v| < 5
    ensures IpdDefined(v)
  {
  }

  // The front of the FIFO is a whole header of h bytes for a frame of n bytes, and eight bytes or
  // more are in view where a header is due.
  ghost predicate HeaderInView(e: Engine, h: nat, n: nat)
    requires Framed(e)
  {
    && e.state == IpdData && !e.parsing
    && |View(e)| >= 8 && h <= |View(e)| && n > 0 && IsHeader(View(e)[..h], n)
  }

  lemma StartsFrame(cfg: Config, e: Engine, now: nat, h: nat, n: nat)
    requires ValidConfig(cfg) && Framed(e) && HeaderInView(e, h, n)
    ensures TurnDefined(e) && Turn(cfg, e, now) == StartFrame(e, View(e), h, n)
  {
    WholeHeaderIsDefined(View(e), h, n);
    hide ValidConfig, View, IsHeader, StartFrame, IpdRefused, IpdDataLen, IpdFormatLen, IpdDefined;
    hide Turn, TurnDefined;
    HeaderTurn(cfg, e, now);
  }

  lemma HeaderTurn(cfg: Config, e: Engine, now: nat)
    requires ValidConfig(cfg) && Framed(e) && e.state == IpdData && !e.parsing && View(e) != [] && IpdDefined(View(e))
    ensures TurnDefined(e) && Turn(cfg, e, now) == NewFrameTurn(e, View(e))
  {
    hide ValidConfig, View, IpdDefined, NewFrameTurn;
    TurnReads(cfg, e, now);
    hide Turn, ReadTurn;
  }
}
