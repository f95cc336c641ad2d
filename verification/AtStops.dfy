// The states in which the AT engine stops reading for good, until it is cleaned.
module AtStops {
  import opened Basics
  import opened AtSpec
  import opened AtTags
  import opened AtQueue
  import opened AtRuns

  // The states the switch has no case for, and a closed connection once its reply is taken out.
  predicate NoCase(e: Engine) {
    e.state in {Ready1, Ready2, AlreadyConnected, ReadMax} || (e.state == Closed && e.offset == 0)
  }

  predicate IsSignal(s: State) {
    s == SignalCsq || s == SignalCwjap
  }

  function Least(s: State): nat {
    if s == SignalCsq then CSQ_MIN else CWJAP_MIN
  }

  // The switch waits for more bytes, or does nothing.
  predicate Waits(cfg: Config, e: Engine)
    requires ValidConfig(cfg) && Framed(e)
  {
    var v := View(e);
    || NoCase(e)
    || (e.state == ReadHead && HeadTag(cfg.table, v) == Wait)
    || (IsSignal(e.state) && (|v| < Least(e.state) || SignalLen(v) == 0))
  }

  // A turn with bytes in view leaves the engine as it is exactly in these states.
  lemma TurnStaysExactly(cfg: Config, e: Engine, now: nat)
    requires Inv(cfg, e) && TurnDefined(e) && IsRead(e.state) && View(e) != []
    ensures Turn(cfg, e, now).engine == e <==> !e.parsing && Waits(cfg, e)
  {
    TurnReads(cfg, e, now);
    if e.parsing {
      ParsingMoves(e, View(e));
      hide Turn, MoreFrameTurn, View, TurnDefined, TagAtFront, QueueInv, ValidConfig, Waits;
    } else {
      hide Turn, ReadTurn;
      SwitchStaysExactly(cfg, e, View(e));
    }
  }

  lemma ParsingMoves(e: Engine, v: seq<byte>)
    requires Framed(e) && e.union.Some? && v == View(e) && v != []
    ensures |MoreFrameTurn(e.(state := IpdData), v).engine.fifo| < |e.fifo|
  {
    hide Overlay;
  }

  lemma SwitchStaysExactly(cfg: Config, e: Engine, v: seq<byte>)
    requires Inv(cfg, e) && TurnDefined(e) && IsRead(e.state) && !e.parsing && v == View(e) && v != []
    ensures SwitchTurn(cfg, e, v).engine == e <==> Waits(cfg, e)
  {
    hide View, TagAtFront, QueueInv, ValidConfig, SignalLen, HeadTag;
    hide FailTurn, OkTurn, NewFrameTurn, HeadTurn, ScanTurn, SignalTurn, PlainTurn;
    if e.state == Error || e.state == Faild || e.state == Ok || e.state == ConnectOk {
      AnswerLeaves(e);
    } else if e.state == IpdData {
      FrameMoves(e, v);
    } else if e.state == ReadHead {
      TagMoves(cfg, e, v);
    } else if e.state == Read {
      ScanMoves(cfg, e, v);
    } else if IsSignal(e.state) {
      SignalMoves(e, v, Least(e.state));
    } else {
      PlainStays(e);
    }
  }

  lemma ScanMoves(cfg: Config, e: Engine, v: seq<byte>)
    requires e.state == Read
    ensures ScanTurn(cfg.table, e, v).engine != e
  {
    hide FirstStart;
  }

  lemma SignalMoves(e: Engine, v: seq<byte>, least: nat)
    requires IsSignal(e.state)
    ensures SignalTurn(e, v, least).engine == e <==> |v| < least || SignalLen(v) == 0
  {
    hide SignalLen;
  }

  lemma PlainStays(e: Engine)
    requires IsRead(e.state) && !IsSignal(e.state)
    requires e.state !in {Read, ReadHead, Error, Faild, Ok, ConnectOk, IpdData}
    ensures PlainTurn(e).engine == e <==> NoCase(e)
  {
  }

  lemma FrameMoves(e: Engine, v: seq<byte>)
    requires IpdDefined(v) && e.union.None? && e.frameSum == 0 && e.state == IpdData && v <= e.fifo && v != []
    ensures NewFrameTurn(e, v).engine != e
  {
    hide IpdDefined, IpdRefused, IpdDataLen, Overlay;
  }

  lemma TagMoves(cfg: Config, e: Engine, v: seq<byte>)
    requires ValidConfig(cfg) && e.state == ReadHead && 0 < |v| <= FACTOR_LEN
    ensures HeadTurn(cfg.table, e, v).engine == e <==> HeadTag(cfg.table, v) == Wait
  {
    HeadTagFinds(cfg.table, v);
    if HeadTag(cfg.table, v).Tag? {
      TagIsReply(cfg, HeadTag(cfg.table, v).catch);
    }
    hide HeadTag, ValidConfig, IsReply;
  }

  lemma TagIsReply(cfg: Config, c: Catch)
    requires ValidConfig(cfg) && c in cfg.table
    ensures c.state != ReadHead
  {
  }

  // ---- For good -----------------------------------------------------------------------------------

  // A signal text that will not be found, whatever follows: a zero byte ends it before any "OK", or
  // the "OK" is at its very beginning.
  predicate DeadSignal(v: seq<byte>) {
    SignalLen(v) == 0 && (0 in v || OK_TEXT <= v)
  }

  // Bytes are there, and no others can help.
  predicate Halted(cfg: Config, e: Engine)
    requires ValidConfig(cfg) && Framed(e)
  {
    && e.fifo != [] && !e.parsing
    && (|| NoCase(e)
        || (IsSignal(e.state) && DeadSignal(View(e)))
        || (|e.fifo| == cfg.size && TurnDefined(e) && Waits(cfg, e)))
  }

  lemma DeadIsDefined(v: seq<byte>)
    requires DeadSignal(v)
    ensures SignalDefined(v)
  {
  }

  lemma HaltedTurn(cfg: Config, e: Engine, now: nat)
    requires Inv(cfg, e) && Halted(cfg, e)
    ensures TurnDefined(e) && Turn(cfg, e, now).engine == e
    ensures Turn(cfg, e, now).frames == [] && Turn(cfg, e, now).writes == []
    ensures Turn(cfg, e, now).ret == if e.state == Closed then Closed else Idle
  {
    hide ValidConfig, View, TagAtFront, QueueInv, SignalLen, HeadTag, SignalDefined;
    if IsSignal(e.state) && DeadSignal(View(e)) {
      DeadIsDefined(View(e));
    }
    hide DeadSignal;
    TurnReads(cfg, e, now);
    hide Turn, ReadTurn, TurnDefined;
  }

  lemma IndexIsStable(v: seq<byte>, w: seq<byte>, b: byte)
    requires v <= w && b in v
    ensures IndexOf(w, b) == IndexOf(v, b) < |v|
  {
    var i :| 0 <= i < |v| && v[i] == b;
    var k, j := IndexOf(v, b), IndexOf(w, b);
    assert forall a :: 0 <= a < |v| ==> w[a] == v[a];
  }

  lemma DeadStaysDead(v: seq<byte>, w: seq<byte>)
    requires DeadSignal(v) && v <= w
    ensures DeadSignal(w)
  {
    if 0 in v {
      IndexIsStable(v, w, 0);
      assert CString(w) == CString(v);
      assert OK_TEXT <= v ==> OK_TEXT <= w;
    } else {
      hide IndexOfOk;
      var c := CString(w);
      assert c[..2] == w[..2] == v[..2] == OK_TEXT;
      OkFirst(c);
    }
  }

  lemma OkFirst(c: seq<byte>)
    requires OK_TEXT <= c
    ensures IndexOfOk(c) == 0
  {
  }

  lemma ArriveStaysHalted(cfg: Config, e: Engine, data: seq<byte>)
    requires Inv(cfg, e) && Halted(cfg, e)
    ensures var f := PutData(cfg, e, data); Framed(f) && Halted(cfg, f) && e.fifo <= f.fifo && f == e.(fifo := f.fifo)
  {
    var f := PutData(cfg, e, data);
    hide TagAtFront, QueueInv, ValidConfig, HeadTag, SignalLen, TurnDefined;
    if |e.fifo| == cfg.size {
      assert f == e;
    } else if IsSignal(e.state) && DeadSignal(View(e)) {
      assert View(e) <= View(f);
      DeadStaysDead(View(e), View(f));
    }
    hide View, DeadSignal;
  }

  lemma IssueStaysHalted(cfg: Config, e: Engine, text: seq<byte>, data: seq<byte>, waitTime: nat, retry: nat)
    requires Inv(cfg, e) && Halted(cfg, e)
    ensures var f := Issue(cfg, e, text, data, waitTime, retry);
            Framed(f) && Halted(cfg, f) && e.cmds <= f.cmds && f == e.(cmds := f.cmds, count := f.count)
  {
    hide TagAtFront, QueueInv, ValidConfig, HeadTag, SignalLen, DeadSignal, IpdDefined, SignalDefined;
  }

  // The log n goes on from l with the same state, and nothing read, delivered or sent.
  predicate StandsStill(l: Log, n: Log) {
    && n.engine.state == l.engine.state && n.got == l.got && Pos(n) == Pos(l)
    && l.engine.fifo <= n.engine.fifo && l.engine.cmds <= n.engine.cmds
  }

  lemma HaltedEvent(cfg: Config, l: Log, ev: Event)
    requires Good(cfg, l) && Halted(cfg, l.engine) && ev != Clean
    ensures Allowed(l, ev) && Good(cfg, After(cfg, l, ev)) && Halted(cfg, After(cfg, l, ev).engine)
    ensures StandsStill(l, After(cfg, l, ev))
  {
    hide Halted, TurnDefined, Conserved, Placed, InOrder, Waiting, Turn, TagAtFront, QueueInv, ValidConfig;
    if ev.Tick? {
      HaltedTurn(cfg, l.engine, ev.now);
    } else if ev.Arrive? {
      ArriveStaysHalted(cfg, l.engine, ev.bytes);
    } else {
      IssueStaysHalted(cfg, l.engine, ev.text, ev.data, ev.waitTime, ev.retry);
    }
    EventKeeps(cfg, l, ev);
    assert l.got + [] == l.got;
    hide Good;
  }

  // A halted engine stays so in every run until it is cleaned: all its turns are defined, and nothing
  // more is read, delivered or sent, whatever arrives and is ordered.
  lemma {:induction false} HaltsForGood(cfg: Config, l: Log, run: seq<Event>)
    requires Good(cfg, l) && Halted(cfg, l.engine) && Clean !in run
    ensures Legal(cfg, l, run) && StandsStill(l, Exec(cfg, l, run)) && Good(cfg, Exec(cfg, l, run))
    ensures Halted(cfg, Exec(cfg, l, run).engine)
    decreases |run|
  {
    if run != [] {
      assert run[0] in run;
      HaltedEvent(cfg, l, run[0]);
      hide Good, After, Allowed, Halted;
      HaltsForGood(cfg, After(cfg, l, run[0]), run[1..]);
    }
  }

  // So the reply that the connection is closed halts the engine if a byte is there behind it: it is
  // reported, and then reported again by every call.
  lemma ClosedHalts(cfg: Config, e: Engine, now: nat)
    requires Inv(cfg, e) && e.state == Closed && !e.parsing && |e.fifo| > e.offset
    ensures TurnDefined(e) && Turn(cfg, e, now).ret == Closed
    ensures var f := Turn(cfg, e, now).engine;
            Framed(f) && f.fifo == e.fifo[e.offset..] && Inv(cfg, f) && Halted(cfg, f)
    ensures var f := Turn(cfg, e, now).engine;
            TurnDefined(f) && Turn(cfg, f, now) == Outcome(f, Closed, [], [])
  {
    TurnKeepsInv(cfg, e, now);
    var f := Drop(e);
    assert Turn(cfg, e, now) == Outcome(f, Closed, [], []) by {
      hide Inv, ValidConfig;
      TurnReads(cfg, e, now);
      hide Turn, ReadTurn;
    }
    hide Turn, TagAtFront, QueueInv, ValidConfig;
    HaltedTurn(cfg, f, now);
  }
}
