// Flow control of the AT engine: one command at a time.
module AtFlow {
  import opened Basics
  import opened AtSpec
  import opened AtTags
  import opened AtQueue
  import opened AtRuns

  // A command has been sent and the engine is not about to send one.
  predicate Engaged(e: Engine) {
    e.busy != 0 && e.state != Write && e.state != WriteCmd
  }

  // What may set the engine free: the reply that closes the command, a failure reply, its time
  // limit, or a reset.
  predicate Answered(e: Engine, now: nat)
    requires Framed(e)
  {
    || (Confirms(e) && e.cmds != [] && (e.busy == 2 || |e.cmds[0].data| == 0))
    || Fails(e) || TimesOut(e, now) || Resets(e)
  }

  lemma ScanStaysEngaged(cfg: Config, e: Engine, v: seq<byte>)
    requires ValidConfig(cfg) && 0 < |v| <= FACTOR_LEN && Engaged(e)
    ensures Engaged(ScanTurn(cfg.table, e, v).engine) && Engaged(HeadTurn(cfg.table, e, v).engine)
  {
    HeadTagFinds(cfg.table, v);
    hide HeadTag, FirstStart;
  }

  lemma ReadStaysEngaged(cfg: Config, e: Engine, now: nat)
    requires ValidConfig(cfg) && Framed(e) && TurnDefined(e) && IsRead(e.state) && Engaged(e) && !Answered(e, now)
    ensures Engaged(ReadTurn(cfg, e).engine)
  {
    hide ValidConfig, ScanTurn, HeadTurn, IpdRefused, IpdDataLen, IpdFormatLen, SignalLen, Overlay, View;
    if !e.parsing && View(e) != [] && (e.state == Read || e.state == ReadHead) {
      ScanStaysEngaged(cfg, e, View(e));
    }
  }

  lemma StaysEngaged(cfg: Config, e: Engine, now: nat)
    requires ValidConfig(cfg) && Framed(e) && TurnDefined(e) && Engaged(e) && !Answered(e, now)
    ensures Engaged(Turn(cfg, e, now).engine)
  {
    if IsRead(e.state) {
      ReadStaysEngaged(cfg, e, now);
    } else {
      hide ValidConfig, Since, Confirms, Fails, Resets;
    }
  }

  // The turn that sends a command hands its text to write_cb, and leaves the engine engaged.
  lemma SendingEngages(cfg: Config, e: Engine, now: nat)
    requires ValidConfig(cfg) && Framed(e) && TurnDefined(e) && e.state == WriteCmd
    ensures Turn(cfg, e, now).writes == [e.cmds[0].text] && Engaged(Turn(cfg, e, now).engine)
  {
    hide ValidConfig;
  }

  // The turns of the run that find the engine engaged do not set it free, and it is not cleaned.
  ghost predicate Unanswered(cfg: Config, l: Log, run: seq<Event>)
    requires Good(cfg, l) && Legal(cfg, l, run)
    decreases |run|
  {
    run != [] ==>
      && run[0] != Clean && (run[0].Tick? ==> !Answered(l.engine, run[0].now))
      && (EventKeeps(cfg, l, run[0]); Unanswered(cfg, After(cfg, l, run[0]), run[1..]))
  }

  // How many commands a run sends.
  ghost function Sent(cfg: Config, l: Log, run: seq<Event>): nat
    requires Good(cfg, l) && Legal(cfg, l, run)
    decreases |run|
  {
    if run == [] then 0
    else
      EventKeeps(cfg, l, run[0]);
      (if run[0].Tick? && l.engine.state == WriteCmd then 1 else 0) + Sent(cfg, After(cfg, l, run[0]), run[1..])
  }

  lemma EventStaysEngaged(cfg: Config, l: Log, ev: Event)
    requires Good(cfg, l) && Allowed(l, ev) && Engaged(l.engine)
    requires ev != Clean && (ev.Tick? ==> !Answered(l.engine, ev.now))
    ensures Engaged(After(cfg, l, ev).engine)
  {
    hide Conserved, Placed, InOrder, Waiting, Turn, Answered, Located;
    if ev.Tick? {
      StaysEngaged(cfg, l.engine, ev.now);
    }
  }

  // After a command has been sent, no other one and no repetition is sent before the reply that
  // closes it, a failure reply or the end of its time, whatever arrives and is ordered meanwhile.
  lemma {:induction false} OneCommandAtATime(cfg: Config, l: Log, run: seq<Event>)
    requires Good(cfg, l) && Legal(cfg, l, run) && Engaged(l.engine) && Unanswered(cfg, l, run)
    ensures Sent(cfg, l, run) == 0 && Engaged(Exec(cfg, l, run).engine)
    decreases |run|
  {
    if run != [] {
      EventKeeps(cfg, l, run[0]);
      EventStaysEngaged(cfg, l, run[0]);
      hide Good, After, Allowed, Answered;
      OneCommandAtATime(cfg, After(cfg, l, run[0]), run[1..]);
    }
  }

  // The data of a command is handed over right after the prompt for it has been taken: a turn
  // gets the engine there only from the state in which that reply stands in front of the FIFO.
  lemma DataFollowsPrompt(cfg: Config, e: Engine, now: nat)
    requires Inv(cfg, e) && TurnDefined(e)
    ensures Turn(cfg, e, now).engine.state == WriteData <==>
              e.state == Send && !e.parsing && View(e) != []
    ensures e.state == WriteData ==>
              Turn(cfg, e, now).writes == [e.cmds[0].data] && Turn(cfg, e, now).engine.state == Read
  {
    if IsRead(e.state) {
      ReadReachesData(cfg, e);
    } else {
      hide Inv, Since, ValidConfig;
    }
  }

  lemma ReadReachesData(cfg: Config, e: Engine)
    requires ValidConfig(cfg) && Framed(e) && TurnDefined(e) && IsRead(e.state)
    ensures ReadTurn(cfg, e).engine.state == WriteData <==> e.state == Send && !e.parsing && View(e) != []
  {
    TurnReads(cfg, e, 0);
    if e.parsing || View(e) == [] {
      hide Turn, SwitchTurn, ValidConfig, TurnDefined, Overlay;
    } else {
      hide Turn, ReadTurn;
      SwitchReachesData(cfg, e, View(e));
    }
  }

  lemma SwitchReachesData(cfg: Config, e: Engine, v: seq<byte>)
    requires ValidConfig(cfg) && Framed(e) && TurnDefined(e) && IsRead(e.state) && !e.parsing
    requires v == View(e) && v != []
    ensures SwitchTurn(cfg, e, v).engine.state == WriteData <==> e.state == Send
  {
    HeadTagFinds(cfg.table, v);
    hide HeadTag, FirstStart, NewFrameTurn, SignalLen, View, FailTurn, OkTurn, Starts;
    if e.state in {Error, Faild, Ok, ConnectOk} {
      AnswerLeaves(e);
    } else if e.state == IpdData {
      HeaderLeaves(e, v);
    }
  }

  lemma HeaderLeaves(e: Engine, v: seq<byte>)
    requires IpdDefined(v) && e.union.None? && e.frameSum == 0 && e.state == IpdData
    ensures NewFrameTurn(e, v).engine.state in {Idle, IpdData}
  {
    hide IpdRefused, IpdDataLen, IpdFormatLen, Overlay;
  }

  // ---- The time limit -----------------------------------------------------------------------------

  // An idle turn reports that the connection is closed exactly when the last try of the first
  // command has run out of time.  The queue stays as it is, and a try below 1 starts over at 255.
  lemma TimeLimitExactly(cfg: Config, e: Engine, now: nat)
    requires Inv(cfg, e) && TurnDefined(e) && e.state == Idle
    ensures var o := Turn(cfg, e, now);
            && (o.ret == Closed <==> TimesOut(e, now) && e.cmds[0].retry == 1)
            && Texts(o.engine.cmds) == Texts(e.cmds)
            && (TimesOut(e, now) ==>
                  && o.engine.cmds[0].retry == (if e.cmds[0].retry == 0 then 255 else e.cmds[0].retry - 1)
                  && o.engine.busy == 0 && o.engine.tick == now)
  {
    assert TimesOut(e, now) ==> e.cmds[0].retry < 256;
    hide Inv, Since;
  }

  // So the command whose last try ran out is sent again three turns later, unless something
  // arrives or the queue is cleaned.
  lemma ClosedCommandIsSentAgain(cfg: Config, e: Engine, now: nat)
    requires Inv(cfg, e) && TurnDefined(e) && TimesOut(e, now) && e.cmds[0].retry == 1
    ensures var f := Turn(cfg, e, now).engine;
            && Framed(f) && TurnDefined(f)
            && var g := Turn(cfg, f, now).engine;
               && Framed(g) && TurnDefined(g) && g.state == Write
               && var h := Turn(cfg, g, now).engine;
                  Framed(h) && TurnDefined(h) && Turn(cfg, h, now).writes == [e.cmds[0].text]
  {
    hide QueueInv, TagAtFront, ValidConfig;
    var f := Turn(cfg, e, now).engine;
    assert f.state == Idle && f.fifo == [] && f.busy == 0 && f.tick == now && f.cmds != [];
    FreeEngineSends(cfg, f, now);
  }

  lemma FreeEngineSends(cfg: Config, e: Engine, now: nat)
    requires ValidConfig(cfg) && Framed(e) && e.state == Idle && e.fifo == [] && e.cmds != []
    requires e.busy == 0 && e.tick == now
    ensures TurnDefined(e) && Turn(cfg, e, now) == Quiet(e.(state := Write))
    ensures var g := e.(state := Write);
            && Framed(g) && TurnDefined(g) && Turn(cfg, g, now) == Quiet(e.(state := WriteCmd))
            && Framed(e.(state := WriteCmd)) && TurnDefined(e.(state := WriteCmd))
            && Turn(cfg, e.(state := WriteCmd), now).writes == [e.cmds[0].text]
  {
    IdleGoesOn(cfg, e, now);
    hide ValidConfig, Turn, TurnDefined;
    WriteGoesOn(cfg, e.(state := Write), now);
    SendingEngages(cfg, e.(state := WriteCmd), now);
  }

  lemma IdleGoesOn(cfg: Config, e: Engine, now: nat)
    requires ValidConfig(cfg) && Framed(e) && e.state == Idle && e.fifo == [] && e.cmds != []
    requires e.busy == 0 && e.tick == now
    ensures TurnDefined(e) && Turn(cfg, e, now) == Quiet(e.(state := Write))
  {
    hide ValidConfig, View;
    assert Since(e, now) == 0;
  }
}
