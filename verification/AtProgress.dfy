// Progress of the AT engine over runs: a command that is sent waits, is answered and makes room for
// the next one, whatever arrives and is ordered between the turns.
module AtProgress {
  import opened Basics
  import opened AtSpec
  import opened AtTags
  import opened AtHeader
  import opened AtFrames
  import opened AtQueue
  import opened AtRuns
  import opened AtLaws

  lemma {:induction false} RunsJoin(cfg: Config, l: Log, run: seq<Event>, more: seq<Event>)
    requires Good(cfg, l) && Legal(cfg, l, run) && Good(cfg, Exec(cfg, l, run))
    requires Legal(cfg, Exec(cfg, l, run), more)
    ensures Legal(cfg, l, run + more)
    ensures Exec(cfg, l, run + more) == Exec(cfg, Exec(cfg, l, run), more)
    decreases |run|
  {
    hide Conserved, Placed, InOrder, Waiting, Inv;
    if run == [] {
      hide Good;
      assert run + more == more;
    } else {
      EventKeeps(cfg, l, run[0]);
      hide Good, After, Allowed;
      assert (run + more)[0] == run[0] && (run + more)[1..] == run[1..] + more;
      RunsJoin(cfg, After(cfg, l, run[0]), run[1..], more);
    }
  }

  lemma OneEvent(cfg: Config, l: Log, ev: Event)
    requires Good(cfg, l) && Allowed(l, ev)
    ensures Legal(cfg, l, [ev]) && Exec(cfg, l, [ev]) == After(cfg, l, ev) && Good(cfg, After(cfg, l, ev))
  {
    EventKeeps(cfg, l, ev);
    hide Good, After, Allowed;
    assert [ev][1..] == [];
  }

  // Bytes and commands have come in; nothing has been taken out of the FIFO or the queue, and
  // nothing but the state and the offset has changed.
  predicate Grown(e: Engine, f: Engine) {
    && f == e.(fifo := f.fifo, cmds := f.cmds, count := f.count, state := f.state, offset := f.offset)
    && e.fifo <= f.fifo && e.cmds <= f.cmds
  }

  lemma GrownTwice(e: Engine, f: Engine, g: Engine)
    requires Grown(e, f) && Grown(f, g)
    ensures Grown(e, g)
  {
  }

  // What an event that is neither a turn nor a cleaning does.
  lemma OthersGrow(cfg: Config, l: Log, ev: Event)
    requires Good(cfg, l) && !ev.Tick? && ev != Clean
    ensures var f := After(cfg, l, ev).engine;
            Grown(l.engine, f) && f.state == l.engine.state && f.offset == l.engine.offset
  {
    hide Conserved, Placed, InOrder, Waiting, TagAtFront, QueueInv, ValidConfig;
  }

  // ---- A command that has been sent waits --------------------------------------------------------

  // No turn of the run comes more than 10 ms after t, and nothing cleans.
  predicate Early(run: seq<Event>, t: nat) {
    forall ev <- run :: ev != Clean && (ev.Tick? ==> (ev.now - t) % 0x1_0000_0000 <= 10)
  }

  lemma WaitingEvent(cfg: Config, l: Log, ev: Event)
    requires Good(cfg, l) && l.engine.state == WriteCmdWait && ev != Clean
    requires ev.Tick? ==> (ev.now - l.engine.tick) % 0x1_0000_0000 <= 10
    ensures Allowed(l, ev)
    ensures var f := After(cfg, l, ev).engine;
            Grown(l.engine, f) && f.state == WriteCmdWait && f.offset == l.engine.offset
  {
    hide Conserved, Placed, InOrder, Waiting, TagAtFront, QueueInv, ValidConfig, Turn, TurnDefined;
    if ev.Tick? {
      WaitsExactly(cfg, l.engine, ev.now);
    } else {
      OthersGrow(cfg, l, ev);
    }
  }

  lemma {:induction false} WaitingRun(cfg: Config, l: Log, run: seq<Event>)
    requires Good(cfg, l) && l.engine.state == WriteCmdWait && Early(run, l.engine.tick)
    ensures Legal(cfg, l, run) && Good(cfg, Exec(cfg, l, run))
    ensures var f := Exec(cfg, l, run).engine;
            Grown(l.engine, f) && f.state == WriteCmdWait && f.offset == l.engine.offset
    decreases |run|
  {
    if run != [] {
      assert run[0] in run;
      WaitingEvent(cfg, l, run[0]);
      EventKeeps(cfg, l, run[0]);
      hide Good, After, Allowed;
      WaitingRun(cfg, After(cfg, l, run[0]), run[1..]);
      GrownTwice(l.engine, After(cfg, l, run[0]).engine, Exec(cfg, l, run).engine);
    }
  }

  // The turn that sends a command at time t hands over its text.  Over any run whose turns come up to
  // 10 ms after t, in 32-bit time, the engine does nothing but wait; the first turn after that reads.
  lemma SentCommandWaits(cfg: Config, l: Log, t: nat, run: seq<Event>, s: nat)
    requires Good(cfg, l) && TurnDefined(l.engine) && l.engine.state == WriteCmd && Early(run, t)
    requires (s - t) % 0x1_0000_0000 > 10
    ensures l.engine.cmds != [] && Turn(cfg, l.engine, t).writes == [l.engine.cmds[0].text]
    ensures Legal(cfg, l, [Tick(t)] + run) && Legal(cfg, l, [Tick(t)] + run + [Tick(s)])
    ensures var f, sent := Exec(cfg, l, [Tick(t)] + run).engine, l.engine.(busy := 1, tick := t);
            && Grown(sent, f) && f.state == WriteCmdWait && f.offset == l.engine.offset
            && Exec(cfg, l, [Tick(t)] + run + [Tick(s)]).engine == f.(state := Read)
  {
    hide Conserved, Placed, InOrder, Waiting, TagAtFront, QueueInv, ValidConfig, Turn, TurnDefined;
    SendingTick(cfg, l, t);
    OneEvent(cfg, l, Tick(t));
    var m := After(cfg, l, Tick(t));
    hide Good, After, Exec, Legal, Turn, TurnDefined, Early, Allowed;
    WaitingThenReading(cfg, m, run, s);
    RunsJoin(cfg, l, [Tick(t)], run);
    RunsJoin(cfg, l, [Tick(t)], run + [Tick(s)]);
    assert [Tick(t)] + (run + [Tick(s)]) == [Tick(t)] + run + [Tick(s)];
  }

  lemma WaitingThenReading(cfg: Config, l: Log, run: seq<Event>, s: nat)
    requires Good(cfg, l) && l.engine.state == WriteCmdWait && Early(run, l.engine.tick)
    requires (s - l.engine.tick) % 0x1_0000_0000 > 10
    ensures Legal(cfg, l, run) && Good(cfg, Exec(cfg, l, run)) && Legal(cfg, l, run + [Tick(s)])
    ensures var f := Exec(cfg, l, run).engine;
            && Grown(l.engine, f) && f.state == WriteCmdWait && f.offset == l.engine.offset
            && Exec(cfg, l, run + [Tick(s)]).engine == f.(state := Read)
  {
    hide Good, After, Exec, Legal, Early, Allowed;
    WaitingRun(cfg, l, run);
    var m := Exec(cfg, l, run);
    ReadingTick(cfg, m, s);
    OneEvent(cfg, m, Tick(s));
    RunsJoin(cfg, l, run, [Tick(s)]);
  }

  lemma SendingTick(cfg: Config, l: Log, t: nat)
    requires Good(cfg, l) && TurnDefined(l.engine) && l.engine.state == WriteCmd
    ensures l.engine.cmds != [] && Turn(cfg, l.engine, t).writes == [l.engine.cmds[0].text]
    ensures Allowed(l, Tick(t))
    ensures After(cfg, l, Tick(t)).engine == l.engine.(state := WriteCmdWait, busy := 1, tick := t)
  {
    SendsExactly(cfg, l.engine, t);
    hide Conserved, Placed, InOrder, Waiting, TagAtFront, QueueInv, ValidConfig, Turn, TurnDefined;
  }

  lemma ReadingTick(cfg: Config, l: Log, s: nat)
    requires Good(cfg, l) && l.engine.state == WriteCmdWait && (s - l.engine.tick) % 0x1_0000_0000 > 10
    ensures Allowed(l, Tick(s)) && After(cfg, l, Tick(s)).engine == l.engine.(state := Read)
  {
    WaitsExactly(cfg, l.engine, s);
    hide Conserved, Placed, InOrder, Waiting, TagAtFront, QueueInv, ValidConfig, Turn, TurnDefined;
  }

  // ---- A reply at the front of the FIFO is taken -----------------------------------------------------

  // The first entry of the table that decides about the view is c, and it fits.
  predicate Leads(table: seq<Catch>, v: seq<byte>, c: Catch) {
    exists i :: 0 <= i < |table| && table[i] == c && Decides(table, v, i) && Fits(c, v)
  }

  // More bytes do not change what two or more have decided.
  lemma LeadsOn(table: seq<Catch>, v: seq<byte>, w: seq<byte>, c: Catch)
    requires Leads(table, v, c) && 2 <= |v| && v <= w
    ensures Leads(table, w, c)
  {
    var i :| 0 <= i < |table| && table[i] == c && Decides(table, v, i) && Fits(c, v);
    forall j | 0 <= j < i
      ensures !Fits(table[j], w) && !Delays(table[j], w)
    {
      DecidedBefore(table[j], v, w);
    }
    assert Decides(table, w, i);
  }

  lemma DecidedBefore(c: Catch, v: seq<byte>, w: seq<byte>)
    requires 2 <= |v| && v <= w
    ensures Fits(c, w) || Delays(c, w) ==> Fits(c, v) || Delays(c, v)
  {
    assert w[..2] == v[..2];
    if Fits(c, w) {
      if |c.str| <= |v| {
        assert c.str == v[..|c.str|];
      } else {
        assert c.str[..2] == w[..2];
      }
    }
  }

  // How many turns there are to the one that deals with the reply: idle, in the scan, at the head,
  // and in its own state.
  function Stages(s: State): nat {
    if s == Idle then 4 else if s == Read then 3 else if s == ReadHead then 2 else 1
  }

  // The catch string c stands at the front of the FIFO and is going to be taken.
  ghost predicate Coming(cfg: Config, e: Engine, c: Catch) {
    && Inv(cfg, e) && !e.parsing && |e.fifo| >= 2 && c in cfg.table && Leads(cfg.table, View(e), c)
    && (Stages(e.state) == 1 ==> e.state == c.state && e.offset == |c.str|)
  }

  lemma ViewGrows(e: Engine, f: Engine)
    requires Framed(e) && Framed(f) && Grown(e, f) && !e.parsing && |e.fifo| >= 2
    ensures View(e) <= View(f) && |View(e)| >= 2
  {
  }

  lemma ComingGrows(cfg: Config, e: Engine, f: Engine, c: Catch)
    requires Coming(cfg, e, c) && Inv(cfg, f) && Grown(e, f) && f.state == e.state && f.offset == e.offset
    ensures Coming(cfg, f, c)
  {
    hide TagAtFront, QueueInv, ValidConfig, Leads, View;
    ViewGrows(e, f);
    LeadsOn(cfg.table, View(e), View(f), c);
  }

  // A turn brings the reply one stage nearer, and takes nothing out of the FIFO.
  lemma ComingTurn(cfg: Config, e: Engine, now: nat, c: Catch)
    requires Coming(cfg, e, c) && Stages(e.state) > 1
    ensures TurnDefined(e)
    ensures var f := Turn(cfg, e, now).engine;
            && Coming(cfg, f, c) && Stages(f.state) == Stages(e.state) - 1
            && Only(e, f) && f.fifo == e.fifo && Turn(cfg, e, now) == Quiet(f)
  {
    StageTurn(cfg, e, now, c);
    TurnKeepsInv(cfg, e, now);
    var f := Turn(cfg, e, now).engine;
    hide Turn, TurnDefined, Inv, Leads, Coming;
    ComingOn(cfg, e, f, c);
  }

  lemma StageTurn(cfg: Config, e: Engine, now: nat, c: Catch)
    requires Coming(cfg, e, c) && Stages(e.state) > 1
    ensures TurnDefined(e)
    ensures var f := Turn(cfg, e, now).engine;
            && Turn(cfg, e, now) == Quiet(f) && f == e.(state := f.state, offset := f.offset)
            && Stages(f.state) == Stages(e.state) - 1
            && (Stages(f.state) == 1 ==> f.state == c.state && f.offset == |c.str|)
  {
    hide Inv, Leads, View, Turn, TurnDefined;
    if e.state == Idle {
      IdleExactly(cfg, e, now);
    } else if e.state == Read {
      ScanFinds(cfg, e, now, c);
    } else {
      HeadFinds(cfg, e, now, c);
    }
  }

  lemma ComingOn(cfg: Config, e: Engine, f: Engine, c: Catch)
    requires Coming(cfg, e, c) && Inv(cfg, f) && f == e.(state := f.state, offset := f.offset)
    requires Stages(f.state) == 1 ==> f.state == c.state && f.offset == |c.str|
    ensures Coming(cfg, f, c) && Only(e, f) && f.fifo == e.fifo
  {
    hide Leads, TagAtFront, QueueInv, ValidConfig;
    assert View(f) == View(e);
  }

  lemma ScanFinds(cfg: Config, e: Engine, now: nat, c: Catch)
    requires Coming(cfg, e, c) && e.state == Read
    ensures TurnDefined(e)
    ensures var f := Turn(cfg, e, now).engine;
            f == e.(state := ReadHead, offset := 0) && Turn(cfg, e, now) == Quiet(f)
  {
    ScanExactly(cfg, e, now);
    hide Turn, TurnDefined;
    LeadsByFirst(cfg.table, View(e), c);
    assert e.fifo[0] == View(e)[0] by {
      hide Inv, Leads, Only, BeginsOne;
    }
    hide Inv, Leads, View, BeginsOne, Decides;
    assert e.fifo[0..] == e.fifo;
  }

  lemma LeadsByFirst(table: seq<Catch>, v: seq<byte>, c: Catch)
    requires Leads(table, v, c) && c in table && v != [] && c.str != []
    ensures BeginsOne(table, v[0])
  {
    assert c.str[0] == v[0];
  }

  lemma HeadFinds(cfg: Config, e: Engine, now: nat, c: Catch)
    requires Coming(cfg, e, c) && e.state == ReadHead
    ensures TurnDefined(e) && Turn(cfg, e, now) == Quiet(e.(state := c.state, offset := |c.str|))
    ensures Stages(c.state) == 1
  {
    HeadExactly(cfg, e, now);
    hide Turn, TurnDefined, TagAtFront, QueueInv, Framed, View, Decides, Fits;
  }

  function Ticks(run: seq<Event>): nat {
    if run == [] then 0 else (if run[0].Tick? then 1 else 0) + Ticks(run[1..])
  }

  lemma ComingEvent(cfg: Config, l: Log, ev: Event, c: Catch)
    requires Good(cfg, l) && Coming(cfg, l.engine, c) && ev != Clean
    requires ev.Tick? ==> Stages(l.engine.state) > 1
    ensures Allowed(l, ev) && Good(cfg, After(cfg, l, ev))
    ensures var f := After(cfg, l, ev).engine;
            && Coming(cfg, f, c) && Grown(l.engine, f) && Pos(After(cfg, l, ev)) == Pos(l)
            && Stages(f.state) == Stages(l.engine.state) - if ev.Tick? then 1 else 0
  {
    hide Coming, Turn, TurnDefined, Conserved, Placed, InOrder, Waiting, TagAtFront, QueueInv, ValidConfig;
    if ev.Tick? {
      ComingTurn(cfg, l.engine, ev.now, c);
    } else {
      OthersGrow(cfg, l, ev);
    }
    EventKeeps(cfg, l, ev);
    if !ev.Tick? {
      ComingGrows(cfg, l.engine, After(cfg, l, ev).engine, c);
    }
  }

  // Over any run without a cleaning, a reply at the front of the FIFO comes one stage nearer with every
  // turn, with nothing taken or changed before its own turn.
  lemma {:induction false} ReplyComes(cfg: Config, l: Log, run: seq<Event>, c: Catch)
    requires Good(cfg, l) && Coming(cfg, l.engine, c) && Clean !in run && Ticks(run) < Stages(l.engine.state)
    ensures Legal(cfg, l, run) && Good(cfg, Exec(cfg, l, run))
    ensures var f := Exec(cfg, l, run).engine;
            Coming(cfg, f, c) && Grown(l.engine, f) && Stages(f.state) == Stages(l.engine.state) - Ticks(run)
    ensures Pos(Exec(cfg, l, run)) == Pos(l)
    decreases |run|
  {
    if run != [] {
      assert run[0] in run;
      ComingEvent(cfg, l, run[0], c);
      hide Good, After, Allowed, Coming, Stages;
      ReplyComes(cfg, After(cfg, l, run[0]), run[1..], c);
      GrownTwice(l.engine, After(cfg, l, run[0]).engine, Exec(cfg, l, run).engine);
    }
  }

  // ---- A frame from its first byte on -------------------------------------------------------------------

  lemma HeaderComesIntoView(cfg: Config, e: Engine, f: Engine, c: Catch, h: nat, n: nat)
    requires Coming(cfg, f, c) && Stages(f.state) == 1 && c.state == IpdData && e.fifo <= f.fifo
    requires |e.fifo| >= 8 && h <= |e.fifo| && n > 0 && IsHeader(e.fifo[..h], n)
    ensures HeaderInView(f, h, n)
  {
    assert h <= 9;
    hide IsHeader, Leads, Inv;
    assert Framed(f);
    hide Framed;
    var v := View(f);
    assert |v| >= 8 && h <= |v|;
    assert v[..h] == e.fifo[..h];
  }

  // A whole header stands at the front of the FIFO, and the engine is idle or scanning.  The turn that
  // its stage tells begins the frame, and the frame arrives in every run without a cleaning that
  // accepts its last byte and reads the FIFO out.
  lemma FrontFrameArrives(cfg: Config, l: Log, run: seq<Event>, now: nat, more: seq<Event>, c: Catch, h: nat, n: nat)
    requires Good(cfg, l) && Coming(cfg, l.engine, c) && c.state == IpdData
    requires |l.engine.fifo| >= 8 && h <= |l.engine.fifo| && n > 0 && IsHeader(l.engine.fifo[..h], n)
    requires Ticks(run) + 1 == Stages(l.engine.state) && Clean !in run && Clean !in more
    requires Legal(cfg, l, run + ([Tick(now)] + more))
    ensures 0 <= Pos(l) + h && Arrived(Exec(cfg, l, run + ([Tick(now)] + more)), Pos(l) + h, n)
  {
    hide Good, Coming, IsHeader, HeaderInView, Arrived, Exec, Legal, Framed, Ticks, Stages;
    StreamNotBehind(cfg, l);
    FrontHeader(cfg, l, run, c, h, n);
    FrameAfter(cfg, l, run, Exec(cfg, l, run), now, more, h, n);
  }

  lemma FrameAfter(cfg: Config, l: Log, run: seq<Event>, m: Log, now: nat, more: seq<Event>, h: nat, n: nat)
    requires Good(cfg, l) && Legal(cfg, l, run) && Exec(cfg, l, run) == m
    requires Good(cfg, m) && HeaderInView(m.engine, h, n) && 0 <= Pos(m) && Clean !in more
    requires Legal(cfg, l, run + ([Tick(now)] + more))
    ensures Arrived(Exec(cfg, l, run + ([Tick(now)] + more)), Pos(m) + h, n)
  {
    hide Good, HeaderInView, Arrived, Exec, Legal;
    LegalJoin(cfg, l, run, [Tick(now)] + more);
    RunsJoin(cfg, l, run, [Tick(now)] + more);
    HeaderArrives(cfg, m, now, more, h, n);
  }

  lemma FrontHeader(cfg: Config, l: Log, run: seq<Event>, c: Catch, h: nat, n: nat)
    requires Good(cfg, l) && Coming(cfg, l.engine, c) && c.state == IpdData
    requires |l.engine.fifo| >= 8 && h <= |l.engine.fifo| && n > 0 && IsHeader(l.engine.fifo[..h], n)
    requires Ticks(run) + 1 == Stages(l.engine.state) && Clean !in run
    ensures Legal(cfg, l, run)
    ensures var m := Exec(cfg, l, run);
            Good(cfg, m) && Framed(m.engine) && HeaderInView(m.engine, h, n) && Pos(m) == Pos(l)
  {
    ReplyComes(cfg, l, run, c);
    hide Good, Exec, Legal, IsHeader;
    HeaderComesIntoView(cfg, l.engine, Exec(cfg, l, run).engine, c, h, n);
  }

  lemma StreamNotBehind(cfg: Config, l: Log)
    requires Good(cfg, l)
    ensures 0 <= Pos(l)
  {
    hide Inv, Placed, InOrder, Waiting;
  }

  lemma {:induction false} LegalJoin(cfg: Config, l: Log, run: seq<Event>, more: seq<Event>)
    requires Good(cfg, l) && Legal(cfg, l, run) && Legal(cfg, l, run + more)
    ensures Good(cfg, Exec(cfg, l, run)) && Legal(cfg, Exec(cfg, l, run), more)
    decreases |run|
  {
    hide Conserved, Placed, InOrder, Waiting, Inv;
    if run == [] {
      hide Good;
      assert run + more == more;
    } else {
      EventKeeps(cfg, l, run[0]);
      hide Good, After, Allowed;
      assert (run + more)[0] == run[0] && (run + more)[1..] == run[1..] + more;
      LegalJoin(cfg, After(cfg, l, run[0]), run[1..], more);
    }
  }

  // ---- The cycle of a command ------------------------------------------------------------------------

  // The engine after the reply c has counted against the first command: its text is out of the FIFO,
  // the command waits for one reply less or is done, and the engine is free exactly if the command
  // has no data or its data has been sent.
  predicate Answered(e: Engine, f: Engine, c: Catch) {
    && e.cmds != [] && c.str <= e.fifo
    && var busy := if e.cmds[0].data == [] || e.busy == 2 then 0 else e.busy;
       var cmds := if e.cmds[0].delCnt == 1 then e.cmds[1..] else [e.cmds[0].(delCnt := 1)] + e.cmds[1..];
       f == e.(fifo := e.fifo[|c.str|..], state := Idle, offset := 0, busy := busy, cmds := cmds, count := f.count)
  }

  lemma OkIsTaken(cfg: Config, e: Engine, now: nat, c: Catch)
    requires Coming(cfg, e, c) && e.state in {Ok, ConnectOk} && TurnDefined(e)
    ensures var o := Turn(cfg, e, now); Answered(e, o.engine, c) && o == Outcome(o.engine, c.state, [], [])
  {
    OkExactly(cfg, e, now);
    hide Turn, TurnDefined, TagAtFront, QueueInv, ValidConfig;
    assert c.str <= e.fifo;
    hide Leads, View, Framed;
  }

  // A reply OK behind any run that brings it to its own turn.
  lemma OkComes(cfg: Config, l: Log, run: seq<Event>, now: nat, c: Catch)
    requires Good(cfg, l) && Coming(cfg, l.engine, c) && c.state in {Ok, ConnectOk} && l.engine.cmds != []
    requires Clean !in run && Ticks(run) + 1 == Stages(l.engine.state)
    ensures Legal(cfg, l, run) && Legal(cfg, l, run + [Tick(now)])
    ensures var e, f := Exec(cfg, l, run).engine, Exec(cfg, l, run + [Tick(now)]).engine;
            Grown(l.engine, e) && Answered(e, f, c)
  {
    ReplyComes(cfg, l, run, c);
    var m := Exec(cfg, l, run);
    hide Exec, Legal;
    ReplyTick(cfg, m, now, c);
    OneEvent(cfg, m, Tick(now));
    hide Good, Coming, Answered, After;
    RunsJoin(cfg, l, run, [Tick(now)]);
  }

  lemma ReplyTick(cfg: Config, m: Log, now: nat, c: Catch)
    requires Good(cfg, m) && Coming(cfg, m.engine, c) && Stages(m.engine.state) == 1
    requires c.state in {Ok, ConnectOk} && m.engine.cmds != []
    ensures Allowed(m, Tick(now)) && Answered(m.engine, After(cfg, m, Tick(now)).engine, c)
  {
    OkIsDefined(cfg, m.engine, c);
    OkIsTaken(cfg, m.engine, now, c);
    hide Answered, Coming, Turn, TurnDefined, Conserved, Placed, InOrder, Waiting, TagAtFront, QueueInv, ValidConfig;
  }

  lemma OkIsDefined(cfg: Config, e: Engine, c: Catch)
    requires Coming(cfg, e, c) && Stages(e.state) == 1 && c.state in {Ok, ConnectOk} && e.cmds != []
    ensures e.state == c.state && TurnDefined(e)
  {
    hide Inv, Leads, View;
  }

  // A command is sent at time t; within 10 ms a whole reply OK comes to stand at the front of the FIFO.
  // The first later turn reads, and three more take the reply out and count it against the command,
  // whatever else arrives and is ordered meanwhile.
  lemma CommandIsAnswered(cfg: Config, l: Log, t: nat, wait: seq<Event>, s: nat, take: seq<Event>, now: nat, c: Catch)
    requires Good(cfg, l) && TurnDefined(l.engine) && l.engine.state == WriteCmd && !l.engine.parsing
    requires Early(wait, t) && (s - t) % 0x1_0000_0000 > 10 && Clean !in take && Ticks(take) == 2
    requires c in cfg.table && c.state in {Ok, ConnectOk}
    requires Legal(cfg, l, [Tick(t)] + wait)
    requires var e := Exec(cfg, l, [Tick(t)] + wait).engine;
             |e.fifo| >= 2 && Framed(e) && Leads(cfg.table, View(e), c)
    ensures var sent := [Tick(t)] + wait + [Tick(s)];
            && Legal(cfg, l, sent + take) && Legal(cfg, l, sent + take + [Tick(now)])
            && var e, f := Exec(cfg, l, sent + take).engine, Exec(cfg, l, sent + take + [Tick(now)]).engine;
               && Answered(e, f, c) && e.busy == 1 && e.tick == t && l.engine.cmds <= e.cmds
               && Exec(cfg, l, [Tick(t)] + wait).engine.fifo <= e.fifo
  {
    var sent := [Tick(t)] + wait + [Tick(s)];
    hide Exec, Legal, Early, Leads, TurnDefined, View, Good;
    SentCommandWaits(cfg, l, t, wait, s);
    RunKeeps(cfg, l, sent);
    var m := Exec(cfg, l, sent);
    ReadingComes(cfg, m, Exec(cfg, l, [Tick(t)] + wait).engine, c);
    OkComes(cfg, m, take, now, c);
    hide Coming, Answered;
    RunsJoin(cfg, l, sent, take);
    RunsJoin(cfg, l, sent, take + [Tick(now)]);
    assert sent + (take + [Tick(now)]) == sent + take + [Tick(now)];
  }

  // Events that are no turns leave the state as it is.
  lemma {:induction false} NoTurns(cfg: Config, l: Log, run: seq<Event>)
    requires Good(cfg, l) && Clean !in run && Ticks(run) == 0
    ensures Legal(cfg, l, run) && Good(cfg, Exec(cfg, l, run))
    ensures var f := Exec(cfg, l, run).engine;
            Grown(l.engine, f) && f.state == l.engine.state && f.offset == l.engine.offset
    decreases |run|
  {
    if run != [] {
      assert run[0] in run;
      OthersGrow(cfg, l, run[0]);
      EventKeeps(cfg, l, run[0]);
      hide Good, After, Allowed;
      NoTurns(cfg, After(cfg, l, run[0]), run[1..]);
      GrownTwice(l.engine, After(cfg, l, run[0]).engine, Exec(cfg, l, run).engine);
    }
  }

  lemma DataTick(cfg: Config, l: Log, t: nat)
    requires Good(cfg, l) && TurnDefined(l.engine) && l.engine.state == WriteData
    ensures l.engine.cmds != [] && Turn(cfg, l.engine, t).writes == [l.engine.cmds[0].data]
    ensures Allowed(l, Tick(t))
    ensures After(cfg, l, Tick(t)).engine == l.engine.(state := Read, busy := 2, tick := t)
  {
    SendsExactly(cfg, l.engine, t);
    hide Conserved, Placed, InOrder, Waiting, TagAtFront, QueueInv, ValidConfig, Turn, TurnDefined;
  }

  // The data of a command is handed over at time t, and a whole reply OK comes to stand at the front of
  // the FIFO before the next turn.  Three turns take it out, and the engine is free.
  lemma DataIsAnswered(cfg: Config, l: Log, t: nat, wait: seq<Event>, take: seq<Event>, now: nat, c: Catch)
    requires Good(cfg, l) && TurnDefined(l.engine) && l.engine.state == WriteData && !l.engine.parsing
    requires Clean !in wait && Ticks(wait) == 0 && Clean !in take && Ticks(take) == 2
    requires c in cfg.table && c.state in {Ok, ConnectOk}
    requires Legal(cfg, l, [Tick(t)] + wait)
    requires var e := Exec(cfg, l, [Tick(t)] + wait).engine;
             |e.fifo| >= 2 && Framed(e) && Leads(cfg.table, View(e), c)
    ensures l.engine.cmds != [] && Turn(cfg, l.engine, t).writes == [l.engine.cmds[0].data]
    ensures var sent := [Tick(t)] + wait;
            && Legal(cfg, l, sent + take) && Legal(cfg, l, sent + take + [Tick(now)])
            && var e, f := Exec(cfg, l, sent + take).engine, Exec(cfg, l, sent + take + [Tick(now)]).engine;
               && Answered(e, f, c) && f.busy == 0 && e.tick == t && l.engine.cmds <= e.cmds
  {
    var sent := [Tick(t)] + wait;
    hide Exec, Legal, Leads, TurnDefined, View, Good, Turn;
    DataSent(cfg, l, t, wait);
    RunKeeps(cfg, l, sent);
    var m := Exec(cfg, l, sent);
    ReadingComes(cfg, m, m.engine, c);
    OkComes(cfg, m, take, now, c);
    hide Coming;
    RunsJoin(cfg, l, sent, take);
    RunsJoin(cfg, l, sent, take + [Tick(now)]);
    assert sent + (take + [Tick(now)]) == sent + take + [Tick(now)];
  }

  lemma DataSent(cfg: Config, l: Log, t: nat, wait: seq<Event>)
    requires Good(cfg, l) && TurnDefined(l.engine) && l.engine.state == WriteData
    requires Clean !in wait && Ticks(wait) == 0 && Legal(cfg, l, [Tick(t)] + wait)
    ensures l.engine.cmds != [] && Turn(cfg, l.engine, t).writes == [l.engine.cmds[0].data]
    ensures var f := Exec(cfg, l, [Tick(t)] + wait).engine;
            Grown(l.engine.(busy := 2, tick := t), f) && f.state == Read
  {
    hide Conserved, Placed, InOrder, Waiting, TagAtFront, QueueInv, ValidConfig, Turn, TurnDefined;
    DataTick(cfg, l, t);
    OneEvent(cfg, l, Tick(t));
    var m := After(cfg, l, Tick(t));
    hide Good, After, Exec, Legal, Allowed;
    NoTurns(cfg, m, wait);
    RunsJoin(cfg, l, [Tick(t)], wait);
  }

  lemma ReadingComes(cfg: Config, m: Log, e: Engine, c: Catch)
    requires Good(cfg, m) && m.engine == e.(state := Read) && Framed(e) && !e.parsing && |e.fifo| >= 2
    requires c in cfg.table && Leads(cfg.table, View(e), c)
    ensures Coming(cfg, m.engine, c)
  {
    hide Leads, Conserved, Placed, InOrder, Waiting, TagAtFront, QueueInv, ValidConfig;
    assert View(m.engine) == View(e);
  }

  // An engine that is free and has nothing to read sends the next command in three turns, if the
  // command's time is not up before.
  lemma NextCommandIsSent(cfg: Config, e: Engine, n0: nat, n1: nat, n2: nat)
    requires Inv(cfg, e) && e.state == Idle && e.fifo == [] && e.busy == 0 && e.cmds != []
    requires (n0 - e.tick) % 0x1_0000_0000 <= e.cmds[0].waitTime
    ensures TurnDefined(e) && Turn(cfg, e, n0) == Quiet(e.(state := Write))
    ensures var f := e.(state := Write);
            Framed(f) && TurnDefined(f) && Turn(cfg, f, n1) == Quiet(e.(state := WriteCmd))
    ensures var g := e.(state := WriteCmd);
            && Framed(g) && TurnDefined(g)
            && Turn(cfg, g, n2)
               == Outcome(e.(state := WriteCmdWait, busy := 1, tick := n2), Idle, [], [e.cmds[0].text])
  {
    IdleExactly(cfg, e, n0);
    WritingIsDefined(e.(state := Write));
    WritingIsDefined(e.(state := WriteCmd));
    hide Turn, TurnDefined, TagAtFront, QueueInv, ValidConfig;
    SendsExactly(cfg, e.(state := Write), n1);
    SendsExactly(cfg, e.(state := WriteCmd), n2);
  }

  lemma WritingIsDefined(e: Engine)
    requires Framed(e) && (e.state == Write || (e.state == WriteCmd && e.cmds != []))
    ensures TurnDefined(e)
  {
    hide View;
  }
}
