// The loop of _read_handle and the call of HyAtUtilsProcess, as turns one after the other.
module AtEngine {
  import opened Basics
  import opened AtSpec
  import opened AtTags
  import opened AtQueue
  import opened AtRuns

  // ---- The loop of _read_handle ---------------------------------------------------------------

  lemma ParsingGoesOn(cfg: Config, e: Engine)
    requires Inv(cfg, e) && TurnDefined(e) && IsRead(e.state)
    ensures var f := ReadTurn(cfg, e).engine;
            && Inv(cfg, f)
            && (f.parsing && View(e) != [] ==> IsRead(f.state) && TurnDefined(f) && |f.fifo| < |e.fifo|)
  {
    TurnKeepsInv(cfg, e, 0);
    hide Inv;
    if e.parsing && View(e) != [] {
      assert ReadTurn(cfg, e) == MoreFrameTurn(e.(state := IpdData), View(e));
    } else if View(e) != [] {
      NewParsing(cfg, e);
    }
  }

  lemma OthersDoNotBegin(cfg: Config, e: Engine, v: seq<byte>)
    requires ValidConfig(cfg) && Framed(e) && TurnDefined(e) && IsRead(e.state) && !e.parsing
    requires v == View(e) && v != [] && e.state != IpdData
    ensures !SwitchTurn(cfg, e, v).engine.parsing
  {
    hide View, ValidConfig, Framed, HeadTag, FirstStart, SignalLen;
  }

  lemma NewParsing(cfg: Config, e: Engine)
    requires ValidConfig(cfg) && Framed(e) && TurnDefined(e) && IsRead(e.state) && !e.parsing && View(e) != []
    ensures var f := ReadTurn(cfg, e).engine;
            f.parsing ==> f.state == IpdData && f.fifo == e.fifo[|View(e)|..]
  {
    if e.state == IpdData {
      hide IpdRefused, IpdDataLen, IpdFormatLen, Overlay, ValidConfig;
    } else {
      hide SwitchTurn;
      OthersDoNotBegin(cfg, e, View(e));
    }
  }

  // The result of the later round counts, if it sets one.
  function Joined(o: Outcome, p: Outcome): Outcome {
    Outcome(p.engine, if p.ret != Idle then p.ret else o.ret, o.frames + p.frames, o.writes + p.writes)
  }

  function ReadHandle(cfg: Config, e: Engine): Outcome
    requires Inv(cfg, e) && TurnDefined(e) && IsRead(e.state)
    decreases |e.fifo|
  {
    ParsingGoesOn(cfg, e);
    var o := ReadTurn(cfg, e);
    if o.engine.parsing && View(e) != [] then Joined(o, ReadHandle(cfg, o.engine)) else o
  }

  // How far the loop has come: its whole result, and what is collected so far.
  ghost predicate Remains(cfg: Config, total: Outcome, e: Engine, ret: State, frames: seq<Frame>, more: bool)
    requires Inv(cfg, e) && (more ==> TurnDefined(e) && IsRead(e.state))
  {
    total == if more then Joined(Outcome(e, ret, frames, []), ReadHandle(cfg, e)) else Outcome(e, ret, frames, [])
  }

  lemma LoopStarts(cfg: Config, e: Engine)
    requires Inv(cfg, e) && TurnDefined(e) && IsRead(e.state)
    ensures Remains(cfg, ReadHandle(cfg, e), e, Idle, [], true)
  {
  }

  lemma ReadWritesNothing(cfg: Config, e: Engine)
    requires Inv(cfg, e) && TurnDefined(e) && IsRead(e.state)
    ensures ReadTurn(cfg, e).writes == []
  {
    hide Inv, HeadTag, FirstStart, View, IpdRefused, IpdFormatLen, IpdDataLen, SignalLen, Overlay, Drop;
  }

  lemma LoopGoesOn(cfg: Config, total: Outcome, e: Engine, ret: State, frames: seq<Frame>)
    requires Inv(cfg, e) && TurnDefined(e) && IsRead(e.state) && Remains(cfg, total, e, ret, frames, true)
    ensures var o := ReadTurn(cfg, e); var more := o.engine.parsing && View(e) != [];
            && Inv(cfg, o.engine) && (more ==> TurnDefined(o.engine) && IsRead(o.engine.state))
            && Remains(cfg, total, o.engine, if o.ret != Idle then o.ret else ret, frames + o.frames, more)
  {
    ParsingGoesOn(cfg, e);
    ReadWritesNothing(cfg, e);
    hide Inv, ReadTurn, TurnDefined;
    var o := ReadTurn(cfg, e);
    if o.engine.parsing && View(e) != [] {
      JoinTwice(e, ret, frames, o, ReadHandle(cfg, o.engine));
      hide Joined;
    }
  }

  lemma JoinTwice(e: Engine, ret: State, frames: seq<Frame>, o: Outcome, p: Outcome)
    requires o.writes == []
    ensures Joined(Outcome(e, ret, frames, []), Joined(o, p))
            == Joined(Outcome(o.engine, if o.ret != Idle then o.ret else ret, frames + o.frames, []), p)
  {
    Joins(frames, o.frames, p.frames);
  }

  lemma LoopEnds(cfg: Config, total: Outcome, e: Engine, ret: State, frames: seq<Frame>)
    requires Inv(cfg, e) && Remains(cfg, total, e, ret, frames, false)
    ensures total == Outcome(e, ret, frames, [])
  {
  }

  // What the turns that do not read report.
  lemma OtherWrites(cfg: Config, e: Engine, now: nat)
    requires Framed(e) && TurnDefined(e)
    ensures e.state == Idle ==> IdleTurn(e, now).frames == [] && IdleTurn(e, now).writes == []
    ensures e.state != Idle && !IsRead(e.state) ==> WriteTurn(e, now).frames == [] && WriteTurn(e, now).ret == Idle
  {
    hide Since;
  }

  // HyAtUtilsProcess
  function Process(cfg: Config, e: Engine, now: nat): Outcome
    requires Inv(cfg, e) && TurnDefined(e)
  {
    if IsRead(e.state) then ReadHandle(cfg, e) else Turn(cfg, e, now)
  }

  function FramesOf(got: seq<Got>): (f: seq<Frame>)
    ensures |f| == |got| && forall i :: 0 <= i < |got| ==> f[i] == Frame(got[i].kind, got[i].payload)
  {
    seq(|got|, i requires 0 <= i < |got| => Frame(got[i].kind, got[i].payload))
  }

  lemma FramesOfTurn(l: Log, o: Outcome)
    ensures FramesOf(Logged(l, o).got) == FramesOf(l.got) + o.frames
  {
  }

  // A call of HyAtUtilsProcess is a run of turns, so all that holds of runs holds of its calls,
  // with bytes arriving between them or between the rounds of its loop.
  lemma {:induction false} ProcessIsTurns(cfg: Config, l: Log, now: nat) returns (run: seq<Event>)
    requires Good(cfg, l) && TurnDefined(l.engine)
    ensures run != [] && Legal(cfg, l, run) && forall ev :: ev in run ==> ev == Tick(now)
    ensures Exec(cfg, l, run).engine == Process(cfg, l.engine, now).engine
    ensures FramesOf(Exec(cfg, l, run).got) == FramesOf(l.got) + Process(cfg, l.engine, now).frames
    decreases |l.engine.fifo|
  {
    hide Good, ReadTurn, TurnDefined, FramesOf, After, Legal, Exec;
    run := [Tick(now)];
    EventKeeps(cfg, l, Tick(now));
    TickLogs(cfg, l, now);
    var m, o := After(cfg, l, Tick(now)), Turn(cfg, l.engine, now);
    OneTurn(cfg, l, now);
    FramesOfTurn(l, o);
    ProcessUnfolds(cfg, l.engine, now);
    hide Process, Turn, Inv, View;
    if IsRead(l.engine.state) && o.engine.parsing && View(l.engine) != [] {
      var rest := ProcessIsTurns(cfg, m, now);
      run := [Tick(now)] + rest;
      TurnThenRun(cfg, l, now, rest);
      Joins(FramesOf(l.got), o.frames, Process(cfg, m.engine, now).frames);
    }
  }

  lemma Joins(x: seq<Frame>, y: seq<Frame>, z: seq<Frame>)
    ensures x + y + z == x + (y + z)
  {
  }

  lemma ProcessUnfolds(cfg: Config, e: Engine, now: nat)
    requires Inv(cfg, e) && TurnDefined(e)
    ensures var o := Turn(cfg, e, now);
            if IsRead(e.state) && o.engine.parsing && View(e) != [] then
              && Inv(cfg, o.engine) && TurnDefined(o.engine) && |o.engine.fifo| < |e.fifo|
              && Process(cfg, e, now) == Joined(o, Process(cfg, o.engine, now))
            else Process(cfg, e, now) == o
  {
    if IsRead(e.state) {
      ParsingGoesOn(cfg, e);
      TurnReads(cfg, e, now);
      hide Inv, Turn, ReadTurn, TurnDefined, View, Joined;
    }
  }

  lemma BegunReportsNothing(cfg: Config, e: Engine)
    requires ValidConfig(cfg) && Framed(e) && TurnDefined(e) && IsRead(e.state)
    requires e.parsing || ReadTurn(cfg, e).engine.parsing
    ensures ReadTurn(cfg, e).ret == Idle
  {
    hide ValidConfig, HeadTag, FirstStart, View, IpdRefused, IpdDataLen, IpdFormatLen, SignalLen, Overlay;
    hide Starts, CString, Field;
  }

  // A call reports and sends what its first turn does; the rounds that follow a begun frame add to the
  // frames only.
  lemma {:induction false} ProcessReports(cfg: Config, e: Engine, now: nat)
    requires Inv(cfg, e) && TurnDefined(e)
    ensures Process(cfg, e, now).ret == Turn(cfg, e, now).ret
    ensures Process(cfg, e, now).writes == Turn(cfg, e, now).writes
    decreases |e.fifo|
  {
    hide TagAtFront, QueueInv, ValidConfig, ReadTurn, TurnDefined, View;
    ProcessUnfolds(cfg, e, now);
    var o := Turn(cfg, e, now);
    hide Process;
    if IsRead(e.state) && o.engine.parsing && View(e) != [] {
      ParsingGoesOn(cfg, e);
      BegunReportsNothing(cfg, e);
      BegunReportsNothing(cfg, o.engine);
      ReadWritesNothing(cfg, e);
      ReadWritesNothing(cfg, o.engine);
      ProcessReports(cfg, o.engine, now);
    }
  }

  lemma TickLogs(cfg: Config, l: Log, now: nat)
    requires Good(cfg, l) && TurnDefined(l.engine)
    ensures Inv(cfg, l.engine) && After(cfg, l, Tick(now)) == Logged(l, Turn(cfg, l.engine, now))
    ensures IsRead(l.engine.state) ==> Turn(cfg, l.engine, now) == ReadTurn(cfg, l.engine)
  {
    hide Inv, Placed, InOrder, Waiting, Conserved, ReadTurn, Logged;
  }

  lemma OneTurn(cfg: Config, l: Log, now: nat)
    requires Good(cfg, l) && TurnDefined(l.engine)
    ensures Legal(cfg, l, [Tick(now)]) && Exec(cfg, l, [Tick(now)]) == After(cfg, l, Tick(now))
  {
    EventKeeps(cfg, l, Tick(now));
    hide Good, After, TurnDefined;
    assert [Tick(now)][1..] == [];
  }

  lemma TurnThenRun(cfg: Config, l: Log, now: nat, rest: seq<Event>)
    requires Good(cfg, l) && TurnDefined(l.engine) && Good(cfg, After(cfg, l, Tick(now)))
    requires Legal(cfg, After(cfg, l, Tick(now)), rest)
    ensures Legal(cfg, l, [Tick(now)] + rest)
    ensures Exec(cfg, l, [Tick(now)] + rest) == Exec(cfg, After(cfg, l, Tick(now)), rest)
  {
    hide Good, After, TurnDefined;
    assert ([Tick(now)] + rest)[1..] == rest;
  }

  // A begun frame is completed with the bytes it misses.
  ghost predicate Completes(e: Engine, o: Outcome) {
    && e.union.Some? && e.frameSum <= |e.union.value| <= e.frameSum + |e.fifo|
    && var missing := |e.union.value| - e.frameSum;
       && o.frames == [Frame(1, e.union.value[..e.frameSum] + e.fifo[..missing])]
       && o.engine.fifo == e.fifo[missing..] && !o.engine.parsing
  }

  // A begun frame takes the bytes of v and goes on waiting.
  ghost predicate Takes(e: Engine, o: Outcome, v: seq<byte>) {
    && e.union.Some? && o.engine.union.Some? && o.frames == [] && o.engine.parsing
    && |o.engine.union.value| == |e.union.value| && o.engine.frameSum == e.frameSum + |v|
    && o.engine.frameSum < |e.union.value|
    && o.engine.union.value[..o.engine.frameSum] == e.union.value[..e.frameSum] + v
    && e.fifo == v + o.engine.fifo
  }

  lemma OneRound(cfg: Config, e: Engine)
    requires Inv(cfg, e) && IsRead(e.state) && e.parsing
    ensures var o := ReadTurn(cfg, e); Completes(e, o) || Takes(e, o, View(e))
  {
    hide TagAtFront, QueueInv, ValidConfig;
    var v := View(e);
    var u := Overlay(e.union.value, e.frameSum, v);
    assert u == u[..|u|];
    assert e.fifo == v + e.fifo[|v|..];
    assert e.union.value[..e.frameSum] == e.union.value[..e.frameSum] + [];
  }

  lemma TakesThenCompletes(e: Engine, o: Outcome, p: Outcome, v: seq<byte>)
    requires Takes(e, o, v) && Completes(o.engine, p)
    ensures Completes(e, Joined(o, p))
  {
    var missing, rest := |e.union.value| - e.frameSum, |e.union.value| - o.engine.frameSum;
    assert e.fifo[..missing] == v + o.engine.fifo[..rest];
    assert e.fifo[missing..] == o.engine.fifo[rest..];
    assert e.union.value[..e.frameSum] + v + o.engine.fifo[..rest] == e.union.value[..e.frameSum] + e.fifo[..missing];
  }

  lemma TakesThenTakes(e: Engine, o: Outcome, p: Outcome, v: seq<byte>, w: seq<byte>)
    requires Takes(e, o, v) && Takes(o.engine, p, w)
    ensures Takes(e, Joined(o, p), v + w)
  {
    assert e.fifo == v + w + p.engine.fifo == (v + w) + p.engine.fifo;
  }

  // A call that finds a frame begun reads on until the frame is complete or the FIFO is empty.
  lemma {:induction false} ReadsOn(cfg: Config, e: Engine)
    requires Inv(cfg, e) && IsRead(e.state) && e.parsing && TurnDefined(e)
    ensures var o := ReadHandle(cfg, e);
            if |e.fifo| >= |e.union.value| - e.frameSum then Completes(e, o)
            else Takes(e, o, e.fifo) && o.engine.fifo == []
    decreases |e.fifo|
  {
    var o, v := ReadTurn(cfg, e), View(e);
    ParsingGoesOn(cfg, e);
    OneRound(cfg, e);
    hide Inv, ReadTurn, TurnDefined, Framed, View;
    if o.engine.parsing && v != [] {
      ReadsOn(cfg, o.engine);
      var p := ReadHandle(cfg, o.engine);
      if |o.engine.fifo| >= |o.engine.union.value| - o.engine.frameSum {
        TakesThenCompletes(e, o, p, v);
      } else {
        TakesThenTakes(e, o, p, v, o.engine.fifo);
      }
    }
  }
}
