// A run of the AT engine that leads the code out of what the language defines: a frame header that
// arrives in two parts, cut behind its third digit.
module AtCut {
  import opened Basics
  import opened AtSpec
  import opened AtHeader
  import opened AtTags
  import opened AtRuns

  // "+IPD,123"
  const CUT: seq<byte> := [43, 73, 80, 68, 44, 49, 50, 51]

  // The run comes to a turn that is not defined after k events, in this state of the engine.
  ghost predicate StopsAt(cfg: Config, l: Log, run: seq<Event>, k: nat, e: Engine) {
    && Good(cfg, l) && k < |run| && DefinedUpTo(cfg, l, run) == k
    && Legal(cfg, l, run[..k]) && Exec(cfg, l, run[..k]).engine == e
  }

  lemma StopsHere(cfg: Config, l: Log, run: seq<Event>)
    requires Good(cfg, l) && run != [] && !Allowed(l, run[0])
    ensures StopsAt(cfg, l, run, 0, l.engine)
  {
    hide Good;
    assert run[..0] == [];
  }

  lemma StopsLater(cfg: Config, l: Log, run: seq<Event>, k: nat, e: Engine)
    requires Good(cfg, l) && run != [] && Allowed(l, run[0])
    requires StopsAt(cfg, After(cfg, l, run[0]), run[1..], k, e)
    ensures StopsAt(cfg, l, run, k + 1, e)
  {
    EventKeeps(cfg, l, run[0]);
    hide Good, After, Allowed;
    assert run[..k + 1][0] == run[0] && run[..k + 1][1..] == run[1..][..k];
  }

  // The engine with these bytes in the FIFO, in one of the states of the scan.
  function Scanning(state: State, offset: nat): Engine {
    CREATED.(fifo := CUT, state := state, offset := offset)
  }

  lemma CutIsScanned(cfg: Config, now: nat)
    requires ValidConfig(cfg) && cfg.table == [Catch(IpdData, IPD_TAG)]
    ensures Turn(cfg, Scanning(Idle, 0), now) == Quiet(Scanning(Read, 0))
    ensures Turn(cfg, Scanning(Read, 0), now) == Quiet(Scanning(ReadHead, 0))
    ensures Turn(cfg, Scanning(ReadHead, 0), now) == Quiet(Scanning(IpdData, 5))
  {
    hide ValidConfig, IpdDefined, CUT;
    CutTurn(cfg, Read, 0, now);
    CutTurn(cfg, ReadHead, 0, now);
    hide ReadTurn, View;
  }

  lemma CutTurn(cfg: Config, state: State, offset: nat, now: nat)
    requires ValidConfig(cfg) && cfg.table == [Catch(IpdData, IPD_TAG)] && state in {Read, ReadHead}
    ensures var e := Scanning(state, offset);
            Framed(e) && TurnDefined(e) && Turn(cfg, e, now)
            == Quiet(if state == Read then Scanning(ReadHead, 0) else Scanning(IpdData, 5))
  {
    var e := Scanning(state, offset);
    CutIsFound(cfg.table);
    assert CUT[..Min(FACTOR_LEN, 8)] == CUT && CUT[0..] == CUT;
    assert View(e) == CUT;
    hide FirstStart, HeadTag, ValidConfig, View, IpdDefined, CUT;
    TurnReads(cfg, e, now);
    hide Turn, ReadTurn;
  }

  lemma CutIsFound(table: seq<Catch>)
    requires table == [Catch(IpdData, IPD_TAG)]
    ensures FirstStart(table, CUT) == 0 && HeadTag(table, CUT) == Tag(table[0])
  {
    assert table[0].str[0] == CUT[0];
    assert Padded(CUT)[..5] == CUT[..5] == IPD_TAG;
  }

  lemma CutDigits()
    ensures CUT[5..] == [49, 50, 51] && AllDigits(CUT[5..]) && Value(CUT[5..]) > 0
  {
    var d := CUT[5..];
    assert d == [49, 50, 51];
    assert Value(d) >= Digit(51) > 0;
  }

  lemma CutIsCut()
    ensures CutHeader(CUT) && !IpdDefined(CUT)
  {
    hide Field, IpdDefined, Value, AllDigits;
    CutDigits();
    assert CUT[..5] == IPD_TAG;
    hide CutHeader;
    IpdUndefinedExactly(CUT);
  }

  lemma CutTurns()
    ensures View(Scanning(IpdData, 5)) == CUT
    ensures TurnDefined(Scanning(Idle, 0)) && TurnDefined(Scanning(Read, 0)) && TurnDefined(Scanning(ReadHead, 0))
    ensures Framed(Scanning(Read, 0)) && Framed(Scanning(ReadHead, 0)) && !TurnDefined(Scanning(IpdData, 5))
  {
    CutIsCut();
    hide IpdDefined;
    assert CUT[..Min(FACTOR_LEN, 8)] == CUT;
  }

  function WithEngine(e: Engine): Log {
    Log(e, CUT, [], [])
  }

  lemma QuietAfter(cfg: Config, e: Engine, f: Engine, now: nat)
    requires Inv(cfg, e) && TurnDefined(e) && Turn(cfg, e, now) == Quiet(f)
    ensures After(cfg, WithEngine(e), Tick(now)) == WithEngine(f)
  {
    hide Inv, Turn, TurnDefined;
  }

  // One more quiet turn in front of a run that stops.
  lemma TickThenStops(cfg: Config, e: Engine, f: Engine, now: nat, rest: seq<Event>, k: nat, g: Engine)
    requires Good(cfg, WithEngine(e)) && TurnDefined(e) && Turn(cfg, e, now) == Quiet(f)
    requires StopsAt(cfg, WithEngine(f), rest, k, g)
    ensures StopsAt(cfg, WithEngine(e), [Tick(now)] + rest, k + 1, g)
  {
    TurnKeeps(cfg, WithEngine(e), now);
    QuietAfter(cfg, e, f, now);
    hide Good, Turn, TurnDefined, StillThere, StopsAt, After;
    assert ([Tick(now)] + rest)[1..] == rest;
    StopsLater(cfg, WithEngine(e), [Tick(now)] + rest, k, g);
  }

  lemma CutArrives(cfg: Config)
    requires ValidConfig(cfg) && cfg.size >= 8
    ensures Good(cfg, CREATED_LOG)
    ensures After(cfg, CREATED_LOG, Arrive(CUT)) == WithEngine(Scanning(Idle, 0))
    ensures Good(cfg, WithEngine(Scanning(Idle, 0)))
  {
    CreatedIsGood(cfg);
    ArriveKeeps(cfg, CREATED_LOG, CUT);
    hide Good;
    assert [] + CUT[..8] == CUT && CUT[0..] == CUT;
  }

  // A frame header that arrives cut off behind its third digit, and three turns after it: the
  // fourth turn finds it in view, and is not defined.
  lemma CutHeaderIsReached(cfg: Config, now: nat)
    requires ValidConfig(cfg) && cfg.size >= 8 && cfg.table == [Catch(IpdData, IPD_TAG)]
    ensures var ticks := [Tick(now)] + ([Tick(now)] + ([Tick(now)] + [Tick(now)]));
            StopsAt(cfg, CREATED_LOG, [Arrive(CUT)] + ticks, 4, Scanning(IpdData, 5))
    ensures View(Scanning(IpdData, 5)) == CUT && CutHeader(CUT)
  {
    var t, g := Tick(now), Scanning(IpdData, 5);
    CutIsScanned(cfg, now);
    CutIsCut();
    CutArrives(cfg);
    CutTurns();
    hide Turn, TurnDefined, StopsAt, View, CutHeader, ValidConfig, Good;
    StopsAfterThree(cfg, now, Scanning(Idle, 0), Scanning(Read, 0), Scanning(ReadHead, 0), g);
    assert ([Arrive(CUT)] + ([t] + ([t] + ([t] + [t]))))[1..] == [t] + ([t] + ([t] + [t]));
    StopsLater(cfg, CREATED_LOG, [Arrive(CUT)] + ([t] + ([t] + ([t] + [t]))), 3, g);
  }

  lemma StopsAfterThree(cfg: Config, now: nat, e0: Engine, e1: Engine, e2: Engine, g: Engine)
    requires Good(cfg, WithEngine(e0)) && Framed(e1) && Framed(e2) && Framed(g)
    requires TurnDefined(e0) && Turn(cfg, e0, now) == Quiet(e1)
    requires TurnDefined(e1) && Turn(cfg, e1, now) == Quiet(e2)
    requires TurnDefined(e2) && Turn(cfg, e2, now) == Quiet(g) && !TurnDefined(g)
    ensures var t := Tick(now); StopsAt(cfg, WithEngine(e0), [t] + ([t] + ([t] + [t])), 3, g)
  {
    hide Turn, TurnDefined, StopsAt, View, WithEngine, Conserved, Placed, InOrder, Waiting, TagAtFront, QueueInv;
    var t := Tick(now);
    QuietKeepsGood(cfg, e0, e1, now);
    QuietKeepsGood(cfg, e1, e2, now);
    QuietKeepsGood(cfg, e2, g, now);
    TurnStops(cfg, g, now);
    hide Good;
    TickThenStops(cfg, e2, g, now, [t], 0, g);
    TickThenStops(cfg, e1, e2, now, [t] + [t], 1, g);
    TickThenStops(cfg, e0, e1, now, [t] + ([t] + [t]), 2, g);
  }

  lemma TurnStops(cfg: Config, g: Engine, now: nat)
    requires Good(cfg, WithEngine(g)) && !TurnDefined(g)
    ensures StopsAt(cfg, WithEngine(g), [Tick(now)], 0, g)
  {
    StopsHere(cfg, WithEngine(g), [Tick(now)]);
  }

  lemma QuietKeepsGood(cfg: Config, e: Engine, f: Engine, now: nat)
    requires Good(cfg, WithEngine(e)) && TurnDefined(e) && Turn(cfg, e, now) == Quiet(f)
    ensures Good(cfg, WithEngine(f))
  {
    TurnKeeps(cfg, WithEngine(e), now);
    QuietAfter(cfg, e, f, now);
    hide Good, Turn, TurnDefined, StillThere, After;
  }
}
