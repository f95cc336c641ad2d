// Whole runs of the AT engine: bytes put in pieces of any size, turns, commands and cleanings
// in any order.
module AtRuns {
  import opened Basics
  import opened AtSpec
  import opened AtTags
  import opened AtHeader
  import opened AtFrames
  import opened AtQueue

  // A frame that was delivered, and where its first byte stands in the accepted stream.
  datatype Got = Got(at: int, kind: nat, payload: seq<byte>)

  // The engine with its history: every byte the FIFO has accepted, every frame delivered, and
  // every command accepted.
  datatype Log = Log(engine: Engine, stream: seq<byte>, got: seq<Got>, issued: seq<(seq<byte>, seq<byte>)>)

  datatype Event =
    | Arrive(bytes: seq<byte>)
    | Tick(now: nat)
    | Order(text: seq<byte>, data: seq<byte>, waitTime: nat, retry: Retry)
    | Clean

  // The number of bytes that have left the FIFO.
  function Pos(l: Log): int {
    |l.stream| - |l.engine.fifo|
  }

  function Located(end: int, frames: seq<Frame>): (g: seq<Got>)
    ensures |g| == |frames|
  {
    seq(|frames|, i requires 0 <= i < |frames| => Got(end - |frames[i].payload|, frames[i].kind, frames[i].payload))
  }

  predicate Allowed(l: Log, ev: Event)
    requires Framed(l.engine)
  {
    ev.Tick? ==> TurnDefined(l.engine)
  }

  ghost function After(cfg: Config, l: Log, ev: Event): Log
    requires Inv(cfg, l.engine) && Allowed(l, ev)
  {
    match ev
    case Arrive(bytes) =>
      var f := PutData(cfg, l.engine, bytes);
      l.(engine := f, stream := l.stream + f.fifo[|l.engine.fifo|..])
    case Tick(now) =>
      Logged(l, Turn(cfg, l.engine, now))
    case Order(text, data, waitTime, retry) =>
      if Refuses(cfg, l.engine) then l
      else l.(engine := AtSpec.Issue(cfg, l.engine, text, data, waitTime, retry), issued := l.issued + [(text, data)])
    case Clean =>
      l.(engine := Cleaned(l.engine))
  }

  // ---- The invariant of runs ------------------------------------------------------------------

  // The frame is what the stream holds at its place: for kind 1 the bytes behind a header that
  // announces exactly their number, for kind 0 the bytes before an "OK".
  ghost predicate Placed(stream: seq<byte>, g: Got) {
    && 0 <= g.at <= g.at + |g.payload| <= |stream|
    && stream[g.at..g.at + |g.payload|] == g.payload
    && (g.kind == 1 ==> EndsInHeader(stream[..g.at], |g.payload|))
    && (g.kind == 0 ==> OK_TEXT <= stream[g.at + |g.payload|..])
  }

  // A frame of n bytes has been begun, with its first byte at this place of the stream.
  ghost predicate Waiting(l: Log, at: int, n: nat) {
    && l.engine.union.Some? && |l.engine.union.value| == n
    && 0 <= at && at + l.engine.frameSum == Pos(l) && l.engine.frameSum < n
    && l.stream[at..Pos(l)] == l.engine.union.value[..l.engine.frameSum]
    && EndsInHeader(l.stream[..at], n)
  }

  // The bytes that have left the FIFO and the bytes still there are the accepted stream.
  ghost predicate Conserved(l: Log) {
    0 <= Pos(l) && l.stream[Pos(l)..] == l.engine.fifo
  }

  // No byte is delivered twice.
  ghost predicate InOrder(got: seq<Got>, end: int) {
    && (forall i, j :: 0 <= i < j < |got| ==> got[i].at + |got[i].payload| <= got[j].at)
    && forall i :: 0 <= i < |got| ==> got[i].at + |got[i].payload| <= end
  }

  ghost predicate Good(cfg: Config, l: Log) {
    && Inv(cfg, l.engine) && Conserved(l)
    && (forall i :: 0 <= i < |l.got| ==> Placed(l.stream, l.got[i]))
    && InOrder(l.got, Pos(l) - l.engine.frameSum)
    && (l.engine.union.Some? ==> Waiting(l, Pos(l) - l.engine.frameSum, |l.engine.union.value|))
  }

  // The commands in the queue are the last ones accepted, in the order they came in.
  ghost predicate QueueOfIssued(l: Log) {
    && |l.engine.cmds| <= |l.issued|
    && Texts(l.engine.cmds) == l.issued[|l.issued| - |l.engine.cmds|..]
  }

  lemma PlacedAfterMore(stream: seq<byte>, more: seq<byte>, g: Got)
    requires Placed(stream, g)
    ensures Placed(stream + more, g)
  {
    hide EndsInHeader;
    var s := stream + more;
    assert s[..g.at] == stream[..g.at];
    assert s[g.at..g.at + |g.payload|] == stream[g.at..g.at + |g.payload|];
    assert s[g.at + |g.payload|..] == stream[g.at + |g.payload|..] + more;
  }

  lemma ArriveKeeps(cfg: Config, l: Log, bytes: seq<byte>)
    requires Good(cfg, l)
    ensures Good(cfg, After(cfg, l, Arrive(bytes)))
  {
    hide Placed, InOrder, EndsInHeader;
    var m := After(cfg, l, Arrive(bytes));
    var more := m.engine.fifo[|l.engine.fifo|..];
    PutKeepsInv(cfg, l.engine, bytes);
    hide Inv;
    assert m.stream == l.stream + more && Pos(m) == Pos(l);
    assert m.stream[Pos(l)..] == l.stream[Pos(l)..] + more;
    forall i | 0 <= i < |m.got|
      ensures Placed(m.stream, m.got[i])
    {
      PlacedAfterMore(l.stream, more, l.got[i]);
    }
    if l.engine.union.Some? {
      var at := Pos(l) - l.engine.frameSum;
      assert m.stream[..at] == l.stream[..at];
      assert m.stream[at..Pos(l)] == l.stream[at..Pos(l)];
    }
  }

  // What a turn takes out of the FIFO is the next part of the stream.
  lemma NextPart(l: Log, f: Engine)
    requires Conserved(l) && TakesFront(l.engine, f)
    ensures var t := Taken(l.engine, f); var p := |l.stream| - |f.fifo|;
            && p == Pos(l) + |t| && l.stream[Pos(l)..p] == t && l.stream[p..] == f.fifo
  {
    var t, p := Taken(l.engine, f), |l.stream| - |f.fifo|;
    assert l.engine.fifo[..|t|] == t && l.engine.fifo[|t|..] == f.fifo;
    assert l.stream[Pos(l)..][..|t|] == l.stream[Pos(l)..p];
    assert l.stream[Pos(l)..][|t|..] == l.stream[p..];
  }

  lemma StaysConserved(l: Log, f: Engine)
    requires Conserved(l) && TakesFront(l.engine, f)
    ensures forall m: Log :: m.engine == f && m.stream == l.stream ==> Conserved(m)
  {
    NextPart(l, f);
  }

  lemma HeaderInStream(l: Log, t: seq<byte>, h: nat, n: nat, p: seq<byte>)
    requires Conserved(l) && Pos(l) + |t| <= |l.stream| && l.stream[Pos(l)..Pos(l) + |t|] == t
    requires Split(t, h, n, p)
    ensures |t| == h + |p| && EndsInHeader(l.stream[..Pos(l) + h], n)
    ensures l.stream[Pos(l) + h..Pos(l) + h + |p|] == p
  {
    hide IsHeader;
    var q := Pos(l);
    assert l.stream[..q + h][q..] == l.stream[q..q + |t|][..h];
    assert l.stream[q + h..q + |t|] == l.stream[q..q + |t|][h..];
  }

  lemma WholeIsPlaced(l: Log, o: Outcome)
    requires Conserved(l) && TakesFront(l.engine, o.engine) && Whole(l.engine, o)
    ensures var g := Located(|l.stream| - |o.engine.fifo|, o.frames);
            |g| == 1 && Placed(l.stream, g[0]) && Pos(l) <= g[0].at
    ensures var g := Located(|l.stream| - |o.engine.fifo|, o.frames);
            g[0].at + |g[0].payload| == |l.stream| - |o.engine.fifo|
  {
    hide Split, EndsInHeader;
    NextPart(l, o.engine);
    var t, p := Taken(l.engine, o.engine), o.frames[0].payload;
    var h: nat :| Split(t, h, |p|, p);
    hide TakesFront, Taken;
    HeaderInStream(l, t, h, |p|, p);
    assert Located(|l.stream| - |o.engine.fifo|, o.frames)[0] == Got(Pos(l) + h, 1, p);
  }

  lemma FinishedIsPlaced(l: Log, o: Outcome)
    requires Conserved(l) && TakesFront(l.engine, o.engine) && Finishes(l.engine, o)
    requires Waiting(l, Pos(l) - l.engine.frameSum, |l.engine.union.value|)
    ensures var g := Located(|l.stream| - |o.engine.fifo|, o.frames);
            |g| == 1 && Placed(l.stream, g[0]) && g[0].at == Pos(l) - l.engine.frameSum && g[0].kind == 1
    ensures var g := Located(|l.stream| - |o.engine.fifo|, o.frames);
            g[0].at + |g[0].payload| == |l.stream| - |o.engine.fifo| && |g[0].payload| == |l.engine.union.value|
  {
    hide EndsInHeader;
    NextPart(l, o.engine);
    var at, p, q := Pos(l) - l.engine.frameSum, Pos(l), |l.stream| - |o.engine.fifo|;
    assert l.stream[at..q] == l.stream[at..p] + l.stream[p..q];
  }

  lemma SignalIsPlaced(l: Log, o: Outcome)
    requires Conserved(l) && TakesFront(l.engine, o.engine) && Signals(l.engine, o)
    ensures var g := Located(|l.stream| - |o.engine.fifo|, o.frames);
            |g| == 1 && Placed(l.stream, g[0]) && Pos(l) <= g[0].at
    ensures var g := Located(|l.stream| - |o.engine.fifo|, o.frames);
            g[0].at + |g[0].payload| == |l.stream| - |o.engine.fifo|
  {
    NextPart(l, o.engine);
  }

  lemma BegunIsWaiting(l: Log, o: Outcome)
    requires Conserved(l) && TakesFront(l.engine, o.engine) && Begins(l.engine, o)
    ensures Waiting(l.(engine := o.engine), |l.stream| - |o.engine.fifo| - o.engine.frameSum, |o.engine.union.value|)
    ensures Pos(l) <= |l.stream| - |o.engine.fifo| - o.engine.frameSum
  {
    hide Split, EndsInHeader;
    NextPart(l, o.engine);
    var t, u, k := Taken(l.engine, o.engine), o.engine.union.value, o.engine.frameSum;
    var h: nat :| Split(t, h, |u|, u[..k]);
    hide TakesFront, Taken;
    HeaderInStream(l, t, h, |u|, u[..k]);
  }

  lemma GrownIsWaiting(l: Log, o: Outcome)
    requires Conserved(l) && TakesFront(l.engine, o.engine) && Grows(l.engine, o)
    requires Waiting(l, Pos(l) - l.engine.frameSum, |l.engine.union.value|)
    ensures Waiting(l.(engine := o.engine), Pos(l) - l.engine.frameSum, |l.engine.union.value|)
    ensures |l.stream| - |o.engine.fifo| - o.engine.frameSum == Pos(l) - l.engine.frameSum
  {
    hide EndsInHeader;
    NextPart(l, o.engine);
    var at, p, q := Pos(l) - l.engine.frameSum, Pos(l), |l.stream| - |o.engine.fifo|;
    assert |o.engine.union.value[..o.engine.frameSum]| == l.engine.frameSum + |Taken(l.engine, o.engine)|;
    assert l.stream[at..q] == l.stream[at..p] + l.stream[p..q];
  }

  lemma OneMoreInOrder(got: seq<Got>, end: int, g: seq<Got>)
    requires |g| == 1 && InOrder(got, end) && end <= g[0].at
    ensures InOrder(got + g, g[0].at + |g[0].payload|)
  {
  }

  lemma GoodWithFrame(cfg: Config, l: Log, f: Engine, g: seq<Got>)
    requires Good(cfg, l) && Inv(cfg, f) && f.union.None? && TakesFront(l.engine, f)
    requires |g| == 1 && Placed(l.stream, g[0]) && Pos(l) - l.engine.frameSum <= g[0].at
    requires g[0].at + |g[0].payload| == |l.stream| - |f.fifo|
    ensures Good(cfg, l.(engine := f, got := l.got + g))
  {
    assert f.frameSum == 0;
    hide Inv, Placed, Waiting, TakesFront, InOrder, Conserved;
    var m := l.(engine := f, got := l.got + g);
    StaysConserved(l, f);
    OneMoreInOrder(l.got, Pos(l) - l.engine.frameSum, g);
    assert Pos(m) == |l.stream| - |f.fifo|;
    hide Pos;
    forall i | 0 <= i < |m.got|
      ensures Placed(m.stream, m.got[i])
    {
      assert m.got[i] == if i < |l.got| then l.got[i] else g[0];
    }
  }

  lemma GoodWithoutFrame(cfg: Config, l: Log, f: Engine)
    requires Good(cfg, l) && Inv(cfg, f) && TakesFront(l.engine, f)
    requires Pos(l) - l.engine.frameSum <= |l.stream| - |f.fifo| - f.frameSum
    requires f.union.Some? ==> Waiting(l.(engine := f), |l.stream| - |f.fifo| - f.frameSum, |f.union.value|)
    ensures Good(cfg, l.(engine := f))
  {
    hide Inv, Placed, Waiting, TakesFront, Conserved, InOrder;
    var m := l.(engine := f);
    StaysConserved(l, f);
    assert Pos(m) == |l.stream| - |f.fifo|;
    LaterInOrder(l.got, Pos(l) - l.engine.frameSum, Pos(m) - f.frameSum);
    hide Pos;
  }

  lemma LaterInOrder(got: seq<Got>, end: int, later: int)
    requires InOrder(got, end) && end <= later
    ensures InOrder(got, later)
  {
  }

  lemma SameWaiting(l: Log, f: Engine, at: int, n: nat)
    requires Waiting(l, at, n)
    requires f.union == l.engine.union && f.frameSum == l.engine.frameSum && f.fifo == l.engine.fifo
    ensures Waiting(l.(engine := f), at, n)
  {
    hide EndsInHeader;
  }

  lemma QuietFacts(e: Engine, o: Outcome)
    requires TakesFront(e, o.engine) && NoFrame(e, o)
    ensures |o.engine.fifo| <= |e.fifo| && o.engine.union == e.union && o.engine.frameSum == e.frameSum
    ensures e.union.Some? ==> o.engine.fifo == e.fifo
  {
  }

  lemma QuietTurn(cfg: Config, l: Log, o: Outcome)
    requires Good(cfg, l) && Inv(cfg, o.engine) && TakesFront(l.engine, o.engine) && NoFrame(l.engine, o)
    ensures Good(cfg, l.(engine := o.engine))
    ensures l.engine.union.Some? ==>
              Waiting(l.(engine := o.engine), Pos(l) - l.engine.frameSum, |l.engine.union.value|)
  {
    hide Inv, Placed, InOrder, Waiting, Conserved, TakesFront, NoFrame;
    QuietFacts(l.engine, o);
    if l.engine.union.Some? {
      SameWaiting(l, o.engine, Pos(l) - l.engine.frameSum, |l.engine.union.value|);
    }
    GoodWithoutFrame(cfg, l, o.engine);
  }

  // The log after a turn with this outcome.
  function Logged(l: Log, o: Outcome): Log {
    l.(engine := o.engine, got := l.got + Located(|l.stream| - |o.engine.fifo|, o.frames))
  }

  ghost predicate Turned(cfg: Config, l: Log, o: Outcome) {
    Good(cfg, l) && Inv(cfg, o.engine) && TakesFront(l.engine, o.engine)
  }

  // A frame that was waiting still is, or has been delivered.
  ghost predicate StillThere(l: Log, m: Log) {
    var at := Pos(l) - l.engine.frameSum;
    l.engine.union.Some? ==>
      var n := |l.engine.union.value|; Waiting(m, at, n) || Delivered(m, at, n)
  }

  lemma BeforeTurn(cfg: Config, l: Log, o: Outcome)
    requires Turned(cfg, l, o)
    ensures Conserved(l) && Framed(l.engine) && Framed(o.engine)
  {
    hide Conserved, Placed, InOrder, Waiting, TakesFront, Framed;
  }

  lemma AfterFinish(cfg: Config, l: Log, o: Outcome)
    requires Turned(cfg, l, o) && Finishes(l.engine, o)
    ensures Good(cfg, Logged(l, o)) && StillThere(l, Logged(l, o))
  {
    hide Inv, Placed, Waiting, Conserved, InOrder, TakesFront, Located;
    BeforeTurn(cfg, l, o);
    assert o.engine.union.None? && l.engine.union.Some?;
    hide Finishes;
    var g := Located(|l.stream| - |o.engine.fifo|, o.frames);
    FinishedIsPlaced(l, o);
    GoodWithFrame(cfg, l, o.engine, g);
    assert Logged(l, o).got[|l.got|] == g[0];
  }

  lemma AfterWhole(cfg: Config, l: Log, o: Outcome)
    requires Turned(cfg, l, o) && Whole(l.engine, o)
    ensures Good(cfg, Logged(l, o)) && StillThere(l, Logged(l, o))
  {
    hide Inv, Placed, Waiting, InOrder, TakesFront, Located, Good, Conserved;
    BeforeTurn(cfg, l, o);
    assert l.engine.frameSum == 0 && o.engine.union.None?;
    hide Whole;
    WholeIsPlaced(l, o);
    GoodWithFrame(cfg, l, o.engine, Located(|l.stream| - |o.engine.fifo|, o.frames));
  }

  lemma AfterSignal(cfg: Config, l: Log, o: Outcome)
    requires Turned(cfg, l, o) && Signals(l.engine, o)
    ensures Good(cfg, Logged(l, o)) && StillThere(l, Logged(l, o))
  {
    hide Inv, Placed, Waiting, InOrder, TakesFront, Located, Good, Conserved;
    BeforeTurn(cfg, l, o);
    assert l.engine.frameSum == 0 && o.engine.union.None?;
    hide Signals;
    SignalIsPlaced(l, o);
    GoodWithFrame(cfg, l, o.engine, Located(|l.stream| - |o.engine.fifo|, o.frames));
  }

  lemma AfterBegin(cfg: Config, l: Log, o: Outcome)
    requires Turned(cfg, l, o) && Begins(l.engine, o)
    ensures Good(cfg, Logged(l, o)) && StillThere(l, Logged(l, o))
  {
    hide Inv, Placed, Waiting, InOrder, TakesFront, Good, Conserved;
    BeforeTurn(cfg, l, o);
    assert l.engine.frameSum == 0 && o.frames == [] && o.engine.union.Some?;
    hide Begins;
    assert Logged(l, o) == l.(engine := o.engine);
    BegunIsWaiting(l, o);
    GoodWithoutFrame(cfg, l, o.engine);
  }

  lemma AfterGrowth(cfg: Config, l: Log, o: Outcome)
    requires Turned(cfg, l, o) && Grows(l.engine, o)
    ensures Good(cfg, Logged(l, o)) && StillThere(l, Logged(l, o))
  {
    assert l.engine.union.Some? && o.frames == [] && o.engine.union.Some?;
    assert |o.engine.union.value| == |l.engine.union.value|;
    hide Inv, Placed, Waiting, InOrder, TakesFront, Grows;
    assert Logged(l, o) == l.(engine := o.engine);
    GrownIsWaiting(l, o);
    GoodWithoutFrame(cfg, l, o.engine);
  }

  lemma AfterQuiet(cfg: Config, l: Log, o: Outcome)
    requires Turned(cfg, l, o) && NoFrame(l.engine, o)
    ensures Good(cfg, Logged(l, o)) && StillThere(l, Logged(l, o))
  {
    assert o.frames == [];
    hide Inv, Placed, Waiting, InOrder, TakesFront, NoFrame, Good;
    assert Logged(l, o) == l.(engine := o.engine);
    QuietTurn(cfg, l, o);
  }

  // A turn keeps the invariant of runs.
  lemma TurnKeeps(cfg: Config, l: Log, now: nat)
    requires Good(cfg, l) && TurnDefined(l.engine)
    ensures Good(cfg, After(cfg, l, Tick(now))) && StillThere(l, After(cfg, l, Tick(now)))
  {
    var o := Turn(cfg, l.engine, now);
    TurnEffect(cfg, l.engine, now);
    TurnKeepsInv(cfg, l.engine, now);
    assert After(cfg, l, Tick(now)) == Logged(l, o);
    hide Inv, Turn, After, Logged, Good, StillThere, TakesFront, Begins, Grows, Finishes, Whole, Signals, NoFrame;
    assert Turned(cfg, l, o);
    if Finishes(l.engine, o) {
      AfterFinish(cfg, l, o);
    } else if Whole(l.engine, o) {
      AfterWhole(cfg, l, o);
    } else if Signals(l.engine, o) {
      AfterSignal(cfg, l, o);
    } else if Begins(l.engine, o) {
      AfterBegin(cfg, l, o);
    } else if Grows(l.engine, o) {
      AfterGrowth(cfg, l, o);
    } else {
      AfterQuiet(cfg, l, o);
    }
  }

  ghost predicate Delivered(l: Log, at: int, n: nat) {
    exists i :: 0 <= i < |l.got| && l.got[i].at == at && l.got[i].kind == 1 && |l.got[i].payload| == n
  }

  // ---- Runs -----------------------------------------------------------------------------------

  lemma CleanKeeps(cfg: Config, l: Log)
    requires Good(cfg, l)
    ensures Good(cfg, After(cfg, l, Clean))
  {
    CleanKeepsInv(cfg, l.engine);
    hide Inv, Placed;
  }

  lemma OrderKeeps(cfg: Config, l: Log, text: seq<byte>, data: seq<byte>, waitTime: nat, retry: Retry)
    requires Good(cfg, l)
    ensures Good(cfg, After(cfg, l, Order(text, data, waitTime, retry)))
  {
    IssueKeepsInv(cfg, l.engine, text, data, waitTime, retry);
    hide Inv, Placed, InOrder, EndsInHeader;
  }

  lemma EventKeeps(cfg: Config, l: Log, ev: Event)
    requires Good(cfg, l) && Allowed(l, ev)
    ensures Good(cfg, After(cfg, l, ev))
  {
    hide Good, After;
    match ev
    case Arrive(bytes) => ArriveKeeps(cfg, l, bytes);
    case Tick(now) => TurnKeeps(cfg, l, now);
    case Order(text, data, waitTime, retry) => OrderKeeps(cfg, l, text, data, waitTime, retry);
    case Clean => CleanKeeps(cfg, l);
  }

  ghost predicate Legal(cfg: Config, l: Log, run: seq<Event>)
    requires Good(cfg, l)
    decreases |run|
  {
    run != [] ==>
      && Allowed(l, run[0])
      && (EventKeeps(cfg, l, run[0]); Legal(cfg, After(cfg, l, run[0]), run[1..]))
  }

  ghost function Exec(cfg: Config, l: Log, run: seq<Event>): Log
    requires Good(cfg, l) && Legal(cfg, l, run)
    decreases |run|
  {
    if run == [] then l
    else
      EventKeeps(cfg, l, run[0]);
      Exec(cfg, After(cfg, l, run[0]), run[1..])
  }

  // HyAtUtilsCreate
  const CREATED_LOG := Log(CREATED, [], [], [])

  lemma CreatedIsGood(cfg: Config)
    requires ValidConfig(cfg)
    ensures Good(cfg, CREATED_LOG)
  {
  }

  lemma {:induction false} RunKeeps(cfg: Config, l: Log, run: seq<Event>)
    requires Good(cfg, l) && Legal(cfg, l, run)
    ensures Good(cfg, Exec(cfg, l, run))
    decreases |run|
  {
    if run != [] {
      EventKeeps(cfg, l, run[0]);
      hide Good, After, Allowed;
      RunKeeps(cfg, After(cfg, l, run[0]), run[1..]);
    }
  }

  // How many events of a run go by before a turn that is not defined.
  ghost function DefinedUpTo(cfg: Config, l: Log, run: seq<Event>): (k: nat)
    requires Good(cfg, l)
    ensures k <= |run|
    decreases |run|
  {
    if run == [] || !Allowed(l, run[0]) then 0
    else
      EventKeeps(cfg, l, run[0]);
      1 + DefinedUpTo(cfg, After(cfg, l, run[0]), run[1..])
  }

  lemma {:induction false} DefinedUpToStops(cfg: Config, l: Log, run: seq<Event>)
    requires Good(cfg, l)
    ensures var k := DefinedUpTo(cfg, l, run);
            && Legal(cfg, l, run[..k]) && Good(cfg, Exec(cfg, l, run[..k]))
            && (k < |run| ==> run[k].Tick? && !TurnDefined(Exec(cfg, l, run[..k]).engine))
            && (k == |run| <==> Legal(cfg, l, run))
    decreases |run|
  {
    var k := DefinedUpTo(cfg, l, run);
    if k > 0 {
      EventKeeps(cfg, l, run[0]);
      assert run[..k][0] == run[0] && run[..k][1..] == run[1..][..k - 1];
      hide Good, After, Allowed;
      DefinedUpToStops(cfg, After(cfg, l, run[0]), run[1..]);
    } else {
      hide Good;
      assert run[..0] == [];
    }
  }

  // What FramesAreExact says of frame i.
  ghost predicate ExactFrame(l: Log, i: nat)
    requires i < |l.got|
  {
    var g := l.got[i];
    && 0 <= g.at <= g.at + |g.payload| <= Pos(l) <= |l.stream|
    && g.payload == l.stream[g.at..g.at + |g.payload|]
    && (g.kind == 1 ==> EndsInHeader(l.stream[..g.at], |g.payload|))
    && (i + 1 < |l.got| ==> g.at + |g.payload| <= l.got[i + 1].at)
  }

  // In any run from the creation on, however the input is cut up, as far as all its turns are
  // defined: the bytes taken out and the bytes still there are the accepted stream; every frame
  // delivered as data is exactly the bytes behind a header that announces their number; and no
  // byte is delivered twice.  Where a turn is not defined is told by TurnDefinedExactly.
  lemma FramesAreExact(cfg: Config, run: seq<Event>)
    requires ValidConfig(cfg)
    ensures Good(cfg, CREATED_LOG)
    ensures var k := DefinedUpTo(cfg, CREATED_LOG, run);
            && Legal(cfg, CREATED_LOG, run[..k])
            && var l := Exec(cfg, CREATED_LOG, run[..k]);
               && 0 <= Pos(l) && l.stream == l.stream[..Pos(l)] + l.engine.fifo
               && (forall i :: 0 <= i < |l.got| ==> ExactFrame(l, i))
               && Inv(cfg, l.engine) && (k < |run| ==> run[k].Tick? && !TurnDefined(l.engine))
  {
    CreatedIsGood(cfg);
    DefinedUpToStops(cfg, CREATED_LOG, run);
    hide Exec, Legal, Good, DefinedUpTo, TurnDefined, ExactFrame, Inv;
    GoodIsExact(cfg, Exec(cfg, CREATED_LOG, run[..DefinedUpTo(cfg, CREATED_LOG, run)]));
  }

  lemma GoodIsExact(cfg: Config, l: Log)
    requires Good(cfg, l)
    ensures Inv(cfg, l.engine) && 0 <= Pos(l) && l.stream == l.stream[..Pos(l)] + l.engine.fifo
    ensures forall i :: 0 <= i < |l.got| ==> ExactFrame(l, i)
  {
    hide Inv, EndsInHeader, Waiting;
    forall i | 0 <= i < |l.got|
      ensures ExactFrame(l, i)
    {
      assert Placed(l.stream, l.got[i]);
    }
  }

  // ---- A frame that has been begun arrives ------------------------------------------------------

  lemma PlacesStay(cfg: Config, l: Log, ev: Event, at: int, n: nat)
    requires Good(cfg, l) && Allowed(l, ev) && ev != Clean
    requires Waiting(l, at, n) || Delivered(l, at, n)
    ensures Waiting(After(cfg, l, ev), at, n) || Delivered(After(cfg, l, ev), at, n)
  {
    hide Placed, InOrder, Conserved, TagAtFront, QueueInv, EndsInHeader;
    if Delivered(l, at, n) {
      DeliveredStays(cfg, l, ev, at, n);
    } else {
      assert at == Pos(l) - l.engine.frameSum && n == |l.engine.union.value|;
      EventKeeps(cfg, l, ev);
      if ev.Tick? {
        hide Good, After, Waiting, Delivered;
        TurnKeeps(cfg, l, ev.now);
      } else {
        FrameUntouched(cfg, l, ev);
        hide Good, After, Waiting, Delivered;
        WaitsOn(cfg, l, After(cfg, l, ev), at, n);
      }
    }
  }

  lemma FrameUntouched(cfg: Config, l: Log, ev: Event)
    requires Inv(cfg, l.engine) && (ev.Arrive? || ev.Order?)
    ensures var m := After(cfg, l, ev);
            m.engine.union == l.engine.union && m.engine.frameSum == l.engine.frameSum && Pos(m) == Pos(l)
  {
    hide TagAtFront, QueueInv, ValidConfig;
  }

  lemma DeliveredStays(cfg: Config, l: Log, ev: Event, at: int, n: nat)
    requires Good(cfg, l) && Allowed(l, ev) && Delivered(l, at, n)
    ensures Delivered(After(cfg, l, ev), at, n)
  {
    var i :| 0 <= i < |l.got| && l.got[i].at == at && l.got[i].kind == 1 && |l.got[i].payload| == n;
    var m := After(cfg, l, ev);
    hide Good, Turn, Located;
    assert i < |m.got| && m.got[i] == l.got[i];
  }

  lemma WaitsOn(cfg: Config, l: Log, m: Log, at: int, n: nat)
    requires Waiting(l, at, n) && Good(cfg, m)
    requires m.engine.union == l.engine.union && m.engine.frameSum == l.engine.frameSum && Pos(m) == Pos(l)
    ensures Waiting(m, at, n)
  {
    hide Inv, Placed, InOrder, Conserved;
  }

  lemma {:induction false} BegunFrameStays(cfg: Config, l: Log, run: seq<Event>, at: int, n: nat)
    requires Good(cfg, l) && Legal(cfg, l, run) && Clean !in run
    requires Waiting(l, at, n) || Delivered(l, at, n)
    ensures var m := Exec(cfg, l, run); Waiting(m, at, n) || Delivered(m, at, n)
    decreases |run|
  {
    if run != [] {
      EventKeeps(cfg, l, run[0]);
      assert run[0] in run;
      PlacesStay(cfg, l, run[0], at, n);
      hide Good, After, Allowed, Waiting, Delivered;
      BegunFrameStays(cfg, After(cfg, l, run[0]), run[1..], at, n);
    }
  }

  // If the last byte of a frame has been accepted and the FIFO has been read out, the frame has
  // been delivered.
  ghost predicate Arrived(m: Log, at: int, n: nat)
    requires 0 <= at
  {
    |m.stream| >= at + n && m.engine.fifo == [] ==> Got(at, 1, m.stream[at..at + n]) in m.got
  }

  // Once the header has been read, the frame is delivered as soon as its last byte has been
  // accepted and the FIFO has been read out, whatever the pieces and the turns in between.
  lemma BegunFrameArrives(cfg: Config, l: Log, run: seq<Event>, at: int, n: nat)
    requires Good(cfg, l) && Legal(cfg, l, run) && Clean !in run && Waiting(l, at, n)
    ensures Arrived(Exec(cfg, l, run), at, n)
  {
    PlacedFrameArrives(cfg, l, run, at, n);
  }

  lemma DeliveredIsGot(cfg: Config, m: Log, at: int, n: nat)
    requires Good(cfg, m) && Delivered(m, at, n)
    ensures 0 <= at && Arrived(m, at, n)
  {
    hide Inv, EndsInHeader, Conserved, Waiting, InOrder;
    var i :| 0 <= i < |m.got| && m.got[i].at == at && m.got[i].kind == 1 && |m.got[i].payload| == n;
    assert Placed(m.stream, m.got[i]);
    assert m.got[i] == Got(at, 1, m.stream[at..at + n]);
  }

  lemma WaitsForMore(m: Log, at: int, n: nat)
    requires Waiting(m, at, n)
    ensures 0 <= at && Arrived(m, at, n)
  {
    hide EndsInHeader;
  }

  lemma PlacedFrameArrives(cfg: Config, l: Log, run: seq<Event>, at: int, n: nat)
    requires Good(cfg, l) && Legal(cfg, l, run) && Clean !in run && (Waiting(l, at, n) || Delivered(l, at, n))
    ensures 0 <= at && Arrived(Exec(cfg, l, run), at, n)
  {
    hide Exec, Legal, Good, Waiting, Delivered, Arrived;
    BegunFrameStays(cfg, l, run, at, n);
    RunKeeps(cfg, l, run);
    var m := Exec(cfg, l, run);
    if Waiting(m, at, n) {
      WaitsForMore(m, at, n);
    } else {
      DeliveredIsGot(cfg, m, at, n);
    }
  }

  // A whole header in view is always taken, and its frame begun or delivered.
  lemma WholeHeaderIsTaken(cfg: Config, l: Log, now: nat, h: nat, n: nat)
    requires Good(cfg, l) && HeaderInView(l.engine, h, n)
    ensures TurnDefined(l.engine) && Good(cfg, After(cfg, l, Tick(now)))
    ensures var m := After(cfg, l, Tick(now)); Waiting(m, Pos(l) + h, n) || Delivered(m, Pos(l) + h, n)
  {
    hide Waiting, Delivered, Conserved, Placed, InOrder, View, StartFrame, TurnDefined, TagAtFront, QueueInv, Turn;
    StartsFrame(cfg, l.engine, now, h, n);
    hide HeaderInView;
    TurnKeeps(cfg, l, now);
    StartIsPlaced(l, View(l.engine), h, n, After(cfg, l, Tick(now)));
  }

  lemma StartIsPlaced(l: Log, v: seq<byte>, h: nat, n: nat, m: Log)
    requires h <= |v| && v <= l.engine.fifo && l.engine.union.None?
    requires n > 0 && m == Logged(l, StartFrame(l.engine, v, h, n))
    requires m.engine.union.Some? ==> Waiting(m, Pos(m) - m.engine.frameSum, |m.engine.union.value|)
    ensures Waiting(m, Pos(l) + h, n) || Delivered(m, Pos(l) + h, n)
  {
    hide Waiting;
    if n + h <= |v| {
      assert m.got[|l.got|] == Got(Pos(l) + h, 1, v[h..h + n]);
    }
  }

  // So the frame of a whole header in view arrives in every run without a cleaning that accepts
  // its last byte and reads the FIFO out.
  lemma HeaderArrives(cfg: Config, l: Log, now: nat, run: seq<Event>, h: nat, n: nat)
    requires Good(cfg, l) && HeaderInView(l.engine, h, n)
    requires Legal(cfg, l, [Tick(now)] + run) && Clean !in run
    ensures var m := Exec(cfg, l, [Tick(now)] + run); Arrived(m, Pos(l) + h, n)
  {
    hide After, Waiting, Delivered, HeaderInView, TurnDefined, Arrived;
    hide Conserved, Placed, InOrder, TagAtFront, QueueInv;
    WholeHeaderIsTaken(cfg, l, now, h, n);
    assert ([Tick(now)] + run)[1..] == run;
    PlacedFrameArrives(cfg, After(cfg, l, Tick(now)), run, Pos(l) + h, n);
  }

  // Two ways to cut one stream deliver the same frame behind the same header.
  lemma TwoCutsOneFrame(cfg: Config, l: Log, m: Log, now: nat, later: nat, run: seq<Event>, other: seq<Event>,
                        h: nat, n: nat)
    requires Good(cfg, l) && HeaderInView(l.engine, h, n) && Good(cfg, m) && HeaderInView(m.engine, h, n)
    requires Pos(m) == Pos(l)
    requires Legal(cfg, l, [Tick(now)] + run) && Clean !in run
    requires Legal(cfg, m, [Tick(later)] + other) && Clean !in other
    ensures var p, q := Exec(cfg, l, [Tick(now)] + run), Exec(cfg, m, [Tick(later)] + other); var at := Pos(l) + h;
            p.stream == q.stream && |p.stream| >= at + n && p.engine.fifo == q.engine.fifo == [] ==>
              var g := Got(at, 1, p.stream[at..at + n]); g in p.got && g in q.got
  {
    hide Good, Legal, Exec, HeaderInView;
    HeaderArrives(cfg, l, now, run, h, n);
    HeaderArrives(cfg, m, later, other, h, n);
  }

  // ---- The command queue over a run -------------------------------------------------------------

  lemma SuffixOfSuffix<T>(s: seq<T>, n: nat, k: nat)
    requires k <= n <= |s|
    ensures s[|s| - n..][k..] == s[|s| - (n - k)..]
  {
  }

  lemma FinishedInQueue(e: Engine)
    requires Framed(e)
    ensures Finished(e) <= |e.cmds|
  {
  }

  lemma TickKeepsOrder(cfg: Config, l: Log, now: nat)
    requires Good(cfg, l) && TurnDefined(l.engine) && QueueOfIssued(l)
    ensures QueueOfIssued(After(cfg, l, Tick(now)))
  {
    hide Turn, Finished, Conserved, Placed, InOrder, Waiting, TurnDefined, QueueInv, TagAtFront;
    assert After(cfg, l, Tick(now)) == Logged(l, Turn(cfg, l.engine, now));
    hide After, Good;
    QueueShrinksExactly(cfg, l.engine, now);
    FinishedInQueue(l.engine);
    SuffixOfSuffix(l.issued, |l.engine.cmds|, Finished(l.engine));
    assert |Texts(Turn(cfg, l.engine, now).engine.cmds)| == |l.engine.cmds| - Finished(l.engine);
  }

  lemma OrderKeepsOrder(cfg: Config, l: Log, c: Cmd)
    requires QueueOfIssued(l)
    ensures QueueOfIssued(l.(engine := l.engine.(cmds := l.engine.cmds + [c]), issued := l.issued + [(c.text, c.data)]))
  {
    assert Texts(l.engine.cmds + [c]) == Texts(l.engine.cmds) + [(c.text, c.data)];
  }

  lemma EventKeepsOrder(cfg: Config, l: Log, ev: Event)
    requires Good(cfg, l) && Allowed(l, ev) && QueueOfIssued(l)
    ensures QueueOfIssued(After(cfg, l, ev))
  {
    hide Good, Turn, Located;
    match ev
    case Tick(now) => TickKeepsOrder(cfg, l, now);
    case Order(text, data, waitTime, retry) => OrderKeepsOrder(cfg, l, NewCmd(cfg, text, data, waitTime, retry));
    case _ =>
  }

  // The queue always holds the last commands accepted, in the order they came in, and never more
  // than the limit that was set.
  lemma {:induction false} QueueIsBounded(cfg: Config, l: Log, run: seq<Event>)
    requires Good(cfg, l) && Legal(cfg, l, run) && QueueOfIssued(l)
    ensures QueueOfIssued(Exec(cfg, l, run))
    ensures var m := Exec(cfg, l, run).engine;
            cfg.cmdNum != 0 ==> |m.cmds| <= cfg.cmdNum && m.count == |m.cmds|
    decreases |run|
  {
    if run != [] {
      EventKeeps(cfg, l, run[0]);
      EventKeepsOrder(cfg, l, run[0]);
      hide Good, After, Allowed, QueueOfIssued;
      QueueIsBounded(cfg, After(cfg, l, run[0]), run[1..]);
    }
  }
}
