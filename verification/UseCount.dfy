// The counter use_cnt of src/hy_fifo.c between the two threads.  A put adds to it and a get takes
// from it after they have moved their index, each by a load and a store that nothing holds
// together; HyFifoGetInfo reads it as the used length.
module UseCount {
  import opened Basics

  // missed is by how much the stores of the other thread have changed the counter since the load:
  // lowered it for the put, raised it for the get.
  datatype Side = Rest | Moved(len: nat) | Loaded(len: nat, seen: int, missed: nat)

  // stored is the number of bytes in the FIFO.  cnt is kept as a number without bound, of which the
  // field has the remainder.  raised and lowered are by how much stores that overwrote changes of the other
  // thread have left it too high and too low.
  datatype State = State(stored: nat, cnt: int, put: Side, get: Side, lowered: nat, raised: nat)

  datatype Action = PutMove(len: nat) | PutLoad | PutStore | GetMove(len: nat) | GetLoad | GetStore

  function Polled(s: State): nat {
    s.cnt % SIZE_MOD
  }

  predicate Enabled(s: State, a: Action) {
    match a
    case PutMove(len) => s.put.Rest? && s.stored + len < SIZE_MOD
    case PutLoad => s.put.Moved?
    case PutStore => s.put.Loaded?
    case GetMove(len) => s.get.Rest? && len <= s.stored
    case GetLoad => s.get.Moved?
    case GetStore => s.get.Loaded?
  }

  function Misses(side: Side, len: nat): Side {
    if side.Loaded? then side.(missed := side.missed + len) else side
  }

  function Next(s: State, a: Action): State
    requires Enabled(s, a)
  {
    match a
    case PutMove(len) => s.(stored := s.stored + len, put := Moved(len))
    case PutLoad => s.(put := Loaded(s.put.len, s.cnt, 0))
    case PutStore =>
      s.(cnt := s.put.seen + s.put.len, put := Rest, get := Misses(s.get, s.put.len + s.put.missed),
         raised := s.raised + s.put.missed)
    case GetMove(len) => s.(stored := s.stored - len, get := Moved(len))
    case GetLoad => s.(get := Loaded(s.get.len, s.cnt, 0))
    case GetStore =>
      s.(cnt := s.get.seen - s.get.len, get := Rest, put := Misses(s.put, s.get.len + s.get.missed),
         lowered := s.lowered + s.get.missed)
  }

  // What a thread has moved and not yet counted.
  function Pending(side: Side): nat {
    if side.Rest? then 0 else side.len
  }

  ghost predicate Inv(s: State) {
    && s.stored < SIZE_MOD
    && s.cnt == s.stored - Pending(s.put) + Pending(s.get) + s.raised - s.lowered
    && (s.put.Loaded? ==> s.cnt == s.put.seen - s.put.missed)
    && (s.get.Loaded? ==> s.cnt == s.get.seen + s.get.missed)
  }

  lemma NextInv(s: State, a: Action)
    requires Inv(s) && Enabled(s, a)
    ensures Inv(Next(s, a))
  {
  }

  predicate Legal(s: State, run: seq<Action>)
    decreases |run|
  {
    run == [] || (Enabled(s, run[0]) && Legal(Next(s, run[0]), run[1..]))
  }

  function Exec(s: State, run: seq<Action>): State
    requires Legal(s, run)
    decreases |run|
  {
    if run == [] then s else Exec(Next(s, run[0]), run[1..])
  }

  // No store of the run comes after a store of the other thread that its load did not see.
  predicate Apart(s: State, run: seq<Action>)
    requires Legal(s, run)
    decreases |run|
  {
    run == [] ||
    (&& (run[0] == PutStore ==> s.put.missed == 0)
     && (run[0] == GetStore ==> s.get.missed == 0)
     && Apart(Next(s, run[0]), run[1..]))
  }

  lemma {:induction false} RunKeeps(s: State, run: seq<Action>)
    requires Inv(s) && Legal(s, run)
    ensures Inv(Exec(s, run))
    ensures Apart(s, run) ==> Exec(s, run).lowered == s.lowered && Exec(s, run).raised == s.raised
    decreases |run|
  {
    if run != [] {
      NextInv(s, run[0]);
      RunKeeps(Next(s, run[0]), run[1..]);
    }
  }

  lemma SameRemainder(x: nat, d: int)
    requires x < SIZE_MOD
    ensures (x + d) % SIZE_MOD == x <==> d % SIZE_MOD == 0
  {
  }

  // The empty FIFO with both threads at rest.
  const EMPTY := State(0, 0, Rest, Rest, 0, 0)

  lemma EmptyIsCounted()
    ensures Inv(EMPTY) && EMPTY.raised == EMPTY.lowered == 0
  {
  }

  // After any run from the empty FIFO that leaves both threads at rest, the value that is polled
  // is the number of bytes stored exactly if it was left as much too high as too low, up to whole
  // turns of the counter; and it always is while the stores stay apart.
  lemma PolledExactly(run: seq<Action>)
    requires Legal(EMPTY, run) && Exec(EMPTY, run).put == Exec(EMPTY, run).get == Rest
    ensures var s := Exec(EMPTY, run); Polled(s) == s.stored <==> (s.raised - s.lowered) % SIZE_MOD == 0
    ensures Apart(EMPTY, run) ==> Polled(Exec(EMPTY, run)) == Exec(EMPTY, run).stored
  {
    hide Legal, Exec, Apart, Polled;
    EmptyIsCounted();
    hide Inv;
    RunKeeps(EMPTY, run);
    PolledAtRest(Exec(EMPTY, run));
  }

  lemma PolledAtRest(s: State)
    requires Inv(s) && s.put == s.get == Rest
    ensures Polled(s) == s.stored <==> (s.raised - s.lowered) % SIZE_MOD == 0
    ensures s.raised == s.lowered ==> Polled(s) == s.stored
  {
    SameRemainder(s.stored, s.raised - s.lowered);
  }

  lemma NoAction(s: State)
    ensures Legal(s, []) && Exec(s, []) == s
  {
  }

  lemma OneMore(s: State, a: Action, t: State, rest: seq<Action>)
    requires Enabled(s, a) && Next(s, a) == t && Legal(t, rest)
    ensures Legal(s, [a] + rest) && Exec(s, [a] + rest) == Exec(t, rest)
  {
    hide Enabled, Next;
    assert ([a] + rest)[1..] == rest;
  }

  // The last three steps: a put loads and stores while a get has loaded.
  lemma StoresOverwrite() returns (run: seq<Action>)
    ensures var s := State(8, 8, Moved(8), Loaded(8, 8, 0), 0, 0);
            Legal(s, run) && Exec(s, run) == State(8, 0, Rest, Rest, 8, 0)
  {
    hide Legal, Exec;
    run := [];
    NoAction(State(8, 0, Rest, Rest, 8, 0));
    OneMore(State(8, 16, Rest, Loaded(8, 8, 8), 0, 0), GetStore, State(8, 0, Rest, Rest, 8, 0), run);
    run := [GetStore] + run;
    OneMore(State(8, 8, Loaded(8, 8, 0), Loaded(8, 8, 0), 0, 0), PutStore,
            State(8, 16, Rest, Loaded(8, 8, 8), 0, 0), run);
    run := [PutStore] + run;
    OneMore(State(8, 8, Moved(8), Loaded(8, 8, 0), 0, 0), PutLoad,
            State(8, 8, Loaded(8, 8, 0), Loaded(8, 8, 0), 0, 0), run);
    run := [PutLoad] + run;
  }

  // A record is taken out, and its count still to be stored, when another one is put in.
  lemma TakenAndPut() returns (run: seq<Action>)
    ensures var s := State(8, 8, Rest, Rest, 0, 0); Legal(s, run) && Exec(s, run) == State(8, 0, Rest, Rest, 8, 0)
  {
    hide Legal, Exec;
    run := StoresOverwrite();
    OneMore(State(0, 8, Rest, Loaded(8, 8, 0), 0, 0), PutMove(8), State(8, 8, Moved(8), Loaded(8, 8, 0), 0, 0), run);
    run := [PutMove(8)] + run;
    OneMore(State(0, 8, Rest, Moved(8), 0, 0), GetLoad, State(0, 8, Rest, Loaded(8, 8, 0), 0, 0), run);
    run := [GetLoad] + run;
    OneMore(State(8, 8, Rest, Rest, 0, 0), GetMove(8), State(0, 8, Rest, Moved(8), 0, 0), run);
    run := [GetMove(8)] + run;
  }

  // The first record is put from the empty FIFO.
  lemma PutFirst(rest: seq<Action>) returns (run: seq<Action>)
    requires Legal(State(8, 8, Rest, Rest, 0, 0), rest)
    ensures Legal(EMPTY, run) && Exec(EMPTY, run) == Exec(State(8, 8, Rest, Rest, 0, 0), rest)
  {
    hide Legal, Exec;
    OneMore(State(8, 0, Loaded(8, 0, 0), Rest, 0, 0), PutStore, State(8, 8, Rest, Rest, 0, 0), rest);
    run := [PutStore] + rest;
    OneMore(State(8, 0, Moved(8), Rest, 0, 0), PutLoad, State(8, 0, Loaded(8, 0, 0), Rest, 0, 0), run);
    run := [PutLoad] + run;
    OneMore(EMPTY, PutMove(8), State(8, 0, Moved(8), Rest, 0, 0), run);
    run := [PutMove(8)] + run;
  }

  // One record is put, and while it is taken out another one is put in: the count of that one is
  // overwritten, and it waits in the FIFO while the polled value is 0.
  lemma LostUpdate() returns (run: seq<Action>)
    ensures Legal(EMPTY, run)
    ensures var s := Exec(EMPTY, run); s.put == s.get == Rest && s.stored == 8 && Polled(s) == 0
  {
    hide Legal, Exec;
    var rest := TakenAndPut();
    run := PutFirst(rest);
  }

  // A record is put in, and its count still to be stored, when the one before it is taken out.
  lemma PutAndTaken() returns (run: seq<Action>)
    ensures var s := State(16, 8, Loaded(8, 8, 0), Rest, 0, 0);
            Legal(s, run) && Exec(s, run) == State(8, 16, Rest, Rest, 0, 8)
  {
    hide Legal, Exec;
    run := [];
    NoAction(State(8, 16, Rest, Rest, 0, 8));
    OneMore(State(8, 0, Loaded(8, 8, 8), Rest, 0, 0), PutStore, State(8, 16, Rest, Rest, 0, 8), run);
    run := [PutStore] + run;
    OneMore(State(8, 8, Loaded(8, 8, 0), Loaded(8, 8, 0), 0, 0), GetStore,
            State(8, 0, Loaded(8, 8, 8), Rest, 0, 0), run);
    run := [GetStore] + run;
    OneMore(State(8, 8, Loaded(8, 8, 0), Moved(8), 0, 0), GetLoad,
            State(8, 8, Loaded(8, 8, 0), Loaded(8, 8, 0), 0, 0), run);
    run := [GetLoad] + run;
    OneMore(State(16, 8, Loaded(8, 8, 0), Rest, 0, 0), GetMove(8), State(8, 8, Loaded(8, 8, 0), Moved(8), 0, 0), run);
    run := [GetMove(8)] + run;
  }

  // The other way round the polled value stays too high: two records are counted where one is stored.
  lemma LostRemoval() returns (run: seq<Action>)
    ensures Legal(EMPTY, run)
    ensures var s := Exec(EMPTY, run); s.put == s.get == Rest && s.stored == 8 && Polled(s) == 16
  {
    hide Legal, Exec;
    var rest := PutAndTaken();
    OneMore(State(16, 8, Moved(8), Rest, 0, 0), PutLoad, State(16, 8, Loaded(8, 8, 0), Rest, 0, 0), rest);
    rest := [PutLoad] + rest;
    OneMore(State(8, 8, Rest, Rest, 0, 0), PutMove(8), State(16, 8, Moved(8), Rest, 0, 0), rest);
    rest := [PutMove(8)] + rest;
    run := PutFirst(rest);
  }
}
