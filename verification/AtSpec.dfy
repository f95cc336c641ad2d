// The AT modem engine of src/hy_at_utils.c as functions of its state.  A turn is one call of
// HyAtUtilsProcess, or one round of the loop in _read_handle when that loop goes on; bytes may
// arrive between any two turns.
module AtSpec {
  import opened Basics

  datatype State =
    | Idle | Read | ReadHead | Ready | Ready1 | Ready2 | Ok | ConnectOk | SignalCsq | SignalCwjap
    | IpdData | Faild | Error | AlreadyConnected | BusyS | Send | Closed | ReadMax
    | Write | WriteCmd | WriteCmdWait | WriteData | WriteMax

  datatype Catch = Catch(state: State, str: seq<byte>)

  datatype Config = Config(size: nat, table: seq<Catch>, cmdNum: nat, isCmdOk: bool)

  // The width of the retry field.
  type Retry = x: nat | x < 256

  datatype Cmd = Cmd(text: seq<byte>, data: seq<byte>, waitTime: nat, retry: nat, delCnt: nat)

  datatype Engine = Engine(
    fifo: seq<byte>, union: Option<seq<byte>>, frameSum: nat, offset: nat, state: State,
    busy: nat, parsing: bool, cmds: seq<Cmd>, count: nat, tick: nat)

  // What handle_frame_cb was called with.
  datatype Frame = Frame(kind: nat, payload: seq<byte>)

  // ret is Idle where the code returns 0.
  datatype Outcome = Outcome(engine: Engine, ret: State, frames: seq<Frame>, writes: seq<seq<byte>>)

  const FACTOR_LEN := 200
  const IPD_TAG: seq<byte> := [43, 73, 80, 68, 44]
  const COMMA: byte := 44
  const COLON: byte := 58
  const GREATER: byte := 62
  const OK_TEXT: seq<byte> := [79, 75]
  const CSQ_MIN := 16
  const CWJAP_MIN := 38

  predicate IsReply(s: State) {
    s in {Ready, Ready1, Ready2, Ok, ConnectOk, SignalCsq, SignalCwjap, IpdData, Faild, Error, AlreadyConnected,
          BusyS, Send, Closed}
  }

  predicate IsRead(s: State) {
    s in {Read, ReadHead, ReadMax} || IsReply(s)
  }

  predicate ValidConfig(cfg: Config) {
    && cfg.cmdNum < 256
    && forall c :: c in cfg.table ==>
         && 0 < |c.str| <= FACTOR_LEN && 0 !in c.str && IsReply(c.state)
         && (c.state == IpdData ==> c.str == IPD_TAG)
  }

  // ---- Finding a catch string -------------------------------------------------------------

  function Zeros(n: nat): (z: seq<byte>)
    ensures |z| == n && forall i :: 0 <= i < n ==> z[i] == 0
  {
    seq(n, _ => 0)
  }

  // The local buffer of _read_handle after v was peeked into it.
  function Padded(v: seq<byte>): (b: seq<byte>)
    requires |v| <= FACTOR_LEN
    ensures |b| == FACTOR_LEN
  {
    v + Zeros(FACTOR_LEN - |v|)
  }

  predicate Starts(table: seq<Catch>, b: byte) {
    exists i :: 0 <= i < |table| && table[i].str != [] && table[i].str[0] == b
  }

  // Where the first byte is that some catch string starts with, or else the length of v.
  function FirstStart(table: seq<Catch>, v: seq<byte>): (k: nat)
    ensures k <= |v| && forall j :: 0 <= j < k ==> !Starts(table, v[j])
    ensures k < |v| ==> Starts(table, v[k])
  {
    if v == [] || Starts(table, v[0]) then 0 else
      var k := FirstStart(table, v[1..]);
      assert forall j :: 0 < j < |v| ==> v[j] == v[1..][j - 1];
      1 + k
  }

  datatype Head = Wait | Tag(catch: Catch) | NoTag

  // The first two bytes agree, counting the zero that ends a string of one byte.
  predicate FirstTwo(str: seq<byte>, b: seq<byte>)
    requires |b| == FACTOR_LEN && str != []
  {
    (str + [0])[..2] == b[..2]
  }

  // _find_frame_tag with flag 1
  function HeadTag(table: seq<Catch>, v: seq<byte>): Head
    requires |v| <= FACTOR_LEN && forall c :: c in table ==> 0 < |c.str| <= FACTOR_LEN
  {
    if table == [] then NoTag
    else if FirstTwo(table[0].str, Padded(v)) && |table[0].str| > |v| then Wait
    else if Padded(v)[..|table[0].str|] == table[0].str then Tag(table[0])
    else HeadTag(table[1..], v)
  }

  // ---- The header of an IPD frame -----------------------------------------------------------

  function IndexOf(s: seq<byte>, b: byte): (k: nat)
    ensures k <= |s| && forall j :: 0 <= j < k ==> s[j] != b
    ensures k < |s| ==> s[k] == b
  {
    if s == [] || s[0] == b then 0 else
      var k := IndexOf(s[1..], b);
      assert forall j :: 0 < j < |s| ==> s[j] == s[1..][j - 1];
      1 + k
  }

  // The C string at the front of v.
  function CString(v: seq<byte>): seq<byte> {
    v[..IndexOf(v, 0)]
  }

  // What the scanf format "%*[^,],%[^:]" assigns.
  function Field(v: seq<byte>): seq<byte> {
    var c := CString(v);
    var i := IndexOf(c, COMMA);
    if 0 < i < |c| then c[i + 1..][..IndexOf(c[i + 1..], COLON)] else []
  }

  predicate AllDigits(d: seq<byte>) {
    forall i :: 0 <= i < |d| ==> 48 <= d[i] <= 57
  }

  function Digit(b: byte): nat {
    if 48 <= b <= 57 then (b - 48) as nat else 0
  }

  function Value(d: seq<byte>): nat {
    if d == [] then 0 else Value(d[..|d| - 1]) * 10 + Digit(d[|d| - 1])
  }

  // _get_ipd_data_len
  function IpdFormatLen(v: seq<byte>): nat {
    if |v| >= 8 then 6 + |Field(v)| else 0
  }

  function IpdDataLen(v: seq<byte>): nat {
    if |v| >= 8 && AllDigits(Field(v)) then Value(Field(v)) % 0x1_0000 else 0
  }

  predicate IpdRefused(v: seq<byte>) {
    IpdFormatLen(v) >= 10 || IpdDataLen(v) > 1024 || IpdDataLen(v) == 0
  }

  // The field fits the scratch buffer, and the header does not reach beyond the bytes in view.
  predicate IpdDefined(v: seq<byte>) {
    |v| >= 8 ==> |Field(v)| < 8 && (IpdRefused(v) || IpdFormatLen(v) <= |v|)
  }

  // ---- The signal replies -------------------------------------------------------------------

  // The first position in s of the bytes "OK", or the length of s.
  function IndexOfOk(s: seq<byte>): (k: nat)
    ensures k <= |s| && (k < |s| ==> OK_TEXT <= s[k..])
    ensures forall j :: 0 <= j < k ==> !(OK_TEXT <= s[j..])
  {
    if s == [] || OK_TEXT <= s then 0 else
      var k := IndexOfOk(s[1..]);
      assert forall j :: 0 < j <= |s| ==> s[j..] == s[1..][j - 1..];
      1 + k
  }

  // _get_signal_str: 0 if there is no "OK".
  function SignalLen(v: seq<byte>): (n: nat)
    ensures n < |v| || n == 0
  {
    var c := CString(v);
    if IndexOfOk(c) < |c| then IndexOfOk(c) else 0
  }

  predicate SignalDefined(v: seq<byte>) {
    |v| < FACTOR_LEN || 0 in v || IndexOfOk(v) < |v|
  }

  // ---- The command queue and the rest of the context ------------------------------------------

  function DropFirst(e: Engine): Engine {
    if e.cmds == [] then e else e.(cmds := e.cmds[1..], count := (e.count + 255) % 256)
  }

  // _destroy_clean
  function Cleaned(e: Engine): Engine {
    Engine([], None, 0, 0, Idle, 0, false, [], (e.count + 255 * |e.cmds|) % 256, 0)
  }

  // HyFifoUpdateOut(offset_len)
  function Drop(e: Engine): Engine {
    e.(fifo := e.fifo[Min(e.offset, |e.fifo|)..], offset := 0)
  }

  function Overlay(u: seq<byte>, at: nat, src: seq<byte>): (r: seq<byte>)
    requires at + |src| <= |u|
    ensures |r| == |u| && r[..at + |src|] == u[..at] + src
  {
    u[..at] + src + u[at + |src|..]
  }

  // ---- Turns ----------------------------------------------------------------------------------

  // What the code keeps about the frame it is putting together.
  predicate Framed(e: Engine) {
    && (e.parsing <==> e.union.Some?)
    && (if e.union.Some? then e.frameSum < |e.union.value| else e.frameSum == 0)
  }

  function Factor(e: Engine): nat
    requires Framed(e)
  {
    if e.union.None? then FACTOR_LEN else Min(|e.union.value| - e.frameSum, FACTOR_LEN)
  }

  function View(e: Engine): (v: seq<byte>)
    requires Framed(e)
    ensures v <= e.fifo && |v| <= FACTOR_LEN && (v == [] <==> e.fifo == [])
  {
    e.fifo[..Min(Factor(e), |e.fifo|)]
  }

  // The turn does not leave what the language defines: a reply that counts against a command, and
  // a turn that sends one, find it, and what is scanned and copied stays within its buffers.
  predicate TurnDefined(e: Engine)
    requires Framed(e)
  {
    var v := View(e);
    if IsRead(e.state) then
      e.parsing || v == [] ||
      (match e.state
       case Ok => e.cmds != []
       case ConnectOk => e.cmds != []
       case Faild => e.cmds != []
       case Error => e.cmds != []
       case IpdData => IpdDefined(v)
       case SignalCsq => SignalDefined(v)
       case SignalCwjap => SignalDefined(v)
       case _ => true)
    else
      (e.state == WriteCmd || e.state == WriteData) ==> e.cmds != []
  }

  function Quiet(e: Engine): Outcome {
    Outcome(e, Idle, [], [])
  }

  function ScanTurn(table: seq<Catch>, e: Engine, v: seq<byte>): Outcome {
    var k := FirstStart(table, v);
    Quiet(Drop(e.(state := if k < |v| then ReadHead else Idle, offset := k)))
  }

  function HeadTurn(table: seq<Catch>, e: Engine, v: seq<byte>): Outcome
    requires 0 < |v| <= FACTOR_LEN && forall c :: c in table ==> 0 < |c.str| <= FACTOR_LEN
  {
    match HeadTag(table, v)
    case Wait => Quiet(e)
    case Tag(c) => Quiet(e.(state := c.state, offset := |c.str|))
    case NoTag =>
      if |e.fifo| == 1 && v[0] == GREATER then Quiet(e.(state := Send, offset := 1))
      else Quiet(Drop(e.(state := Idle, offset := 1)))
  }

  // A reply of the kinds ERROR and FAIL.
  function FailTurn(e: Engine): Outcome
    requires e.cmds != []
  {
    var retry := (e.cmds[0].retry + 255) % 256;
    var f := e.(fifo := [], state := Write, cmds := e.cmds[0 := e.cmds[0].(retry := retry)]);
    if retry == 0 then Outcome(DropFirst(f), Closed, [], []) else Outcome(f, e.state, [], [])
  }

  // The head of the queue is counted off.
  function Counted(e: Engine): Engine
    requires e.cmds != []
  {
    var delCnt := (e.cmds[0].delCnt + 255) % 256;
    var busy := if e.busy == 2 || |e.cmds[0].data| == 0 then 0 else e.busy;
    var f := e.(busy := busy, cmds := e.cmds[0 := e.cmds[0].(delCnt := delCnt)]);
    if delCnt == 0 then DropFirst(f) else f
  }

  // A reply of the kinds OK and CONNECT OK.
  function OkTurn(e: Engine): Outcome
    requires e.cmds != []
  {
    Outcome(Drop(Counted(e).(state := Idle)), e.state, [], [])
  }

  // A frame of n bytes whose header, of fmt bytes, is in view.
  function StartFrame(e: Engine, v: seq<byte>, fmt: nat, n: nat): Outcome
    requires fmt <= |v|
  {
    if n + fmt <= |v| then
      Outcome(Drop(e.(state := Idle, offset := fmt + n, frameSum := 0, parsing := false)), Idle,
              [Frame(1, v[fmt..fmt + n])], [])
    else
      Quiet(Drop(e.(union := Some(Overlay(Zeros(n), 0, v[fmt..])), frameSum := |v| - fmt, parsing := true,
                    offset := |v|)))
  }

  lemma TakenInView(v: seq<byte>)
    requires IpdDefined(v) && !IpdRefused(v)
    ensures IpdFormatLen(v) <= |v| && 0 < IpdDataLen(v)
  {
  }

  function NewFrameTurn(e: Engine, v: seq<byte>): Outcome
    requires IpdDefined(v) && e.union.None? && e.frameSum == 0
  {
    if IpdRefused(v) then Quiet(Cleaned(e)) else StartFrame(e, v, IpdFormatLen(v), IpdDataLen(v))
  }

  // More bytes of a frame that has been begun.
  function MoreFrameTurn(e: Engine, v: seq<byte>): Outcome
    requires e.union.Some? && e.frameSum + |v| <= |e.union.value|
  {
    var u := Overlay(e.union.value, e.frameSum, v);
    if e.frameSum + |v| == |u| then
      Outcome(Drop(e.(union := None, frameSum := 0, parsing := false, state := Idle, offset := |v|)), Idle,
              [Frame(1, u)], [])
    else
      Quiet(Drop(e.(union := Some(u), frameSum := e.frameSum + |v|, parsing := true, offset := |v|)))
  }

  function SignalTurn(e: Engine, v: seq<byte>, least: nat): Outcome {
    var n := SignalLen(v);
    if |v| < least || n == 0 then Quiet(e)
    else Outcome(Drop(e.(offset := n, state := Idle)), Idle, [Frame(0, v[..n])], [])
  }

  // The replies that concern neither the queue nor a frame.
  function PlainTurn(e: Engine): Outcome {
    match e.state
    case Ready => Outcome(Drop(e.(state := Idle)), Ready, [], [])
    case BusyS => Quiet(Drop(e.(state := Read)))
    case Closed => Outcome(Drop(e), Closed, [], [])
    case Send => Quiet(Drop(e.(state := WriteData)))
    case _ => Quiet(e)
  }

  // The switch of _read_handle.
  function SwitchTurn(cfg: Config, e: Engine, v: seq<byte>): Outcome
    requires ValidConfig(cfg) && Framed(e) && IsRead(e.state) && TurnDefined(e) && !e.parsing
    requires v == View(e) && v != []
  {
    match e.state
    case Read => ScanTurn(cfg.table, e, v)
    case ReadHead => HeadTurn(cfg.table, e, v)
    case Error => FailTurn(e)
    case Faild => FailTurn(e)
    case Ok => OkTurn(e)
    case ConnectOk => OkTurn(e)
    case IpdData => NewFrameTurn(e, v)
    case SignalCsq => SignalTurn(e, v, CSQ_MIN)
    case SignalCwjap => SignalTurn(e, v, CWJAP_MIN)
    case _ => PlainTurn(e)
  }

  // One round of the loop in _read_handle.
  function ReadTurn(cfg: Config, e: Engine): Outcome
    requires ValidConfig(cfg) && Framed(e) && IsRead(e.state) && TurnDefined(e)
  {
    var v := View(e);
    if v == [] then Quiet(e.(state := Idle))
    else if e.parsing then MoreFrameTurn(e.(state := IpdData), v)
    else SwitchTurn(cfg, e, v)
  }

  // The time since sys_tick, in 32-bit arithmetic.
  function Since(e: Engine, now: nat): nat {
    (now - e.tick) % U32_MOD
  }

  // _write_handle
  function WriteTurn(e: Engine, now: nat): Outcome
    requires (e.state == WriteCmd || e.state == WriteData) ==> e.cmds != []
  {
    match e.state
    case Write => Quiet(e.(state := WriteCmd))
    case WriteCmd => Outcome(e.(state := WriteCmdWait, busy := 1, tick := now), Idle, [], [e.cmds[0].text])
    case WriteCmdWait => Quiet(if Since(e, now) > 10 then e.(state := Read) else e)
    case WriteData => Outcome(e.(state := Read, busy := 2, tick := now), Idle, [], [e.cmds[0].data])
    case _ => Quiet(e)
  }

  function IdleTurn(e: Engine, now: nat): Outcome {
    if e.fifo != [] then Quiet(e.(state := Read))
    else if e.cmds == [] then Quiet(e)
    else if Since(e, now) > e.cmds[0].waitTime then
      var retry := (e.cmds[0].retry + 255) % 256;
      var f := e.(tick := now, busy := 0, cmds := e.cmds[0 := e.cmds[0].(retry := retry)]);
      if retry == 0 then Outcome(f, Closed, [], []) else Quiet(f.(state := Write))
    else Quiet(if e.busy == 0 then e.(state := Write) else e)
  }

  function Turn(cfg: Config, e: Engine, now: nat): Outcome
    requires ValidConfig(cfg) && Framed(e) && TurnDefined(e)
  {
    if e.state == Idle then IdleTurn(e, now)
    else if IsRead(e.state) then ReadTurn(cfg, e)
    else WriteTurn(e, now)
  }

  lemma TurnReads(cfg: Config, e: Engine, now: nat)
    requires ValidConfig(cfg) && Framed(e) && TurnDefined(e) && IsRead(e.state)
    ensures Turn(cfg, e, now) == ReadTurn(cfg, e)
    ensures View(e) == [] ==> ReadTurn(cfg, e) == Quiet(e.(state := Idle))
    ensures View(e) != [] && !e.parsing ==> ReadTurn(cfg, e) == SwitchTurn(cfg, e, View(e))
  {
    hide ValidConfig, TurnDefined, SwitchTurn, MoreFrameTurn, View;
  }

  // HyAtUtilsPutData
  function PutData(cfg: Config, e: Engine, data: seq<byte>): Engine
    requires |e.fifo| <= cfg.size
  {
    e.(fifo := e.fifo + data[..Min(|data|, cfg.size - |e.fifo|)])
  }

  // HyAtUtilsWriteCmd
  predicate Refuses(cfg: Config, e: Engine) {
    cfg.cmdNum != 0 && e.count >= cfg.cmdNum
  }

  function NewCmd(cfg: Config, text: seq<byte>, data: seq<byte>, waitTime: nat, retry: nat): Cmd {
    Cmd(text, data, waitTime, retry, if data != [] && cfg.isCmdOk then 2 else 1)
  }

  function Issue(cfg: Config, e: Engine, text: seq<byte>, data: seq<byte>, waitTime: nat, retry: nat): Engine {
    if Refuses(cfg, e) then e
    else e.(cmds := e.cmds + [NewCmd(cfg, text, data, waitTime, retry)], count := (e.count + 1) % 256)
  }

  // HyAtUtilsCreate
  const CREATED := Engine([], None, 0, 0, Idle, 0, false, [], 0, 0)
}
