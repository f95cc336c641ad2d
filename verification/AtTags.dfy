// What the scan of the AT engine drops, and what it keeps in front of the FIFO.
module AtTags {
  import opened Basics
  import opened AtSpec

  // The reply that the state stands for is still in front of the FIFO, and offset_len is its length.
  ghost predicate HasTag(table: seq<Catch>, e: Engine) {
    || (exists c :: c in table && c.state == e.state && c.str <= e.fifo && e.offset == |c.str|)
    || (e.state == Closed && e.offset == 0)
    || (e.state == Send && e.offset == 1 && e.fifo != [] && e.fifo[0] == GREATER)
  }

  ghost predicate TagAtFront(table: seq<Catch>, e: Engine) {
    && (e.state == ReadHead ==> e.fifo != [] && Starts(table, e.fifo[0]))
    && (!e.parsing && IsReply(e.state) ==> HasTag(table, e))
  }

  ghost predicate QueueInv(cfg: Config, e: Engine) {
    && e.count == |e.cmds| % 256
    && (cfg.cmdNum != 0 ==> |e.cmds| <= cfg.cmdNum)
    && forall i :: 0 <= i < |e.cmds| ==> 1 <= e.cmds[i].delCnt <= 2 && e.cmds[i].retry < 256
  }

  ghost predicate Inv(cfg: Config, e: Engine) {
    && ValidConfig(cfg) && Framed(e) && |e.fifo| <= cfg.size && e.offset <= FACTOR_LEN
    && QueueInv(cfg, e) && TagAtFront(cfg.table, e)
  }

  // The comparisons with the zero-padded buffer find a catch string exactly if it is in view.
  lemma MatchIsPrefix(str: seq<byte>, v: seq<byte>)
    requires 0 < |str| <= FACTOR_LEN && 0 !in str && |v| <= FACTOR_LEN
    ensures Padded(v)[..|str|] == str <==> str <= v
  {
    if |v| < |str| {
      assert Padded(v)[..|str|][|v|] == 0 != str[|v|];
    } else {
      assert Padded(v)[..|str|] == v[..|str|];
    }
  }

  lemma WaitsIfPrefix(str: seq<byte>, v: seq<byte>)
    requires 0 < |str| <= FACTOR_LEN && 0 !in str && |v| <= FACTOR_LEN
    ensures FirstTwo(str, Padded(v)) && |str| > |v| ==> |v| >= 2 && str[..2] == v[..2]
    ensures 2 <= |v| < |str| && v <= str ==> FirstTwo(str, Padded(v))
  {
    if |str| >= 2 {
      assert (str + [0])[..2] == str[..2];
      if |v| >= 2 {
        assert Padded(v)[..2] == v[..2];
        assert v <= str ==> v[..2] == str[..2];
      } else {
        assert Padded(v)[..2][1] == 0 != str[..2][1];
      }
    } else if v == [] {
      assert (str + [0])[..2][0] == str[0] != 0 == Padded(v)[..2][0];
    }
  }

  // The table is searched in order: the result is the first string that fits.
  lemma {:induction false} HeadTagFinds(table: seq<Catch>, v: seq<byte>)
    requires |v| <= FACTOR_LEN && forall c :: c in table ==> 0 < |c.str| <= FACTOR_LEN && 0 !in c.str
    ensures HeadTag(table, v).Tag? ==> HeadTag(table, v).catch in table && HeadTag(table, v).catch.str <= v
    ensures HeadTag(table, v).Wait? ==> |v| >= 2
    ensures HeadTag(table, v).NoTag? ==>
              forall c :: c in table ==> !(c.str <= v) && !(FirstTwo(c.str, Padded(v)) && |c.str| > |v|)
  {
    if table != [] {
      MatchIsPrefix(table[0].str, v);
      WaitsIfPrefix(table[0].str, v);
      HeadTagFinds(table[1..], v);
      assert forall c :: c in table <==> c == table[0] || c in table[1..];
    }
  }

  // The string stands whole at the front of the view.
  predicate Fits(c: Catch, v: seq<byte>) {
    c.str <= v
  }

  // The view is shorter than the string and agrees with it in the first two bytes, so that more
  // bytes are waited for.
  predicate Delays(c: Catch, v: seq<byte>) {
    2 <= |v| < |c.str| && c.str[..2] == v[..2]
  }

  // Entry i is the first one that decides about the view.
  predicate Decides(table: seq<Catch>, v: seq<byte>, i: nat)
    requires i < |table|
  {
    && (Fits(table[i], v) || Delays(table[i], v))
    && forall j :: 0 <= j < i ==> !Fits(table[j], v) && !Delays(table[j], v)
  }

  lemma {:induction false} HeadTagDecided(table: seq<Catch>, v: seq<byte>)
    requires |v| <= FACTOR_LEN && forall c :: c in table ==> 0 < |c.str| <= FACTOR_LEN && 0 !in c.str
    ensures forall i :: 0 <= i < |table| && Decides(table, v, i) ==>
              HeadTag(table, v) == if Fits(table[i], v) then Tag(table[i]) else Wait
    ensures HeadTag(table, v) == NoTag <==> forall i :: 0 <= i < |table| ==> !Decides(table, v, i)
  {
    hide Padded, FirstTwo;
    if table != [] {
      var rest := table[1..];
      MatchIsPrefix(table[0].str, v);
      DelaysExactly(table[0], v);
      HeadTagDecided(rest, v);
      hide Fits, Delays, HeadTag;
      if Fits(table[0], v) || Delays(table[0], v) {
        assert Decides(table, v, 0);
      } else {
        assert forall i :: 0 < i < |table| ==> table[i] == rest[i - 1];
        forall i | 0 < i < |table|
          ensures Decides(table, v, i) <==> Decides(rest, v, i - 1)
        {
          DecidesLater(table, v, i);
        }
        assert forall i :: 0 <= i < |rest| ==> (Decides(rest, v, i) <==> Decides(table, v, i + 1));
      }
    }
  }

  // What is found at the front of the view is told by the first entry that fits or delays: its tag
  // if it fits, and that more bytes are waited for if it delays.
  lemma HeadTagExactly(table: seq<Catch>, v: seq<byte>)
    requires |v| <= FACTOR_LEN && forall c :: c in table ==> 0 < |c.str| <= FACTOR_LEN && 0 !in c.str
    ensures forall c ::
              HeadTag(table, v) == Tag(c) <==>
              exists i :: 0 <= i < |table| && table[i] == c && Fits(c, v) && Decides(table, v, i)
    ensures HeadTag(table, v) == Wait <==>
              exists i :: 0 <= i < |table| && Delays(table[i], v) && Decides(table, v, i)
    ensures HeadTag(table, v) == NoTag <==> forall i :: 0 <= i < |table| ==> !Decides(table, v, i)
  {
    HeadTagDecided(table, v);
    hide HeadTag;
  }

  lemma DecidesLater(table: seq<Catch>, v: seq<byte>, i: nat)
    requires 0 < i < |table| && !Fits(table[0], v) && !Delays(table[0], v)
    ensures Decides(table, v, i) <==> Decides(table[1..], v, i - 1)
  {
    hide Fits, Delays;
    var rest := table[1..];
    assert forall j :: 0 <= j < i - 1 ==> rest[j] == table[j + 1];
    assert forall j :: 0 < j < i ==> table[j] == rest[j - 1];
  }

  lemma DelaysExactly(c: Catch, v: seq<byte>)
    requires 0 < |c.str| <= FACTOR_LEN && 0 !in c.str && |v| <= FACTOR_LEN
    ensures FirstTwo(c.str, Padded(v)) && |c.str| > |v| <==> Delays(c, v)
  {
    WaitsIfPrefix(c.str, v);
    if Delays(c, v) {
      assert (c.str + [0])[..2] == c.str[..2];
      assert Padded(v)[..2] == v[..2];
    }
  }

  // ---- No catch string is lost --------------------------------------------------------------

  // No catch string starts here, whatever comes after the bytes of s.
  ghost predicate NoTagHere(table: seq<Catch>, s: seq<byte>) {
    forall c, more :: c in table ==> !(c.str <= s + more)
  }

  // What the scan for a first byte drops.
  lemma ScanKeepsTags(cfg: Config, e: Engine, now: nat, k: nat)
    requires ValidConfig(cfg) && Framed(e) && e.state == Read && !e.parsing
    requires k < |e.fifo| - |Turn(cfg, e, now).engine.fifo|
    ensures NoTagHere(cfg.table, e.fifo[k..])
  {
    var v := View(e);
    assert !Starts(cfg.table, v[k]);
    forall c, more | c in cfg.table
      ensures !(c.str <= e.fifo[k..] + more)
    {
      var i :| 0 <= i < |cfg.table| && cfg.table[i] == c;
      assert c.str[0] != v[k] == (e.fifo[k..] + more)[0];
    }
  }

  lemma NoTagInView(table: seq<Catch>, v: seq<byte>, s: seq<byte>)
    requires 2 <= |v| <= FACTOR_LEN && v <= s
    requires forall c :: c in table ==> 0 < |c.str| <= FACTOR_LEN && 0 !in c.str
    requires HeadTag(table, v).NoTag?
    ensures NoTagHere(table, s)
  {
    HeadTagFinds(table, v);
    forall c, more | c in table
      ensures !(c.str <= s + more)
    {
      WaitsIfPrefix(c.str, v);
      assert v == (s + more)[..|v|];
      if |c.str| <= |v| {
        assert (s + more)[..|c.str|] == v[..|c.str|] != c.str;
      } else {
        assert v != c.str[..|v|];
      }
    }
  }

  // The examination of a head drops one byte or none, and it drops the first byte of what may
  // become a catch string exactly if that byte is the only one there, is no catch string itself
  // and is not the prompt.
  lemma HeadLosesExactly(cfg: Config, e: Engine, now: nat)
    requires Inv(cfg, e) && e.state == ReadHead && !e.parsing
    ensures |e.fifo| - |Turn(cfg, e, now).engine.fifo| in {0, 1}
    ensures |Turn(cfg, e, now).engine.fifo| < |e.fifo| && !NoTagHere(cfg.table, e.fifo)
            <==> |e.fifo| == 1 && e.fifo[0] != GREATER && forall c :: c in cfg.table ==> c.str != e.fifo
  {
    var v := View(e);
    HeadDrops(cfg, e, now);
    hide Turn;
    if |v| >= 2 {
      hide View, Inv, HeadTag;
      if HeadTag(cfg.table, v).NoTag? {
        NoTagInView(cfg.table, v, e.fifo);
      }
    } else {
      assert v == e.fifo;
      OneByteHead(cfg.table, v);
    }
  }

  lemma HeadDrops(cfg: Config, e: Engine, now: nat)
    requires Inv(cfg, e) && e.state == ReadHead && !e.parsing
    ensures var v := View(e);
            && e.fifo != [] && v != [] && Starts(cfg.table, e.fifo[0])
            && |Turn(cfg, e, now).engine.fifo|
               == |e.fifo| - if HeadTag(cfg.table, v).NoTag? && !(|e.fifo| == 1 && v[0] == GREATER) then 1 else 0
  {
    TurnReads(cfg, e, now);
    hide Turn, View, Starts, HeadTag, QueueInv, ValidConfig;
  }

  // A single byte that some catch string starts with.
  lemma OneByteHead(table: seq<Catch>, v: seq<byte>)
    requires |v| == 1 && Starts(table, v[0])
    requires forall c :: c in table ==> 0 < |c.str| <= FACTOR_LEN && 0 !in c.str
    ensures !NoTagHere(table, v)
    ensures HeadTag(table, v).NoTag? <==> forall c :: c in table ==> c.str != v
  {
    var i :| 0 <= i < |table| && table[i].str != [] && table[i].str[0] == v[0];
    assert table[i].str <= v + table[i].str[1..];
    HeadTagFinds(table, v);
    hide HeadTag;
    if HeadTag(table, v).Tag? {
      assert HeadTag(table, v).catch.str == v;
    }
  }
}
