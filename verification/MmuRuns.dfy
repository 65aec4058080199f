/** Runs of the MMU against a memory that answers reads in any order: what is delivered, what is
    read, and that it always gets there. */
module MmuRuns {
  import opened Arbiters
  import opened Mmu
  import opened MmuInvariant
  import opened MmuCycle
  import opened MmuWalkers
  import opened Options

  /** What the walk of a request comes to: its three reads, from the root down, and the leaf entry. */
  datatype WalkLog = WalkLog(addrs: seq<nat>, leaf: nat)

  /** What happened for one source: the requests accepted, the walks they ask for in the memory that
      they were accepted in, the answers given and the reads sent. */
  datatype Logs = Logs(accepted: seq<Req>, walks: seq<WalkLog>, answered: seq<nat>, fetched: seq<nat>)

  /** The MMU, the reads outstanding in memory, and the logs by source. */
  datatype Config = Config(m: State, out: multiset<(nat, nat)>, logs: seq<Logs>)

  ghost predicate Logged(c: Config)
  {
    Shape(c.m) && |c.logs| == 4
  }

  /** The k-th request of source s is in flight. */
  ghost predicate InFlight(c: Config, s: nat, k: nat)
  {
    Logged(c) && s < 4 && |c.logs[s].answered| == k < |c.logs[s].accepted|
  }

  /** The three reads of a walk, from the root down. */
  function WalkReads(mem: nat -> nat, r: Req): (a: seq<nat>)
    ensures |a| == 3
  {
    [ReadAddr(mem, r, 2), ReadAddr(mem, r, 1), ReadAddr(mem, r, 0)]
  }

  function WalkOf(mem: nat -> nat, r: Req): WalkLog
  {
    WalkLog(WalkReads(mem, r), Leaf(mem, r))
  }

  /** Nothing changes at the three addresses that a walk reads. */
  ghost predicate SameWalk(mem: nat -> nat, mem': nat -> nat, r: Req)
  {
    forall l: nat :: l <= 2 ==> mem'(ReadAddr(mem, r, l)) == mem(ReadAddr(mem, r, l))
  }

  /** The rule on tables: memory may change from mem to mem', but not where a walk in flight reads. */
  ghost predicate Steady(mem: nat -> nat, mem': nat -> nat, c: Config)
    requires Logged(c)
  {
    forall s: nat, k: nat :: InFlight(c, s, k) ==> SameWalk(mem, mem', c.logs[s].accepted[k])
  }

  /** The environment's part: one request in flight per source, and answers to outstanding reads only. */
  ghost predicate EnvOk(c: Config, e: Event)
    requires Logged(c)
  {
    && (e.req.Some? ==> e.req.value.source < 4 && var l := c.logs[e.req.value.source]; |l.accepted| == |l.answered|)
    && (e.answer.Some? ==> e.answer.value in c.out)
  }

  /** What a cycle adds to the logs of source s. */
  ghost function LogsNext(mem: nat -> nat, c: Config, e: Event, s: nat): Logs
    requires Logged(c) && s < 4
  {
    var l, input, sent := c.logs[s], InputOf(mem, e), MemReq(c.m);
    var accepts := ReqFires(c.m, input) && e.req.value.source == s;
    Logs(
      if accepts then l.accepted + [e.req.value] else l.accepted,
      if accepts then l.walks + [WalkOf(mem, e.req.value)] else l.walks,
      if RspFires(c.m, input) && c.m.tlbRsp.item.source == s then l.answered + [c.m.tlbRsp.item.word] else l.answered,
      if sent.Some? && e.memReady && sent.value.source % 4 == s then l.fetched + [sent.value.word] else l.fetched)
  }

  /** One cycle of the MMU and of memory. */
  ghost function Cycle(mem: nat -> nat, c: Config, e: Event): (c': Config)
    requires Logged(c)
    ensures Logged(c')
  {
    Config(Next(c.m, InputOf(mem, e)), OutNext(mem, c.m, e, c.out),
           [LogsNext(mem, c, e, 0), LogsNext(mem, c, e, 1), LogsNext(mem, c, e, 2), LogsNext(mem, c, e, 3)])
  }

  /** A cycle logs at most one request and one answer of a source. */
  lemma LogsAfter(mem: nat -> nat, c: Config, e: Event, s: nat)
    requires Logged(c) && s < 4
    ensures var l, l' := c.logs[s], LogsNext(mem, c, e, s);
      && (l'.accepted == l.accepted
          || (e.req.Some? && e.req.value.source == s && l'.accepted == l.accepted + [e.req.value]))
      && |l.answered| <= |l'.answered| <= |l.answered| + 1
  {
    hide WalkOf, MemReq;
  }

  ghost predicate Initial(c: Config)
  {
    Reset(c.m) && c.out == multiset{} && |c.logs| == 4 && forall s :: 0 <= s < 4 ==> c.logs[s] == Logs([], [], [], [])
  }

  /** The reads of some walks, one walk after the other. */
  function AllReads(ws: seq<WalkLog>): seq<nat>
  {
    if ws == [] then [] else AllReads(ws[..|ws| - 1]) + ws[|ws| - 1].addrs
  }

  /** How many of its reads a request has sent. */
  function ReadsDone(g: Stage): (n: nat)
    requires StageOk(g)
    ensures n <= 3
  {
    if g.First? || g.PcReq? then 2 - g.level
    else if g.PcOut? || g.PcRsp? then 3 - g.level
    else if g.FirstDone? || g.Last? || g.LlReq? then 2
    else if g.Absent? || g.TlbQ? || g.PtwQ? then 0
    else 3
  }

  ghost predicate LogOk(mem: nat -> nat, l: Logs, g: Stage, r: Req)
    requires StageOk(g)
  {
    && |l.walks| == |l.accepted| == |l.answered| + (if g == Absent then 0 else 1)
    && (g != Absent ==> l.accepted[|l.answered|] == r && l.walks[|l.answered|] == WalkOf(mem, r))
    && (forall k :: 0 <= k < |l.answered| ==> l.answered[k] == l.walks[k].leaf)
    && l.fetched == AllReads(l.walks[..|l.answered|]) + WalkReads(mem, r)[..ReadsDone(g)]
  }

  ghost predicate InvAt(mem: nat -> nat, c: Config, loc: seq<Stage>, cur: seq<Req>)
  {
    && Logged(c) && Places(mem, c.m, c.out, loc, cur) && Flow(c.m)
    && forall s :: 0 <= s < 4 ==> LogOk(mem, c.logs[s], loc[s], cur[s])
  }

  lemma InitialInv(mem: nat -> nat, c: Config) returns (loc: seq<Stage>, cur: seq<Req>)
    requires Initial(c)
    ensures InvAt(mem, c, loc, cur)
  {
    hide ReadAddr, FirstImage, LastImage, Leaf, FirstFlags, LastFlags, WalkReads, AllReads, LogOk, Flow, FirstOk,
         LastOk, OutOk;
    loc := [Absent, Absent, Absent, Absent];
    cur := [Req(0, 0, 0), Req(0, 0, 1), Req(0, 0, 2), Req(0, 0, 3)];
    InitialWalkers(mem, c, loc, cur);
    forall s: nat | s < 4 ensures LogOk(mem, c.logs[s], loc[s], cur[s]) {
      InitialLog(mem, cur[s]);
    }
  }

  lemma InitialWalkers(mem: nat -> nat, c: Config, loc: seq<Stage>, cur: seq<Req>)
    requires Initial(c) && Sources(loc, cur) && forall s :: 0 <= s < 4 ==> loc[s] == Absent
    ensures Flow(c.m) && FirstOk(mem, c.m.first, loc, cur)
    ensures LastOk(mem, c.m.last, loc, cur) && OutOk(mem, c.out, loc, cur)
  {
    hide ReadAddr, FirstImage, LastImage, OutAt;
  }

  lemma InitialLog(mem: nat -> nat, r: Req)
    ensures LogOk(mem, Logs([], [], [], []), Absent, r)
  {
    hide ReadAddr;
  }

  /** The stage after g. */
  predicate Follows(g: Stage, g': Stage)
  {
    match g
    case Absent => g' == TlbQ
    case TlbQ => g' == PtwQ
    case PtwQ => g'.First? && g'.level == 2
    case First(i, l) => g' == PcReq(i, l)
    case PcReq(i, l) => g' == PcOut(i, l)
    case PcOut(i, l) => g' == PcRsp(i, l)
    case PcRsp(i, l) => g' == if l > 1 then First(i, l - 1) else FirstDone(i)
    case FirstDone(i) => g'.Last?
    case Last(i) => g' == LlReq(i)
    case LlReq(i) => g' == LlOut(i)
    case LlOut(i) => g' == LlRsp(i)
    case LlRsp(i) => g' == LastDone(i)
    case LastDone(i) => g' == L2Q
    case L2Q => g' == RspQ
    case RspQ => g' == Absent
  }

  /** A request stays where it is for a cycle, or moves one stage on. */
  lemma AdvanceFollows(m: State, input: Input, g: Stage, s: nat)
    requires Shape(m) && StageOk(g)
    ensures Advance(m, input, g, s) == g || Follows(g, Advance(m, input, g, s))
  {
    hide FirstFlags, LastFlags, Chosen, Pick, Any, FirstRead, FirstSent, LastRead, LastSent, FirstReadFires,
         LastReadFires, LlFires, EnqFires, PcRspFires, LlRspFires, PtwRspFires;
  }

  lemma AcceptLog(mem: nat -> nat, c: Config, e: Event, loc: seq<Stage>, cur: seq<Req>, loc': seq<Stage>,
                  cur': seq<Req>, s: nat)
    requires Logged(c) && Moves(c.m, InputOf(mem, e), loc, cur, loc', cur') && s < 4
    ensures var l, l', accepts := c.logs[s], LogsNext(mem, c, e, s), loc[s] == Absent && loc'[s] != Absent;
      && l'.accepted == (if accepts then l.accepted + [cur'[s]] else l.accepted)
      && l'.walks == if accepts then l.walks + [WalkOf(mem, cur'[s])] else l.walks
  {
    hide Advance, ReadAddr, WalkOf;
    IntoTlb(c.m, InputOf(mem, e), loc[s], s);
    AdvanceFollows(c.m, InputOf(mem, e), loc[s], s);
  }

  lemma AnswerLog(mem: nat -> nat, c: Config, e: Event, loc: seq<Stage>, cur: seq<Req>, loc': seq<Stage>,
                  cur': seq<Req>, s: nat)
    requires Logged(c) && Moves(c.m, InputOf(mem, e), loc, cur, loc', cur')
    requires s < 4 && RspOk(mem, c.m.tlbRsp, loc, cur, RspQ)
    ensures LogsNext(mem, c, e, s).answered ==
      if loc[s] == RspQ && loc'[s] != RspQ then c.logs[s].answered + [Leaf(mem, cur[s])] else c.logs[s].answered
  {
    hide Advance, ReadAddr, Leaf, WalkOf;
    IntoResponse(c.m, InputOf(mem, e), loc[s], s);
    AdvanceFollows(c.m, InputOf(mem, e), loc[s], s);
  }

  lemma ReadLog(mem: nat -> nat, c: Config, e: Event, loc: seq<Stage>, cur: seq<Req>, loc': seq<Stage>,
                cur': seq<Req>, s: nat)
    requires Logged(c) && Moves(c.m, InputOf(mem, e), loc, cur, loc', cur') && s < 4
    requires PcReqOk(mem, c.m.pcReq, loc, cur) && LlReqOk(mem, c.m.llReq, loc, cur)
    ensures LogsNext(mem, c, e, s).fetched ==
      if loc[s].PcReq? && loc'[s] != loc[s] then c.logs[s].fetched + [ReadAddr(mem, cur[s], loc[s].level)]
      else if loc[s].LlReq? && loc'[s] != loc[s] then c.logs[s].fetched + [ReadAddr(mem, cur[s], 0)]
      else c.logs[s].fetched
  {
    hide Advance, ReadAddr, WalkOf;
    IntoPageCache(c.m, InputOf(mem, e), loc[s], s);
    IntoLastCache(c.m, InputOf(mem, e), loc[s], s);
    AdvanceFollows(c.m, InputOf(mem, e), loc[s], s);
  }

  /** The logs of one source after it has moved from g to g'. */
  lemma LogMoves(mem: nat -> nat, l: Logs, g: Stage, r: Req, l': Logs, g': Stage, r': Req)
    requires StageOk(g) && StageOk(g') && LogOk(mem, l, g, r)
    requires (g' == g || Follows(g, g')) && (g != Absent ==> r' == r)
    requires l'.accepted == if g == Absent && g' != Absent then l.accepted + [r'] else l.accepted
    requires l'.walks == if g == Absent && g' != Absent then l.walks + [WalkOf(mem, r')] else l.walks
    requires l'.answered == if g == RspQ && g' != RspQ then l.answered + [Leaf(mem, r)] else l.answered
    requires l'.fetched == if g.PcReq? && g' != g then l.fetched + [ReadAddr(mem, r, g.level)]
                     else if g.LlReq? && g' != g then l.fetched + [ReadAddr(mem, r, 0)]
                     else l.fetched
    ensures LogOk(mem, l', g', r') && |l'.answered| <= |l.accepted|
  {
    hide ReadAddr, Leaf, AllReads, WalkReads;
    var n := |l.answered|;
    if g == RspQ && g' != RspQ {
      AllReadsNext(l.walks, n);
      assert WalkReads(mem, r)[..3] == WalkReads(mem, r) && WalkReads(mem, r')[..0] == [];
    } else if g == Absent && g' != Absent {
      assert l'.walks[..n] == l.walks[..n];
      assert WalkReads(mem, r)[..0] == WalkReads(mem, r')[..0];
    } else if g' != g {
      NextRead(mem, g, r, g');
    }
  }

  lemma NextRead(mem: nat -> nat, g: Stage, r: Req, g': Stage)
    requires StageOk(g) && StageOk(g') && Follows(g, g') && g != Absent && g != RspQ
    ensures WalkReads(mem, r)[..ReadsDone(g')] == WalkReads(mem, r)[..ReadsDone(g)] +
      if g.PcReq? then [ReadAddr(mem, r, g.level)] else if g.LlReq? then [ReadAddr(mem, r, 0)] else []
  {
    hide ReadAddr;
  }

  lemma AllReadsNext(ws: seq<WalkLog>, n: nat)
    requires n < |ws|
    ensures AllReads(ws[..n + 1]) == AllReads(ws[..n]) + ws[n].addrs
  {
    assert ws[..n + 1][..n] == ws[..n];
  }

  lemma StepInv(mem: nat -> nat, c: Config, e: Event, loc: seq<Stage>, cur: seq<Req>)
    returns (loc': seq<Stage>, cur': seq<Req>)
    requires InvAt(mem, c, loc, cur) && EnvOk(c, e)
    ensures Moves(c.m, InputOf(mem, e), loc, cur, loc', cur') && InvAt(mem, Cycle(mem, c, e), loc', cur')
    ensures forall s: nat :: s < 4 ==> LogGrows(c.logs[s], Cycle(mem, c, e).logs[s])
  {
    hide LogOk, TlbOk, FirstOk, PcReqOk, PcRspOk, LastOk, LlReqOk, LlRspOk, RspOk, OutOk, Flow, Next, OutNext,
         Moves, Advance, ReadAddr, Leaf, LocNext, CurNext, LogsNext, LogGrows;
    var input := InputOf(mem, e);
    EnvLegal(mem, c, e, loc, cur);
    loc', cur' := LocNext(c.m, input, loc), CurNext(c.m, input, cur);
    MovesNext(c.m, input, loc, cur);
    PlacesNext(mem, c.m, e, c.out, loc, cur, loc', cur');
    FlowNext(mem, c.m, input, loc, cur);
    forall s: nat | s < 4
      ensures LogOk(mem, LogsNext(mem, c, e, s), loc'[s], cur'[s]) && LogGrows(c.logs[s], LogsNext(mem, c, e, s))
    {
      LogNext(mem, c, e, loc, cur, loc', cur', s);
    }
  }

  /** Nothing logged is changed later, and what is answered was accepted before. */
  ghost predicate LogGrows(l: Logs, l': Logs)
  {
    l.accepted <= l'.accepted && l.walks <= l'.walks && l.answered <= l'.answered && |l'.answered| <= |l.accepted|
  }

  lemma EnvLegal(mem: nat -> nat, c: Config, e: Event, loc: seq<Stage>, cur: seq<Req>)
    requires InvAt(mem, c, loc, cur) && EnvOk(c, e)
    ensures Legal(e, c.out, loc) && ReqLegal(InputOf(mem, e), loc)
  {
    hide TlbOk, FirstOk, PcReqOk, PcRspOk, LastOk, LlReqOk, LlRspOk, RspOk, OutOk, Flow, ReadAddr, Leaf, AllReads,
         WalkReads;
    if e.req.Some? {
      var s := e.req.value.source;
      assert LogOk(mem, c.logs[s], loc[s], cur[s]);
    }
  }

  lemma PlacesNext(mem: nat -> nat, m: State, e: Event, out: multiset<(nat, nat)>, loc: seq<Stage>, cur: seq<Req>,
                   loc': seq<Stage>, cur': seq<Req>)
    requires Places(mem, m, out, loc, cur) && Flow(m)
    requires Moves(m, InputOf(mem, e), loc, cur, loc', cur') && Legal(e, out, loc)
    ensures Places(mem, Next(m, InputOf(mem, e)), OutNext(mem, m, e, out), loc', cur')
  {
    hide TlbOk, FirstOk, PcReqOk, PcRspOk, LastOk, LlReqOk, LlRspOk, RspOk, OutOk, Flow, Next, OutNext, Advance,
         Legal;
    var input := InputOf(mem, e);
    TlbReqNext(m, input, loc, cur, loc', cur');
    PtwReqNext(m, input, loc, cur, loc', cur');
    FirstOkNext(mem, m, input, loc, cur, loc', cur');
    PcReqNext(mem, m, input, loc, cur, loc', cur');
    PcRspNext(mem, m, e, out, loc, cur, loc', cur');
    LastOkNext(mem, m, input, loc, cur, loc', cur');
    LlReqNext(mem, m, input, loc, cur, loc', cur');
    LlRspNext(mem, m, e, out, loc, cur, loc', cur');
    L2RspNext(mem, m, input, loc, cur, loc', cur');
    TlbRspNext(mem, m, input, loc, cur, loc', cur');
    OutstandingNext(mem, m, e, out, loc, cur, loc', cur');
  }

  /** What a cycle logs for source s follows its stage. */
  lemma LogNext(mem: nat -> nat, c: Config, e: Event, loc: seq<Stage>, cur: seq<Req>, loc': seq<Stage>,
                cur': seq<Req>, s: nat)
    requires InvAt(mem, c, loc, cur) && Moves(c.m, InputOf(mem, e), loc, cur, loc', cur') && s < 4
    ensures LogOk(mem, LogsNext(mem, c, e, s), loc'[s], cur'[s]) && LogGrows(c.logs[s], LogsNext(mem, c, e, s))
  {
    hide ReadAddr, Advance, Leaf, LogsNext, FirstOk, LastOk, PcReqOk, PcRspOk, LlReqOk, LlRspOk, RspOk, OutOk, Flow,
         LogOk, TlbOk, WalkOf;
    AcceptLog(mem, c, e, loc, cur, loc', cur', s);
    ReadLog(mem, c, e, loc, cur, loc', cur', s);
    AnswerLog(mem, c, e, loc, cur, loc', cur', s);
    AdvanceFollows(c.m, InputOf(mem, e), loc[s], s);
    LogMoves(mem, c.logs[s], loc[s], cur[s], LogsNext(mem, c, e, s), loc'[s], cur'[s]);
  }

  /** A walk that memory does not touch is the same walk after the change. */
  lemma SameWalkReads(mem: nat -> nat, mem': nat -> nat, r: Req)
    requires SameWalk(mem, mem', r)
    ensures forall l: nat :: l <= 2 ==> Ppn(mem', r, l) == Ppn(mem, r, l) && ReadAddr(mem', r, l) == ReadAddr(mem, r, l)
    ensures forall l: nat :: l <= 2 ==> mem'(ReadAddr(mem', r, l)) == mem(ReadAddr(mem, r, l))
    ensures Leaf(mem', r) == Leaf(mem, r) && WalkOf(mem', r) == WalkOf(mem, r)
  {
    hide EntryAddr, PtePpn, VpnOf;
    assert Ppn(mem', r, 2) == Ppn(mem, r, 2);
    assert ReadAddr(mem', r, 2) == ReadAddr(mem, r, 2);
    assert ReadAddr(mem', r, 1) == ReadAddr(mem, r, 1);
    assert ReadAddr(mem', r, 0) == ReadAddr(mem, r, 0);
  }

  ghost predicate SameWalks(mem: nat -> nat, mem': nat -> nat, loc: seq<Stage>, cur: seq<Req>)
    requires Sources(loc, cur)
  {
    forall s: nat :: s < 4 && loc[s] != Absent ==> SameWalk(mem, mem', cur[s])
  }

  lemma WalkersFrame(mem: nat -> nat, mem': nat -> nat, m: State, loc: seq<Stage>, cur: seq<Req>)
    requires Shape(m) && Sources(loc, cur) && SameWalks(mem, mem', loc, cur)
    requires FirstOk(mem, m.first, loc, cur) && LastOk(mem, m.last, loc, cur)
    ensures FirstOk(mem', m.first, loc, cur) && LastOk(mem', m.last, loc, cur)
  {
    hide Ppn, ReadAddr, Leaf, VpnOf, WalkOf, SameWalk;
    forall s: nat | s < 4 && loc[s] != Absent
      ensures InFirst(loc[s]) ==> FirstImage(mem', loc[s], cur[s], s) == FirstImage(mem, loc[s], cur[s], s)
      ensures InLast(loc[s]) ==> LastImage(mem', loc[s], cur[s], s) == LastImage(mem, loc[s], cur[s], s)
    {
      SameWalkReads(mem, mem', cur[s]);
    }
  }

  /** The reads of the walks in flight, and the words they find, are the same. */
  ghost predicate SameReadsOf(mem: nat -> nat, mem': nat -> nat, loc: seq<Stage>, cur: seq<Req>)
    requires Sources(loc, cur)
  {
    forall s: nat, l: nat :: s < 4 && loc[s] != Absent && l <= 2 ==>
      ReadAddr(mem', cur[s], l) == ReadAddr(mem, cur[s], l)
      && mem'(ReadAddr(mem', cur[s], l)) == mem(ReadAddr(mem, cur[s], l))
  }

  lemma WalksAlike(mem: nat -> nat, mem': nat -> nat, loc: seq<Stage>, cur: seq<Req>)
    requires Sources(loc, cur) && SameWalks(mem, mem', loc, cur)
    ensures SameReadsOf(mem, mem', loc, cur)
  {
    hide Ppn, ReadAddr, Leaf, VpnOf, WalkOf, SameWalk;
    forall s: nat, l: nat | s < 4 && loc[s] != Absent && l <= 2
      ensures ReadAddr(mem', cur[s], l) == ReadAddr(mem, cur[s], l)
      ensures mem'(ReadAddr(mem', cur[s], l)) == mem(ReadAddr(mem, cur[s], l))
    {
      SameWalkReads(mem, mem', cur[s]);
    }
  }

  lemma ReadsFrame(mem: nat -> nat, mem': nat -> nat, m: State, loc: seq<Stage>, cur: seq<Req>)
    requires Sources(loc, cur) && SameReadsOf(mem, mem', loc, cur)
    requires PcReqOk(mem, m.pcReq, loc, cur) && LlReqOk(mem, m.llReq, loc, cur) && PcRspOk(mem, m.pcRsp, loc, cur)
    ensures PcReqOk(mem', m.pcReq, loc, cur) && LlReqOk(mem', m.llReq, loc, cur) && PcRspOk(mem', m.pcRsp, loc, cur)
  {
    hide ReadAddr;
  }

  lemma OutFrame(mem: nat -> nat, mem': nat -> nat, out: multiset<(nat, nat)>, loc: seq<Stage>, cur: seq<Req>)
    requires Sources(loc, cur) && SameReadsOf(mem, mem', loc, cur) && OutOk(mem, out, loc, cur)
    ensures OutOk(mem', out, loc, cur)
  {
    hide ReadAddr;
  }

  lemma LeavesFrame(mem: nat -> nat, mem': nat -> nat, ll: Queue<Msg>, l2: Queue<Msg>, tlb: Queue<Msg>,
                    loc: seq<Stage>, cur: seq<Req>)
    requires Sources(loc, cur) && SameWalks(mem, mem', loc, cur)
    requires LlRspOk(mem, ll, loc, cur) && RspOk(mem, l2, loc, cur, L2Q) && RspOk(mem, tlb, loc, cur, RspQ)
    ensures LlRspOk(mem', ll, loc, cur) && RspOk(mem', l2, loc, cur, L2Q) && RspOk(mem', tlb, loc, cur, RspQ)
  {
    hide Ppn, ReadAddr, Leaf, VpnOf, WalkOf, SameWalk;
    forall s: nat | s < 4 && loc[s] != Absent ensures Leaf(mem', cur[s]) == Leaf(mem, cur[s]) {
      SameWalkReads(mem, mem', cur[s]);
    }
  }

  /** The invariant does not notice a change of memory away from the walks in flight. */
  lemma InvFrame(mem: nat -> nat, mem': nat -> nat, c: Config, loc: seq<Stage>, cur: seq<Req>)
    requires InvAt(mem, c, loc, cur) && Steady(mem, mem', c)
    ensures InvAt(mem', c, loc, cur)
  {
    hide FirstOk, PcReqOk, PcRspOk, LastOk, LlReqOk, LlRspOk, RspOk, OutOk, Flow, TlbOk, SameWalk, AllReads, WalkOf,
         WalkReads, Leaf;
    forall s: nat | s < 4 && loc[s] != Absent ensures SameWalk(mem, mem', cur[s]) {
      assert LogOk(mem, c.logs[s], loc[s], cur[s]);
      assert InFlight(c, s, |c.logs[s].answered|);
    }
    WalkersFrame(mem, mem', c.m, loc, cur);
    WalksAlike(mem, mem', loc, cur);
    ReadsFrame(mem, mem', c.m, loc, cur);
    OutFrame(mem, mem', c.out, loc, cur);
    LeavesFrame(mem, mem', c.m.llRsp, c.m.l2Rsp, c.m.tlbRsp, loc, cur);
    forall s: nat | s < 4 ensures LogOk(mem', c.logs[s], loc[s], cur[s]) {
      LogFrame(mem, mem', c.logs[s], loc[s], cur[s]);
    }
  }

  lemma LogFrame(mem: nat -> nat, mem': nat -> nat, l: Logs, g: Stage, r: Req)
    requires StageOk(g) && LogOk(mem, l, g, r) && (g != Absent ==> SameWalk(mem, mem', r))
    ensures LogOk(mem', l, g, r)
  {
    hide SameWalk, AllReads, ReadAddr, Leaf;
    if g == Absent {
      assert WalkReads(mem, r)[..0] == WalkReads(mem', r)[..0];
    } else {
      SameWalkReads(mem, mem', r);
    }
  }

  ghost predicate Inv(mem: nat -> nat, c: Config)
  {
    exists loc, cur :: InvAt(mem, c, loc, cur)
  }

  /** Cycles of the MMU and of a memory that changes as it likes, away from the walks in flight. */
  ghost predicate Steps(mems: seq<nat -> nat>, configs: seq<Config>, events: seq<Event>)
  {
    && |mems| == |configs| == |events| + 1
    && forall i :: 0 <= i < |events| ==> StepAt(mems, configs, events, i)
  }

  ghost predicate StepAt(mems: seq<nat -> nat>, configs: seq<Config>, events: seq<Event>, i: nat)
    requires |mems| == |configs| == |events| + 1 && i < |events|
  {
    && Logged(configs[i]) && EnvOk(configs[i], events[i]) && configs[i + 1] == Cycle(mems[i], configs[i], events[i])
    && Steady(mems[i], mems[i + 1], configs[i + 1])
  }

  /** A run from reset, whatever the environment does within its rules. */
  ghost predicate Run(mems: seq<nat -> nat>, configs: seq<Config>, events: seq<Event>)
  {
    Steps(mems, configs, events) && Initial(configs[0])
  }

  lemma NextInv(mems: seq<nat -> nat>, configs: seq<Config>, events: seq<Event>, i: nat, loc: seq<Stage>,
                cur: seq<Req>)
    returns (loc': seq<Stage>, cur': seq<Req>)
    requires Steps(mems, configs, events) && i < |events| && InvAt(mems[i], configs[i], loc, cur)
    ensures Moves(configs[i].m, InputOf(mems[i], events[i]), loc, cur, loc', cur')
    ensures InvAt(mems[i + 1], configs[i + 1], loc', cur') && Logged(configs[i])
    ensures forall s: nat :: s < 4 ==> LogGrows(configs[i].logs[s], configs[i + 1].logs[s])
  {
    hide InvAt, Cycle, Logged, EnvOk, Moves, Steady, LogGrows;
    assert StepAt(mems, configs, events, i);
    loc', cur' := StepInv(mems[i], configs[i], events[i], loc, cur);
    InvFrame(mems[i], mems[i + 1], configs[i + 1], loc', cur');
  }

  lemma {:induction false} RunInv(mems: seq<nat -> nat>, configs: seq<Config>, events: seq<Event>, n: nat)
    requires Run(mems, configs, events) && n <= |events|
    ensures Inv(mems[n], configs[n]) && Logged(configs[n])
  {
    hide InvAt, Cycle, Logged, EnvOk, Initial, Moves, Steady, LogGrows;
    if n == 0 {
      var loc, cur := InitialInv(mems[0], configs[0]);
      InvLogged(mems[0], configs[0], loc, cur);
    } else {
      RunInv(mems, configs, events, n - 1);
      var loc, cur :| InvAt(mems[n - 1], configs[n - 1], loc, cur);
      var loc', cur' := NextInv(mems, configs, events, n - 1, loc, cur);
      InvLogged(mems[n], configs[n], loc', cur');
    }
  }

  lemma InvLogged(mem: nat -> nat, c: Config, loc: seq<Stage>, cur: seq<Req>)
    requires InvAt(mem, c, loc, cur)
    ensures Logged(c)
  {
    hide Places, Flow, LogOk;
  }

  /** Logs only grow over a run. */
  lemma {:induction false} RunGrows(mems: seq<nat -> nat>, configs: seq<Config>, events: seq<Event>, j: nat, n: nat,
                                    s: nat)
    requires Run(mems, configs, events) && j <= n <= |events| && s < 4
    ensures Logged(configs[j]) && Logged(configs[n])
    ensures var l, l' := configs[j].logs[s], configs[n].logs[s];
      l.accepted <= l'.accepted && l.walks <= l'.walks && l.answered <= l'.answered
    decreases n
  {
    hide InvAt, Cycle, EnvOk, Initial, Moves, Steady;
    RunInv(mems, configs, events, n);
    if j < n {
      RunGrows(mems, configs, events, j, n - 1, s);
      RunInv(mems, configs, events, n - 1);
      var loc, cur :| InvAt(mems[n - 1], configs[n - 1], loc, cur);
      var loc', cur' := NextInv(mems, configs, events, n - 1, loc, cur);
    }
  }

  /** A request that has been accepted was in flight at some time. */
  lemma {:induction false} WasInFlight(mems: seq<nat -> nat>, configs: seq<Config>, events: seq<Event>, n: nat, s: nat,
                                       k: nat)
    returns (j: nat)
    requires Run(mems, configs, events) && n <= |events| && s < 4 && Logged(configs[n])
    requires k < |configs[n].logs[s].accepted|
    ensures j <= n && InFlight(configs[j], s, k)
  {
    hide Places, Flow, Cycle, EnvOk, Moves, Steady, AllReads, WalkReads, WalkOf;
    RunInv(mems, configs, events, n);
    var loc, cur :| InvAt(mems[n], configs[n], loc, cur);
    SourceStage(mems[n], configs[n], loc, cur, s);
    assert LogOk(mems[n], configs[n].logs[s], loc[s], cur[s]);
    j := n;
    if k < |configs[n].logs[s].answered| {
      RunInv(mems, configs, events, n - 1);
      var loc0, cur0 :| InvAt(mems[n - 1], configs[n - 1], loc0, cur0);
      var loc', cur' := NextInv(mems, configs, events, n - 1, loc0, cur0);
      assert LogGrows(configs[n - 1].logs[s], configs[n].logs[s]);
      j := WasInFlight(mems, configs, events, n - 1, s, k);
    }
  }

  lemma SourceStage(mem: nat -> nat, c: Config, loc: seq<Stage>, cur: seq<Req>, s: nat)
    requires InvAt(mem, c, loc, cur) && s < 4
    ensures Sources(loc, cur) && StageOk(loc[s]) && cur[s].source == s
  {
    hide TlbOk, FirstOk, PcReqOk, PcRspOk, LastOk, LlReqOk, LlRspOk, RspOk, OutOk, Flow, LogOk;
  }

  /** The k-th walk in the log of source s is that of its request in the memory of some cycle, and
      of every cycle, in which that request is in flight. */
  ghost predicate WalkIs(mems: seq<nat -> nat>, configs: seq<Config>, n: nat, s: nat, k: nat)
    requires n < |configs| == |mems| && Logged(configs[n]) && s < 4
  {
    var l := configs[n].logs[s];
    && k < |l.accepted| == |l.walks|
    && (exists j: nat :: j <= n && InFlight(configs[j], s, k))
    && forall j: nat :: j <= n && InFlight(configs[j], s, k) ==> l.walks[k] == WalkOf(mems[j], l.accepted[k])
  }

  lemma WalkInLog(mems: seq<nat -> nat>, configs: seq<Config>, events: seq<Event>, n: nat, s: nat, k: nat)
    requires Run(mems, configs, events) && n <= |events| && s < 4 && Logged(configs[n])
    requires k < |configs[n].logs[s].accepted| == |configs[n].logs[s].walks|
    ensures WalkIs(mems, configs, n, s, k)
  {
    hide Places, Flow, AllReads, WalkReads, WalkOf, StepAt, Initial;
    var x := WasInFlight(mems, configs, events, n, s, k);
    forall j: nat | j <= n && InFlight(configs[j], s, k)
      ensures configs[n].logs[s].walks[k] == WalkOf(mems[j], configs[n].logs[s].accepted[k])
    {
      RunInv(mems, configs, events, j);
      var loc, cur :| InvAt(mems[j], configs[j], loc, cur);
      SourceStage(mems[j], configs[j], loc, cur, s);
      assert LogOk(mems[j], configs[j].logs[s], loc[s], cur[s]);
      RunGrows(mems, configs, events, j, n, s);
    }
  }

  lemma RunLogs(mems: seq<nat -> nat>, configs: seq<Config>, events: seq<Event>, n: nat, s: nat)
    returns (g: Stage, r: Req)
    requires Run(mems, configs, events) && n <= |events| && s < 4
    ensures Logged(configs[n]) && StageOk(g) && LogOk(mems[n], configs[n].logs[s], g, r)
  {
    hide Places, Flow, Cycle, LogOk;
    RunInv(mems, configs, events, n);
    var loc, cur :| InvAt(mems[n], configs[n], loc, cur);
    SourceStage(mems[n], configs[n], loc, cur, s);
    g, r := loc[s], cur[s];
  }

  /** The k-th answer to source s is the entry that the walk of its k-th request ends at, in the
      memory of some cycle, and of every cycle, in which that request is in flight. */
  ghost predicate AnswerIs(mems: seq<nat -> nat>, configs: seq<Config>, n: nat, s: nat, k: nat)
    requires n < |configs| == |mems| && Logged(configs[n]) && s < 4
  {
    var l := configs[n].logs[s];
    && k < |l.answered| <= |l.accepted|
    && (exists j: nat :: j <= n && InFlight(configs[j], s, k))
    && forall j: nat :: j <= n && InFlight(configs[j], s, k) ==> l.answered[k] == Leaf(mems[j], l.accepted[k])
  }

  /** Exactly-once delivery, in order per source, of the entry that a sequential walk ends at. */
  lemma Delivered(mems: seq<nat -> nat>, configs: seq<Config>, events: seq<Event>, n: nat, s: nat)
    requires Run(mems, configs, events) && n <= |events| && s < 4
    ensures Logged(configs[n])
    ensures var l := configs[n].logs[s]; |l.answered| <= |l.accepted| <= |l.answered| + 1
    ensures forall k: nat :: k < |configs[n].logs[s].answered| ==> AnswerIs(mems, configs, n, s, k)
  {
    hide Leaf, AllReads, WalkReads, StepAt, Initial;
    var g, r := RunLogs(mems, configs, events, n, s);
    forall k: nat | k < |configs[n].logs[s].answered| ensures AnswerIs(mems, configs, n, s, k) {
      WalkInLog(mems, configs, events, n, s, k);
    }
  }

  /** The reads of the answered requests, three each, and then those that one in flight has got to. */
  ghost predicate ReadsAre(l: Logs)
  {
    && |l.answered| <= |l.accepted| == |l.walks| <= |l.answered| + 1
    && var done := AllReads(l.walks[..|l.answered|]);
       done <= l.fetched
       && if |l.accepted| == |l.answered| then l.fetched == done
          else l.fetched[|done|..] <= l.walks[|l.answered|].addrs
  }

  lemma ReadsOfLog(mem: nat -> nat, l: Logs, g: Stage, r: Req)
    requires StageOk(g) && LogOk(mem, l, g, r)
    ensures ReadsAre(l)
  {
    hide ReadAddr, Leaf, AllReads, WalkReads;
    var done := AllReads(l.walks[..|l.answered|]);
    assert l.fetched[..|done|] == done && l.fetched[|done|..] == WalkReads(mem, r)[..ReadsDone(g)];
  }

  /** Each answered request has caused exactly three reads, those of its walk, and one in flight the
      first ones of its own; nothing else is read. */
  lemma ThreeReads(mems: seq<nat -> nat>, configs: seq<Config>, events: seq<Event>, n: nat, s: nat)
    requires Run(mems, configs, events) && n <= |events| && s < 4
    ensures Logged(configs[n]) && ReadsAre(configs[n].logs[s])
    ensures forall k: nat :: k < |configs[n].logs[s].accepted| ==> WalkIs(mems, configs, n, s, k)
  {
    hide LogOk, ReadsAre, WalkIs, StepAt, Initial;
    var g, r := RunLogs(mems, configs, events, n, s);
    ReadsOfLog(mems[n], configs[n].logs[s], g, r);
    ReadsLengths(configs[n].logs[s]);
    forall k: nat | k < |configs[n].logs[s].accepted| ensures WalkIs(mems, configs, n, s, k) {
      WalkInLog(mems, configs, events, n, s, k);
    }
  }

  lemma ReadsLengths(l: Logs)
    requires ReadsAre(l)
    ensures |l.accepted| == |l.walks|
  {
    hide AllReads;
  }

  /** deq_ptr names what the arbiter sends, in both walkers, in every reachable state. */
  lemma PointersAlwaysAgree(mems: seq<nat -> nat>, configs: seq<Config>, events: seq<Event>, n: nat)
    requires Run(mems, configs, events) && n <= |events|
    ensures Shape(configs[n].m)
    ensures AtMostOne(FirstFlags(configs[n].m.first, DONE)) && AtMostOne(LastFlags(configs[n].m.last, DONE))
    ensures Pick(FirstFlags(configs[n].m.first, DONE)) == FirstSent(configs[n].m)
    ensures Pick(LastFlags(configs[n].m.last, DONE)) == LastSent(configs[n].m)
  {
    hide Places, FirstFlags, LastFlags, LogOk, StepAt, Initial, Chosen, Pick, FirstSent, LastSent;
    RunInv(mems, configs, events, n);
    var loc, cur :| InvAt(mems[n], configs[n], loc, cur);
    SentIsPicked(configs[n].m);
  }

  /** A read that memory has not answered is that of the one entry that waits for it, in the walker
      that its source bit 2 names. */
  lemma AnswersFindTheirWalker(mems: seq<nat -> nat>, configs: seq<Config>, events: seq<Event>, n: nat, x: (nat, nat))
    requires Run(mems, configs, events) && n <= |events| && x in configs[n].out
    ensures x.0 < 8 && configs[n].out[x] == 1 && WaitedFor(configs[n].m, x)
  {
    hide Flow, LogOk, StepAt, Initial, Places, WaitedFor, OutAt, Sources;
    RunInv(mems, configs, events, n);
    var loc, cur :| InvAt(mems[n], configs[n], loc, cur);
    ReadWaitedFor(mems[n], configs[n].m, configs[n].out, loc, cur, x);
  }

  lemma ReadWaitedFor(mem: nat -> nat, m: State, out: multiset<(nat, nat)>, loc: seq<Stage>, cur: seq<Req>,
                      x: (nat, nat))
    requires Places(mem, m, out, loc, cur) && x in out
    ensures x.0 < 8 && out[x] == 1 && WaitedFor(m, x)
  {
    hide TlbOk, PcReqOk, PcRspOk, LlReqOk, LlRspOk, RspOk, OutOk, FirstOk, LastOk, ReadAddr, Ppn, VpnOf, EntryAddr;
    OutFacts(mem, out, loc, cur, x);
    if x.0 >= 4 {
      FirstSlot(mem, m.first, loc, cur, x.0 - 4);
      WaitingRead(mem, cur[x.0 - 4], loc[x.0 - 4], x.0 - 4);
    } else {
      LastSlot(mem, m.last, loc, cur, x.0);
    }
  }

  /** io_memRspIn_ready in a state of the MMU. */
  predicate RspIn(m: State, source: nat)
  {
    RspInReady(Bit2(source), m.llRsp.Empty?, m.pcRsp.Empty?)
  }

  /** An answer is taken exactly if the queue it is for is empty, and then goes, as the word and the
      2-bit source, to the cache of that walker alone. */
  lemma AnswerIsDelivered(mems: seq<nat -> nat>, configs: seq<Config>, events: seq<Event>, n: nat, x: (nat, nat))
    requires Run(mems, configs, events) && n < |events| && events[n].answer == Some(x)
    ensures Logged(configs[n]) && Logged(configs[n + 1])
    ensures RspIn(configs[n].m, x.0) <==> if Bit2(x.0) then configs[n].m.pcRsp.Empty? else configs[n].m.llRsp.Empty?
    ensures var m, m' := configs[n].m, configs[n + 1].m;
      RspIn(m, x.0) && x.0 >= 4 ==>
        m'.pcRsp == Full(Msg(mems[n](x.1), x.0 - 4)) && m'.llRsp == if LlRspFires(m) then Empty else m.llRsp
    ensures var m, m' := configs[n].m, configs[n + 1].m;
      RspIn(m, x.0) && x.0 < 4 ==>
        m'.llRsp == Full(Msg(mems[n](x.1), x.0)) && m'.pcRsp == if PcRspFires(m) then Empty else m.pcRsp
  {
    hide WaitedFor, Initial, OutNext, FirstFlags, LastFlags, FirstNext, LastNext, GrantsNext, Any, EntryAddr,
         FirstRead, FirstSent, LastRead, LastSent, RspInReady, Steady, LogsNext;
    assert StepAt(mems, configs, events, n);
    AnswersFindTheirWalker(mems, configs, events, n, x);
    MaskIsReadiness(configs[n].m, x.0);
  }

  ghost predicate WaitedFor(m: State, x: (nat, nat))
  {
    && Shape(m)
    && if x.0 >= 4 then exists i :: 0 <= i < 4 && FirstWaits(m.first[i], x.0 - 4, x.1)
       else exists i :: 0 <= i < 4 && m.last[i] == LastEntry(MEM_WAIT, x.1, x.0)
  }

  predicate FirstWaits(e: FirstEntry, source: nat, addr: nat)
  {
    e.state == MEM_WAIT && e.source == source && EntryAddr(e.ppn, e.vpn, e.level) == addr
  }

  lemma WaitingRead(mem: nat -> nat, r: Req, g: Stage, s: nat)
    requires StageOk(g) && g.PcOut?
    ensures FirstWaits(FirstImage(mem, g, r, s), s, ReadAddr(mem, r, g.level))
  {
    hide EntryAddr, Ppn;
  }
}
