/** Why walks always finish: a measure over stages that every handshake lowers, and no stuck state. */
module MmuProgress {
  import opened Arbiters
  import opened Mmu
  import opened MmuInvariant
  import opened MmuCycle
  import opened MmuWalkers
  import opened MmuRuns
  import opened Options

  /** Handshakes left before the response of a request is taken. */
  function Remaining(g: Stage): nat
  {
    match g
    case Absent => 0
    case TlbQ => 18
    case PtwQ => 17
    case First(_, l) => 4 * l + 8
    case PcReq(_, l) => 4 * l + 7
    case PcOut(_, l) => 4 * l + 6
    case PcRsp(_, l) => 4 * l + 5
    case FirstDone(_) => 8
    case Last(_) => 7
    case LlReq(_) => 6
    case LlOut(_) => 5
    case LlRsp(_) => 4
    case LastDone(_) => 3
    case L2Q => 2
    case RspQ => 1
  }

  /** The handshakes left for all four sources: at most 72. */
  function Measure(loc: seq<Stage>): nat
    requires |loc| == 4
  {
    Remaining(loc[0]) + Remaining(loc[1]) + Remaining(loc[2]) + Remaining(loc[3])
  }

  /** Every move of a request in flight is exactly one handshake closer. */
  lemma FollowsIsCloser(g: Stage, g': Stage)
    requires StageOk(g) && g != Absent && Follows(g, g')
    ensures Remaining(g') + 1 == Remaining(g)
  {
  }

  lemma MeasureBound(loc: seq<Stage>, cur: seq<Req>)
    requires Sources(loc, cur)
    ensures Measure(loc) <= 72
  {
  }

  /** Memory is ready, and answers something whenever a read is outstanding. */
  ghost predicate Cooperates(c: Config, e: Event)
  {
    e.memReady && (c.out != multiset{} ==> e.answer.Some?)
  }

  ghost predicate Stirs(m: State, input: Input, loc: seq<Stage>, u: nat)
    requires Shape(m) && |loc| == 4
  {
    u < 4 && loc[u] != Absent && Advance(m, input, loc[u], u) != loc[u]
  }

  /** The queues towards memory: what is in front moves. */
  lemma RequestsMove(mem: nat -> nat, m: State, input: Input, loc: seq<Stage>, cur: seq<Req>)
    requires Shape(m) && Sources(loc, cur) && input.memReady
    requires PcReqOk(mem, m.pcReq, loc, cur) && LlReqOk(mem, m.llReq, loc, cur)
    ensures m.llReq.Full? ==> Stirs(m, input, loc, m.llReq.item.source)
    ensures m.pcReq.Full? && m.llReq.Empty? ==> Stirs(m, input, loc, m.pcReq.item.source)
  {
    hide ReadAddr, FirstFlags, LastFlags;
  }

  /** The queues from memory: so does what is in them. */
  lemma ResponsesMove(mem: nat -> nat, m: State, input: Input, loc: seq<Stage>, cur: seq<Req>)
    requires Shape(m) && Sources(loc, cur) && FirstOk(mem, m.first, loc, cur) && LastOk(mem, m.last, loc, cur)
    requires PcRspOk(mem, m.pcRsp, loc, cur) && LlRspOk(mem, m.llRsp, loc, cur)
    ensures m.pcRsp.Full? ==> Stirs(m, input, loc, m.pcRsp.item.source)
    ensures m.llRsp.Full? ==> Stirs(m, input, loc, m.llRsp.item.source)
  {
    hide ReadAddr, FirstFlags, LastFlags, FirstOk, LastOk, Ppn, VpnOf, Advance, PcRspFires, LlRspFires;
    if m.pcRsp.Full? {
      var u := m.pcRsp.item.source;
      FirstSlot(mem, m.first, loc, cur, u);
      WaitFires(m, loc[u].i);
      IntoFirst(m, input, loc[u], u);
    }
    if m.llRsp.Full? {
      var u := m.llRsp.item.source;
      LastSlot(mem, m.last, loc, cur, u);
      WaitFires(m, loc[u].i);
      IntoLast(m, input, loc[u], u);
    }
  }

  lemma WaitFires(m: State, i: nat)
    requires Shape(m) && i < 4
    ensures m.first[i].state == MEM_WAIT && m.pcRsp.Full? ==> PcRspFires(m)
    ensures m.last[i].state == MEM_WAIT && m.llRsp.Full? ==> LlRspFires(m)
  {
    hide FirstFlags, LastFlags;
  }

  /** Some outstanding read is answered, or the queue that its answer needs gives way. */
  lemma OutstandingMoves(mem: nat -> nat, m: State, e: Event, out: multiset<(nat, nat)>, loc: seq<Stage>,
                         cur: seq<Req>) returns (u: nat)
    requires Places(mem, m, out, loc, cur) && e.answer.Some? && e.answer.value in out
    ensures Stirs(m, InputOf(mem, e), loc, u)
  {
    hide ReadAddr, FirstFlags, LastFlags, FirstOk, LastOk, OutOk, TlbOk, PcReqOk, LlReqOk, PcRspOk, LlRspOk, RspOk,
         Stirs;
    var x := e.answer.value;
    OutFacts(mem, out, loc, cur, x);
    ResponsesMove(mem, m, InputOf(mem, e), loc, cur);
    if x.0 >= 4 {
      u := if m.pcRsp.Full? then m.pcRsp.item.source else x.0 - 4;
    } else {
      u := if m.llRsp.Full? then m.llRsp.item.source else x.0;
    }
    if MemRspReady(m, x.0) {
      AnswerMoves(mem, m, e, loc, cur, x);
    }
  }

  lemma AnswerMoves(mem: nat -> nat, m: State, e: Event, loc: seq<Stage>, cur: seq<Req>, x: (nat, nat))
    requires Shape(m) && Sources(loc, cur) && e.answer == Some(x) && OutAt(mem, x, loc, cur) && MemRspReady(m, x.0)
    ensures Stirs(m, InputOf(mem, e), loc, if x.0 >= 4 then x.0 - 4 else x.0)
  {
    hide ReadAddr, FirstFlags, LastFlags;
  }

  /** An entry that wants to read goes, or lets another one go first. */
  lemma WantsMove(mem: nat -> nat, m: State, input: Input, loc: seq<Stage>, cur: seq<Req>, s: nat) returns (u: nat)
    requires Shape(m) && Sources(loc, cur) && FirstOk(mem, m.first, loc, cur)
    requires LastOk(mem, m.last, loc, cur) && input.memReady
    requires PcReqOk(mem, m.pcReq, loc, cur) && LlReqOk(mem, m.llReq, loc, cur)
    requires s < 4 && (loc[s].First? || loc[s].Last?)
    ensures Stirs(m, input, loc, u)
  {
    hide ReadAddr, FirstFlags, LastFlags, FirstOk, LastOk, PcReqOk, LlReqOk, Stirs, Ppn, VpnOf, Chosen, FirstRead,
         LastRead, FirstReadFires, LastReadFires;
    RequestsMove(mem, m, input, loc, cur);
    if m.llReq.Full? {
      u := m.llReq.item.source;
    } else if loc[s].Last? {
      LastSlot(mem, m.last, loc, cur, s);
      LastAt(mem, m.last, loc, cur, LastRead(m));
      WantFires(m, loc[s].i);
      u := m.last[LastRead(m)].source;
      ReadStirs(m, input, loc, u);
    } else if m.pcReq.Full? {
      u := m.pcReq.item.source;
    } else {
      FirstSlot(mem, m.first, loc, cur, s);
      FirstAt(mem, m.first, loc, cur, FirstRead(m));
      WantFires(m, loc[s].i);
      u := m.first[FirstRead(m)].source;
      ReadStirs(m, input, loc, u);
    }
  }

  lemma WantFires(m: State, i: nat)
    requires Shape(m) && i < 4
    ensures m.first[i].state == MEM_REQ && m.pcReq.Empty? ==>
      FirstReadFires(m) && m.first[FirstRead(m)].state == MEM_REQ
    ensures m.last[i].state == MEM_REQ && m.llReq.Empty? ==> LastReadFires(m) && m.last[LastRead(m)].state == MEM_REQ
  {
    hide FirstFlags, LastFlags, Chosen;
  }

  lemma ReadStirs(m: State, input: Input, loc: seq<Stage>, u: nat)
    requires Shape(m) && |loc| == 4 && u < 4
    ensures loc[u].First? && FirstReadFires(m) && FirstRead(m) == loc[u].i ==> Stirs(m, input, loc, u)
    ensures loc[u].Last? && LastReadFires(m) && LastRead(m) == loc[u].i ==> Stirs(m, input, loc, u)
  {
    hide FirstFlags, LastFlags, Chosen, FirstRead, LastRead, FirstReadFires, LastReadFires;
  }

  /** An entry that is done leaves its walker at once. */
  lemma DoneMoves(mem: nat -> nat, m: State, input: Input, loc: seq<Stage>, cur: seq<Req>, s: nat)
    requires Shape(m) && Sources(loc, cur) && FirstOk(mem, m.first, loc, cur)
    requires LastOk(mem, m.last, loc, cur) && Flow(m)
    requires s < 4 && (loc[s].FirstDone? || loc[s].LastDone?)
    ensures Stirs(m, input, loc, s)
  {
    hide ReadAddr, FirstFlags, LastFlags, FirstOk, LastOk, Ppn, VpnOf, Chosen, Pick, FirstSent, LastSent, Any,
         Advance;
    SentIsPicked(m);
    if loc[s].FirstDone? {
      FirstSlot(mem, m.first, loc, cur, s);
      LastHasRoom(mem, m, loc, cur, s);
      OnlyDone(FirstFlags(m.first, DONE), loc[s].i);
      IntoFirst(m, input, loc[s], s);
    } else {
      LastSlot(mem, m.last, loc, cur, s);
      OnlyDone(LastFlags(m.last, DONE), loc[s].i);
      IntoLast(m, input, loc[s], s);
    }
  }

  /** The queues in front of the walkers. */
  lemma EntryMoves(mem: nat -> nat, m: State, input: Input, loc: seq<Stage>, cur: seq<Req>, s: nat) returns (u: nat)
    requires Shape(m) && Sources(loc, cur) && FirstOk(mem, m.first, loc, cur)
    requires TlbOk(m.tlbReq, loc, cur, TlbQ) && TlbOk(m.ptwReq, loc, cur, PtwQ)
    requires s < 4 && (loc[s] == TlbQ || loc[s] == PtwQ)
    ensures Stirs(m, input, loc, u)
  {
    hide FirstFlags, LastFlags, FirstOk, Pick, Any, Advance;
    u := if m.ptwReq.Full? then m.ptwReq.item.source else s;
    if m.ptwReq.Full? { FirstHasRoom(mem, m, loc, cur, u); }
    IntoFirst(m, input, loc[u], u);
    IntoTlb(m, input, loc[u], u);
  }

  /** No reachable state is stuck: while a request is in flight and memory cooperates, every cycle
      brings some request a handshake further. */
  lemma SomethingMoves(mem: nat -> nat, c: Config, e: Event, loc: seq<Stage>, cur: seq<Req>, s: nat) returns (u: nat)
    requires InvAt(mem, c, loc, cur) && EnvOk(c, e) && Cooperates(c, e) && s < 4 && loc[s] != Absent
    ensures Stirs(c.m, InputOf(mem, e), loc, u)
  {
    hide ReadAddr, FirstFlags, LastFlags, FirstOk, LastOk, OutOk, TlbOk, PcReqOk, LlReqOk, PcRspOk, LlRspOk, RspOk,
         Stirs, LogOk, Flow;
    var m, input := c.m, InputOf(mem, e);
    match loc[s] {
      case TlbQ => u := EntryMoves(mem, m, input, loc, cur, s);
      case PtwQ => u := EntryMoves(mem, m, input, loc, cur, s);
      case First(_, _) => u := WantsMove(mem, m, input, loc, cur, s);
      case Last(_) => u := WantsMove(mem, m, input, loc, cur, s);
      case PcReq(_, _) =>
        RequestsMove(mem, m, input, loc, cur);
        InQueue(mem, m, c.out, loc, cur, s);
        u := if m.llReq.Full? then m.llReq.item.source else s;
      case LlReq(_) =>
        RequestsMove(mem, m, input, loc, cur);
        InQueue(mem, m, c.out, loc, cur, s);
        u := s;
      case PcOut(_, _) =>
        InQueue(mem, m, c.out, loc, cur, s);
        u := OutstandingMoves(mem, m, e, c.out, loc, cur);
      case LlOut(_) =>
        InQueue(mem, m, c.out, loc, cur, s);
        u := OutstandingMoves(mem, m, e, c.out, loc, cur);
      case PcRsp(_, _) =>
        ResponsesMove(mem, m, input, loc, cur);
        InQueue(mem, m, c.out, loc, cur, s);
        u := s;
      case LlRsp(_) =>
        ResponsesMove(mem, m, input, loc, cur);
        InQueue(mem, m, c.out, loc, cur, s);
        u := s;
      case FirstDone(_) => DoneMoves(mem, m, input, loc, cur, s); u := s;
      case LastDone(_) => DoneMoves(mem, m, input, loc, cur, s); u := s;
      case L2Q =>
        InQueue(mem, m, c.out, loc, cur, s);
        ResponseMoves(m, input, loc, s);
        u := s;
      case RspQ =>
        InQueue(mem, m, c.out, loc, cur, s);
        ResponseMoves(m, input, loc, s);
        u := s;
    }
  }

  lemma InQueue(mem: nat -> nat, m: State, out: multiset<(nat, nat)>, loc: seq<Stage>, cur: seq<Req>, s: nat)
    requires Places(mem, m, out, loc, cur) && s < 4
    ensures loc[s].PcReq? ==> m.pcReq.Full? && m.pcReq.item.source == s
    ensures loc[s].LlReq? ==> m.llReq.Full? && m.llReq.item.source == s
    ensures loc[s].PcRsp? ==> m.pcRsp.Full? && m.pcRsp.item.source == s
    ensures loc[s].LlRsp? ==> m.llRsp.Full? && m.llRsp.item.source == s
    ensures loc[s].PcOut? || loc[s].LlOut? ==> out != multiset{}
    ensures loc[s] == L2Q ==> m.l2Rsp.Full?
    ensures loc[s] == RspQ ==> m.tlbRsp.Full?
  {
    hide ReadAddr, FirstOk, LastOk, TlbOk, Leaf, OutAt;
  }

  lemma ResponseMoves(m: State, input: Input, loc: seq<Stage>, s: nat)
    requires Shape(m) && |loc| == 4 && s < 4 && Flow(m) && input.rspReady
    ensures loc[s] == L2Q && m.l2Rsp.Full? ==> Stirs(m, input, loc, s)
    ensures loc[s] == RspQ && m.tlbRsp.Full? ==> Stirs(m, input, loc, s)
  {
    hide FirstFlags, LastFlags, AtMostOne, Any;
  }

  /** In a cycle without new requests the measure never grows, and it shrinks if anybody moves. */
  lemma MeasureShrinks(m: State, input: Input, loc: seq<Stage>, cur: seq<Req>, loc': seq<Stage>, cur': seq<Req>)
    requires Moves(m, input, loc, cur, loc', cur') && input.req.None?
    ensures Measure(loc') <= Measure(loc)
    ensures (exists u :: Stirs(m, input, loc, u)) ==> Measure(loc') < Measure(loc)
  {
    hide Advance, Remaining;
    forall s: nat | s < 4
      ensures Remaining(loc'[s]) <= Remaining(loc[s])
      ensures Stirs(m, input, loc, s) ==> Remaining(loc'[s]) < Remaining(loc[s])
    {
      AdvanceFollows(m, input, loc[s], s);
      if loc[s] == Absent {
        NoNewRequest(m, input, s);
      } else if loc'[s] != loc[s] {
        FollowsIsCloser(loc[s], loc'[s]);
      }
    }
  }

  lemma NoNewRequest(m: State, input: Input, s: nat)
    requires Shape(m) && input.req.None?
    ensures Advance(m, input, Absent, s) == Absent
  {
  }

  /** No more requests come, and memory cooperates. */
  ghost predicate Draining(mems: seq<nat -> nat>, configs: seq<Config>, events: seq<Event>)
  {
    && Steps(mems, configs, events)
    && forall i :: 0 <= i < |events| ==> Cooperates(configs[i], events[i]) && events[i].req.None?
  }

  lemma {:induction false} Drains(mems: seq<nat -> nat>, configs: seq<Config>, events: seq<Event>, loc: seq<Stage>,
                                  cur: seq<Req>, n: nat)
    returns (loc': seq<Stage>, cur': seq<Req>)
    requires Draining(mems, configs, events) && n <= |events| && InvAt(mems[0], configs[0], loc, cur)
    ensures InvAt(mems[n], configs[n], loc', cur') && |loc| == |loc'| == 4
    ensures (Measure(loc') == 0 || Measure(loc') + n <= Measure(loc))
  {
    hide Places, Flow, LogOk, Cycle, Measure, Cooperates, EnvOk, Moves, Stirs, Steady, LogGrows;
    if n == 0 {
      loc', cur' := loc, cur;
      SourceStage(mems[0], configs[0], loc, cur, 0);
    } else {
      var loc1, cur1 := Drains(mems, configs, events, loc, cur, n - 1);
      var mem, c, e := mems[n - 1], configs[n - 1], events[n - 1];
      assert StepAt(mems, configs, events, n - 1);
      loc', cur' := NextInv(mems, configs, events, n - 1, loc1, cur1);
      SourceStage(mems[n], configs[n], loc', cur', 0);
      MeasureShrinks(c.m, InputOf(mem, e), loc1, cur1, loc', cur');
      if Measure(loc1) != 0 {
        var s := SomeInFlight(loc1);
        var u := SomethingMoves(mem, c, e, loc1, cur1, s);
      }
    }
  }

  lemma SomeInFlight(loc: seq<Stage>) returns (s: nat)
    requires |loc| == 4 && Measure(loc) != 0
    ensures s < 4 && loc[s] != Absent
  {
    s := if loc[0] != Absent then 0 else if loc[1] != Absent then 1 else if loc[2] != Absent then 2 else 3;
  }

  /** Once no more requests come, everything in flight is answered within 72 cycles of any reachable state. */
  lemma AllAnswered(mems: seq<nat -> nat>, configs: seq<Config>, events: seq<Event>, s: nat)
    requires Draining(mems, configs, events) && |events| >= 72 && Inv(mems[0], configs[0]) && s < 4
    ensures Logged(configs[|events|])
    ensures var l := configs[|events|].logs[s]; |l.answered| == |l.accepted|
  {
    hide Places, Flow, Cycle, Cooperates, EnvOk, LogOk, Measure, StepAt;
    var loc, cur :| InvAt(mems[0], configs[0], loc, cur);
    SourceStage(mems[0], configs[0], loc, cur, 0);
    MeasureBound(loc, cur);
    var n := |events|;
    var loc', cur' := Drains(mems, configs, events, loc, cur, n);
    SourceStage(mems[n], configs[n], loc', cur', s);
    NothingInFlight(loc', cur', s);
    LogIdle(mems[n], configs[n].logs[s], cur'[s]);
  }

  lemma NothingInFlight(loc: seq<Stage>, cur: seq<Req>, s: nat)
    requires Sources(loc, cur) && Measure(loc) == 0 && s < 4
    ensures loc[s] == Absent
  {
    assert StageOk(loc[s]) && Remaining(loc[s]) == 0;
  }

  lemma LogIdle(mem: nat -> nat, l: Logs, r: Req)
    requires LogOk(mem, l, Absent, r)
    ensures |l.answered| == |l.accepted|
  {
    hide ReadAddr, AllReads, WalkReads, Leaf;
  }
}
