/** Where each request in flight is, and why every clock cycle keeps it so. */
module MmuInvariant {
  import opened Arbiters
  import opened Mmu
  import opened Options

  /** Where the request of a source is. In the stages PcReq to PcRsp its first-level entry i waits
      while the read of a level is in the page cache's request queue, in memory, or in the response
      queue; likewise LlReq to LlRsp for the last level. */
  datatype Stage =
    | Absent | TlbQ | PtwQ
    | First(i: nat, level: nat) | PcReq(i: nat, level: nat) | PcOut(i: nat, level: nat) | PcRsp(i: nat, level: nat)
    | FirstDone(i: nat)
    | Last(i: nat) | LlReq(i: nat) | LlOut(i: nat) | LlRsp(i: nat) | LastDone(i: nat)
    | L2Q | RspQ

  predicate InFirst(g: Stage)
  {
    g.First? || g.PcReq? || g.PcOut? || g.PcRsp? || g.FirstDone?
  }

  predicate InLast(g: Stage)
  {
    g.Last? || g.LlReq? || g.LlOut? || g.LlRsp? || g.LastDone?
  }

  predicate StageOk(g: Stage)
  {
    && (InFirst(g) || InLast(g) ==> g.i < 4)
    && (g.First? || g.PcReq? || g.PcOut? || g.PcRsp? ==> 1 <= g.level <= 2)
  }

  /** The memory that the walks read, and the walk of one request: the page-table levels are
      numbered as the hardware does, 2 for the root. */
  function VpnOf(r: Req): nat { r.addr / 4096 % VPNS }

  function Ppn(mem: nat -> nat, r: Req, level: nat): (p: nat)
    requires level <= 2
    ensures p < PPNS
    decreases 2 - level, 0
  {
    if level == 2 then r.ptbr % PPNS else PtePpn(mem(ReadAddr(mem, r, level + 1)))
  }

  function ReadAddr(mem: nat -> nat, r: Req, level: nat): nat
    requires level <= 2
    decreases 2 - level, 1
  {
    EntryAddr(Ppn(mem, r, level), VpnOf(r), level)
  }

  /** The entry that a sequential walk ends at. */
  function Leaf(mem: nat -> nat, r: Req): nat { mem(ReadAddr(mem, r, 0)) }

  /** loc and cur: the stage and the request of each of the four sources. */
  ghost predicate Sources(loc: seq<Stage>, cur: seq<Req>)
  {
    |loc| == 4 && |cur| == 4 && forall s :: 0 <= s < 4 ==> StageOk(loc[s]) && cur[s].source == s
  }

  function FirstLevel(g: Stage): nat
    requires InFirst(g)
  {
    if g.FirstDone? then 0 else g.level
  }

  function FirstImage(mem: nat -> nat, g: Stage, r: Req, s: nat): FirstEntry
    requires InFirst(g) && StageOk(g)
  {
    FirstEntry(if g.First? then MEM_REQ else if g.FirstDone? then DONE else MEM_WAIT,
               Ppn(mem, r, FirstLevel(g)), VpnOf(r), FirstLevel(g), s)
  }

  function LastImage(mem: nat -> nat, g: Stage, r: Req, s: nat): LastEntry
    requires InLast(g)
  {
    if g.LastDone? then LastEntry(DONE, Leaf(mem, r), s)
    else LastEntry(if g.Last? then MEM_REQ else MEM_WAIT, ReadAddr(mem, r, 0), s)
  }

  /** Each queue and entry holds the request that is there, with the right content, or is empty. */
  ghost predicate TlbOk(q: Queue<Req>, loc: seq<Stage>, cur: seq<Req>, g: Stage)
    requires Sources(loc, cur)
  {
    && (q.Full? ==> q.item.source < 4 && loc[q.item.source] == g)
    && forall s :: 0 <= s < 4 && loc[s] == g ==> q == Full(cur[s])
  }

  ghost predicate FirstOk(mem: nat -> nat, first: seq<FirstEntry>, loc: seq<Stage>, cur: seq<Req>)
    requires Sources(loc, cur) && |first| == 4
  {
    && (forall i :: 0 <= i < 4 && first[i].state != IDLE ==>
          first[i].source < 4 && InFirst(loc[first[i].source]) && loc[first[i].source].i == i)
    && forall s :: 0 <= s < 4 && InFirst(loc[s]) ==> first[loc[s].i] == FirstImage(mem, loc[s], cur[s], s)
  }

  ghost predicate LastOk(mem: nat -> nat, last: seq<LastEntry>, loc: seq<Stage>, cur: seq<Req>)
    requires Sources(loc, cur) && |last| == 4
  {
    && (forall i :: 0 <= i < 4 && last[i].state != IDLE ==>
          last[i].source < 4 && InLast(loc[last[i].source]) && loc[last[i].source].i == i)
    && forall s :: 0 <= s < 4 && InLast(loc[s]) ==> last[loc[s].i] == LastImage(mem, loc[s], cur[s], s)
  }

  ghost predicate PcReqOk(mem: nat -> nat, q: Queue<Msg>, loc: seq<Stage>, cur: seq<Req>)
    requires Sources(loc, cur)
  {
    && (q.Full? ==> q.item.source < 4 && loc[q.item.source].PcReq?)
    && forall s :: 0 <= s < 4 && loc[s].PcReq? ==> q == Full(Msg(ReadAddr(mem, cur[s], loc[s].level), s))
  }

  ghost predicate PcRspOk(mem: nat -> nat, q: Queue<Msg>, loc: seq<Stage>, cur: seq<Req>)
    requires Sources(loc, cur)
  {
    && (q.Full? ==> q.item.source < 4 && loc[q.item.source].PcRsp?)
    && forall s :: 0 <= s < 4 && loc[s].PcRsp? ==> q == Full(Msg(mem(ReadAddr(mem, cur[s], loc[s].level)), s))
  }

  ghost predicate LlReqOk(mem: nat -> nat, q: Queue<Msg>, loc: seq<Stage>, cur: seq<Req>)
    requires Sources(loc, cur)
  {
    && (q.Full? ==> q.item.source < 4 && loc[q.item.source].LlReq?)
    && forall s :: 0 <= s < 4 && loc[s].LlReq? ==> q == Full(Msg(ReadAddr(mem, cur[s], 0), s))
  }

  ghost predicate LlRspOk(mem: nat -> nat, q: Queue<Msg>, loc: seq<Stage>, cur: seq<Req>)
    requires Sources(loc, cur)
  {
    && (q.Full? ==> q.item.source < 4 && loc[q.item.source].LlRsp?)
    && forall s :: 0 <= s < 4 && loc[s].LlRsp? ==> q == Full(Msg(Leaf(mem, cur[s]), s))
  }

  ghost predicate RspOk(mem: nat -> nat, q: Queue<Msg>, loc: seq<Stage>, cur: seq<Req>, g: Stage)
    requires Sources(loc, cur)
  {
    && (q.Full? ==> q.item.source < 4 && loc[q.item.source] == g)
    && forall s :: 0 <= s < 4 && loc[s] == g ==> q == Full(Msg(Leaf(mem, cur[s]), s))
  }

  /** The reads that memory has accepted and not answered, by 3-bit source and address. */
  ghost predicate OutOk(mem: nat -> nat, out: multiset<(nat, nat)>, loc: seq<Stage>, cur: seq<Req>)
    requires Sources(loc, cur)
  {
    && (forall e :: e in out ==> out[e] == 1 && OutAt(mem, e, loc, cur))
    && (forall s :: 0 <= s < 4 && loc[s].PcOut? ==> (4 + s, ReadAddr(mem, cur[s], loc[s].level)) in out)
    && (forall s :: 0 <= s < 4 && loc[s].LlOut? ==> (s, ReadAddr(mem, cur[s], 0)) in out)
  }

  /** An outstanding read is the one that its source is waiting for. */
  ghost predicate OutAt(mem: nat -> nat, e: (nat, nat), loc: seq<Stage>, cur: seq<Req>)
    requires Sources(loc, cur)
  {
    e.0 < 8 &&
    if e.0 >= 4 then loc[e.0 - 4].PcOut? && e.1 == ReadAddr(mem, cur[e.0 - 4], loc[e.0 - 4].level)
    else loc[e.0].LlOut? && e.1 == ReadAddr(mem, cur[e.0], 0)
  }

  /** At most one entry of a walker is ever ready to leave, and the way out is free for it. */
  ghost predicate Flow(m: State)
    requires Shape(m)
  {
    && AtMostOne(FirstFlags(m.first, DONE)) && AtMostOne(LastFlags(m.last, DONE))
    && !(Any(LastFlags(m.last, DONE)) && m.llRsp.Full?)
    && !(Any(LastFlags(m.last, DONE)) && m.l2Rsp.Full?)
    && !(m.l2Rsp.Full? && m.tlbRsp.Full?)
  }

  ghost predicate Places(mem: nat -> nat, m: State, out: multiset<(nat, nat)>, loc: seq<Stage>, cur: seq<Req>)
  {
    && Shape(m) && Sources(loc, cur)
    && TlbOk(m.tlbReq, loc, cur, TlbQ) && TlbOk(m.ptwReq, loc, cur, PtwQ)
    && FirstOk(mem, m.first, loc, cur) && PcReqOk(mem, m.pcReq, loc, cur) && PcRspOk(mem, m.pcRsp, loc, cur)
    && LastOk(mem, m.last, loc, cur) && LlReqOk(mem, m.llReq, loc, cur) && LlRspOk(mem, m.llRsp, loc, cur)
    && RspOk(mem, m.l2Rsp, loc, cur, L2Q) && RspOk(mem, m.tlbRsp, loc, cur, RspQ)
    && OutOk(mem, out, loc, cur)
  }

  /** What the environment does in a cycle: it may present a request, and answer a read. */
  datatype Event = Event(req: Option<Req>, memReady: bool, answer: Option<(nat, nat)>)

  function InputOf(mem: nat -> nat, e: Event): Input
  {
    Input(e.req, e.memReady, if e.answer.Some? then Some(Msg(mem(e.answer.value.1), e.answer.value.0)) else None, true)
  }

  /** One request per source at a time, and only reads that are outstanding are answered. */
  ghost predicate Legal(e: Event, out: multiset<(nat, nat)>, loc: seq<Stage>)
    requires |loc| == 4
  {
    && (e.req.Some? ==> e.req.value.source < 4 && loc[e.req.value.source] == Absent)
    && (e.answer.Some? ==> e.answer.value in out)
  }

  /** The stage of source s after the cycle. */
  function Advance(m: State, input: Input, g: Stage, s: nat): Stage
    requires Shape(m)
  {
    match g
    case Absent => if ReqFires(m, input) && input.req.value.source == s then TlbQ else g
    case TlbQ => if TlbFires(m) then PtwQ else g
    case PtwQ => if EnqFires(m) then First(Pick(FirstFlags(m.first, IDLE)), 2) else g
    case First(i, l) => if FirstReadFires(m) && FirstRead(m) == i then PcReq(i, l) else g
    case PcReq(i, l) => if PcOutFires(m, input) then PcOut(i, l) else g
    case PcOut(i, l) => if PcAnswerFires(m, input) && input.memRsp.value.source == 4 + s then PcRsp(i, l) else g
    case PcRsp(i, l) => if !PcRspFires(m) then g else if l > 1 then First(i, l - 1) else FirstDone(i)
    case FirstDone(i) => if LlFires(m) && FirstSent(m) == i then Last(Pick(LastFlags(m.last, IDLE))) else g
    case Last(i) => if LastReadFires(m) && LastRead(m) == i then LlReq(i) else g
    case LlReq(i) => if LlOutFires(m, input) then LlOut(i) else g
    case LlOut(i) => if LlAnswerFires(m, input) && input.memRsp.value.source == s then LlRsp(i) else g
    case LlRsp(i) => if LlRspFires(m) then LastDone(i) else g
    case LastDone(i) => if PtwRspFires(m) && LastSent(m) == i then L2Q else g
    case L2Q => if L2Fires(m) then RspQ else g
    case RspQ => if RspFires(m, input) then Absent else g
  }

  ghost function LocNext(m: State, input: Input, loc: seq<Stage>): (loc': seq<Stage>)
    requires Shape(m) && |loc| == 4
    ensures |loc'| == 4 && forall s :: 0 <= s < 4 ==> loc'[s] == Advance(m, input, loc[s], s)
  {
    seq(4, s requires 0 <= s < 4 => Advance(m, input, loc[s], s))
  }

  ghost function CurNext(m: State, input: Input, cur: seq<Req>): (cur': seq<Req>)
    requires |cur| == 4 && (input.req.Some? ==> input.req.value.source < 4)
    ensures |cur'| == 4
  {
    if ReqFires(m, input) then cur[input.req.value.source := input.req.value] else cur
  }

  /** The reads outstanding after the cycle. */
  ghost function OutNext(mem: nat -> nat, m: State, e: Event, out: multiset<(nat, nat)>): multiset<(nat, nat)>
  {
    var sent :=
      if MemReq(m).Some? && e.memReady then multiset{(MemReq(m).value.source, MemReq(m).value.word)} else multiset{};
    var done := if e.answer.Some? && MemRspReady(m, e.answer.value.0) then multiset{e.answer.value} else multiset{};
    out - done + sent
  }
}
