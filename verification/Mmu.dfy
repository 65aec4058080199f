/** rtl/MMUTests.v: the registers of the MMU and what one clock cycle does to them. */
module Mmu {
  import opened Arbiters
  import opened Options

  /** A depth-1 queue: maybe_full and its one slot. */
  datatype Queue<T> = Empty | Full(item: T)

  datatype Req = Req(addr: nat, ptbr: nat, source: nat)

  /** A 64-bit word, an address or the data read there, and the source it is for. */
  datatype Msg = Msg(word: nat, source: nat)

  /** States of both walkers. DONE waits to leave for the next walker or for the TLBs. */
  const IDLE: nat := 0
  const MEM_REQ: nat := 1
  const MEM_WAIT: nat := 2
  const DONE: nat := 3

  datatype FirstEntry = FirstEntry(state: nat, ppn: nat, vpn: nat, level: nat, source: nat)
  datatype LastEntry = LastEntry(state: nat, addr: nat, source: nat)
  datatype Grants = Grants(firstMem: nat, firstLl: nat, lastMem: nat, lastRsp: nat)

  datatype State = State(
    tlbReq: Queue<Req>, ptwReq: Queue<Req>,
    first: seq<FirstEntry>, pcReq: Queue<Msg>, pcRsp: Queue<Msg>,
    last: seq<LastEntry>, llReq: Queue<Msg>, llRsp: Queue<Msg>,
    l2Rsp: Queue<Msg>, tlbRsp: Queue<Msg>, grants: Grants)

  predicate Shape(m: State)
  {
    |m.first| == 4 && |m.last| == 4
    && m.grants.firstMem < 4 && m.grants.firstLl < 4 && m.grants.lastMem < 4 && m.grants.lastRsp < 4
  }

  const PPNS: nat := 0x1000_0000_0000
  const VPNS: nat := 0x800_0000

  /** The address of the entry that a level reads. */
  function EntryAddr(ppn: nat, vpn: nat, level: nat): nat
  {
    (ppn * 4096 + VpnIndex(vpn, level) * 8) % 0x100_0000_0000_0000
  }

  function VpnIndex(vpn: nat, level: nat): (i: nat)
    ensures i < 512
  {
    if level == 0 then vpn % 512 else if level == 1 then vpn / 512 % 512 else vpn / 512 / 512 % 512
  }

  /** Bits 53 to 10 of a page-table entry. */
  function PtePpn(pte: nat): nat
  {
    pte / 1024 % PPNS
  }

  function FirstFlags(e: seq<FirstEntry>, k: nat): (b: seq<bool>)
    requires |e| == 4
    ensures |b| == 4 && forall i :: 0 <= i < 4 ==> b[i] == (e[i].state == k)
  {
    [e[0].state == k, e[1].state == k, e[2].state == k, e[3].state == k]
  }

  function LastFlags(e: seq<LastEntry>, k: nat): (b: seq<bool>)
    requires |e| == 4
    ensures |b| == 4 && forall i :: 0 <= i < 4 ==> b[i] == (e[i].state == k)
  {
    [e[0].state == k, e[1].state == k, e[2].state == k, e[3].state == k]
  }

  /** What the environment drives in one cycle; memRsp carries a 3-bit source. */
  datatype Input = Input(req: Option<Req>, memReady: bool, memRsp: Option<Msg>, rspReady: bool)

  /** Fire signals: ready and valid of every handshake. */
  predicate ReqFires(m: State, input: Input) { input.req.Some? && m.tlbReq.Empty? }
  predicate TlbFires(m: State) { m.tlbReq.Full? && m.ptwReq.Empty? }
  predicate EnqFires(m: State)
    requires Shape(m)
  {
    m.ptwReq.Full? && Any(FirstFlags(m.first, IDLE))
  }
  predicate FirstReadFires(m: State)
    requires Shape(m)
  {
    m.pcReq.Empty? && Any(FirstFlags(m.first, MEM_REQ))
  }
  predicate PcRspFires(m: State)
    requires Shape(m)
  {
    m.pcRsp.Full? && Any(FirstFlags(m.first, MEM_WAIT))
  }
  predicate LlFires(m: State)
    requires Shape(m)
  {
    Any(FirstFlags(m.first, DONE)) && Any(LastFlags(m.last, IDLE))
  }
  predicate LastReadFires(m: State)
    requires Shape(m)
  {
    m.llReq.Empty? && Any(LastFlags(m.last, MEM_REQ))
  }
  predicate LlRspFires(m: State)
    requires Shape(m)
  {
    m.llRsp.Full? && Any(LastFlags(m.last, MEM_WAIT))
  }
  predicate PtwRspFires(m: State)
    requires Shape(m)
  {
    m.l2Rsp.Empty? && Any(LastFlags(m.last, DONE))
  }
  predicate L2Fires(m: State) { m.l2Rsp.Full? && m.tlbRsp.Empty? }
  predicate RspFires(m: State, input: Input) { m.tlbRsp.Full? && input.rspReady }

  /** MMUMemArbiter: the last-level cache goes first, with source bit 2 clear; the other sets it. */
  function MemReq(m: State): Option<Msg>
  {
    if m.llReq.Full? then Some(Msg(m.llReq.item.word, m.llReq.item.source))
    else if m.pcReq.Full? then Some(Msg(m.pcReq.item.word, 4 + m.pcReq.item.source))
    else None
  }
  predicate LlOutFires(m: State, input: Input) { m.llReq.Full? && input.memReady }
  predicate PcOutFires(m: State, input: Input) { m.pcReq.Full? && m.llReq.Empty? && input.memReady }

  /** Two wires side by side, the first one as bit 1; and one wire of two. */
  function Cat(high: bool, low: bool): bv2
  {
    (if high then 2 else 0) | (if low then 1 else 0)
  }
  predicate Wire(b: bv2, i: nat)
    requires i < 2
  {
    (b >> i) & 1 == 1
  }

  /** io_memRspIn_ready: source bit 2, as a one-hot mask, selects from the ready wires of the
      last-level cache and the page cache, which are concatenated and reversed before. */
  predicate RspInReady(bit2: bool, ready0: bool, ready1: bool)
  {
    var oneHot: bv2 := 1 << (if bit2 then 1 else 0);
    var ready := Cat(ready0, ready1);
    oneHot & Cat(Wire(ready, 0), Wire(ready, 1)) != 0
  }

  predicate Bit2(source: nat) { source / 4 % 2 == 1 }

  /** The cache that an answer with this 3-bit source is for can take it. */
  predicate MemRspReady(m: State, source: nat)
  {
    if source >= 4 then m.pcRsp.Empty? else m.llRsp.Empty?
  }

  /** The mask selects the readiness of that cache and no other. */
  lemma MaskIsReadiness(m: State, source: nat)
    requires source < 8
    ensures RspInReady(Bit2(source), m.llRsp.Empty?, m.pcRsp.Empty?) <==> MemRspReady(m, source)
  {
    var ready := Cat(m.llRsp.Empty?, m.pcRsp.Empty?);
    assert Wire(ready, 0) == m.pcRsp.Empty? && Wire(ready, 1) == m.llRsp.Empty?;
  }

  predicate PcAnswerFires(m: State, input: Input)
  {
    input.memRsp.Some? && input.memRsp.value.source >= 4 && m.pcRsp.Empty?
  }
  predicate LlAnswerFires(m: State, input: Input)
  {
    input.memRsp.Some? && input.memRsp.value.source < 4 && m.llRsp.Empty?
  }

  function FirstRead(m: State): (i: nat)
    requires Shape(m)
    ensures i < 4
  {
    Chosen(FirstFlags(m.first, MEM_REQ), m.grants.firstMem)
  }
  function FirstSent(m: State): (i: nat)
    requires Shape(m)
    ensures i < 4
  {
    Chosen(FirstFlags(m.first, DONE), m.grants.firstLl)
  }
  function LastRead(m: State): (i: nat)
    requires Shape(m)
    ensures i < 4
  {
    Chosen(LastFlags(m.last, MEM_REQ), m.grants.lastMem)
  }
  function LastSent(m: State): (i: nat)
    requires Shape(m)
    ensures i < 4
  {
    Chosen(LastFlags(m.last, DONE), m.grants.lastRsp)
  }

  /** A queue accepts only when empty and gives only when full. */
  function QueueNext<T>(q: Queue<T>, enq: bool, item: T, deq: bool): Queue<T>
  {
    if enq then Full(item) else if deq then Empty else q
  }

  /** Register i of the first-level walker: enqueue, read request, read response, and last the
      clearing of the entry under deq_ptr. */
  function FirstNext(m: State, i: nat): FirstEntry
    requires Shape(m) && i < 4
  {
    var e := m.first[i];
    var e1 := if EnqFires(m) && i == Pick(FirstFlags(m.first, IDLE)) then
        FirstEntry(MEM_REQ, m.ptwReq.item.ptbr % PPNS, m.ptwReq.item.addr / 4096 % VPNS, 2, m.ptwReq.item.source)
      else e;
    var e2 := if FirstReadFires(m) && i == FirstRead(m) then e1.(state := MEM_WAIT) else e1;
    var e3 := if PcRspFires(m) && e.state == MEM_WAIT && e.source == m.pcRsp.item.source then
        e2.(state := if e.level > 1 then MEM_REQ else DONE, level := (e.level + 3) % 4,
            ppn := PtePpn(m.pcRsp.item.word))
      else e2;
    if LlFires(m) && i == Pick(FirstFlags(m.first, DONE)) then FirstEntry(IDLE, 0, 0, 0, 0) else e3
  }

  function LastNext(m: State, i: nat): LastEntry
    requires Shape(m) && i < 4
  {
    var e := m.last[i];
    var sent := m.first[FirstSent(m)];
    var e1 := if LlFires(m) && i == Pick(LastFlags(m.last, IDLE)) then
        LastEntry(MEM_REQ, EntryAddr(sent.ppn, sent.vpn, sent.level), sent.source)
      else e;
    var e2 := if LastReadFires(m) && i == LastRead(m) then e1.(state := MEM_WAIT) else e1;
    var e3 := if LlRspFires(m) && e.state == MEM_WAIT && e.source == m.llRsp.item.source then
        e2.(state := DONE, addr := m.llRsp.item.word)
      else e2;
    if PtwRspFires(m) && i == Pick(LastFlags(m.last, DONE)) then LastEntry(IDLE, 0, 0) else e3
  }

  /** The messages that the walkers put into the queues, by the entries that their arbiters choose. */
  function PcReqItem(m: State): Msg
    requires Shape(m)
  {
    var e := m.first[FirstRead(m)]; Msg(EntryAddr(e.ppn, e.vpn, e.level), e.source)
  }
  function LlReqItem(m: State): Msg
    requires Shape(m)
  {
    var e := m.last[LastRead(m)]; Msg(e.addr, e.source)
  }
  function RspItem(m: State): Msg
    requires Shape(m)
  {
    var e := m.last[LastSent(m)]; Msg(e.addr, e.source)
  }

  /** An answer as the caches take it: without source bit 2. */
  function AnswerItem(input: Input): Msg
  {
    if input.memRsp.Some? then Msg(input.memRsp.value.word, input.memRsp.value.source % 4) else Msg(0, 0)
  }

  function GrantsNext(m: State): (g: Grants)
    requires Shape(m)
    ensures g.firstMem < 4 && g.firstLl < 4 && g.lastMem < 4 && g.lastRsp < 4
  {
    Grants(
      Granted(FirstFlags(m.first, MEM_REQ), m.grants.firstMem, m.pcReq.Empty?),
      Granted(FirstFlags(m.first, DONE), m.grants.firstLl, Any(LastFlags(m.last, IDLE))),
      Granted(LastFlags(m.last, MEM_REQ), m.grants.lastMem, m.llReq.Empty?),
      Granted(LastFlags(m.last, DONE), m.grants.lastRsp, m.l2Rsp.Empty?))
  }

  /** One rising clock edge, reset not asserted. */
  function Next(m: State, input: Input): (m': State)
    requires Shape(m)
    ensures Shape(m')
  {
    State(
      if ReqFires(m, input) then Full(input.req.value) else if TlbFires(m) then Empty else m.tlbReq,
      if TlbFires(m) then Full(m.tlbReq.item) else if EnqFires(m) then Empty else m.ptwReq,
      [FirstNext(m, 0), FirstNext(m, 1), FirstNext(m, 2), FirstNext(m, 3)],
      QueueNext(m.pcReq, FirstReadFires(m), PcReqItem(m), PcOutFires(m, input)),
      QueueNext(m.pcRsp, PcAnswerFires(m, input), AnswerItem(input), PcRspFires(m)),
      [LastNext(m, 0), LastNext(m, 1), LastNext(m, 2), LastNext(m, 3)],
      QueueNext(m.llReq, LastReadFires(m), LlReqItem(m), LlOutFires(m, input)),
      QueueNext(m.llRsp, LlAnswerFires(m, input), AnswerItem(input), LlRspFires(m)),
      QueueNext(m.l2Rsp, PtwRspFires(m), RspItem(m), L2Fires(m)),
      if L2Fires(m) then Full(m.l2Rsp.item) else if RspFires(m, input) then Empty else m.tlbRsp,
      GrantsNext(m))
  }

  /** After reset: queues and walkers empty, the grant registers arbitrary. */
  predicate Reset(m: State)
  {
    && Shape(m)
    && m.tlbReq.Empty? && m.ptwReq.Empty? && m.pcReq.Empty? && m.pcRsp.Empty?
    && m.llReq.Empty? && m.llRsp.Empty? && m.l2Rsp.Empty? && m.tlbRsp.Empty?
    && (forall i :: 0 <= i < 4 ==> m.first[i] == FirstEntry(IDLE, 0, 0, 0, 0) && m.last[i] == LastEntry(IDLE, 0, 0))
  }
}
