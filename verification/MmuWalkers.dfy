/** The entries of the two walkers over a clock cycle, and why responses never back up. */
module MmuWalkers {
  import opened Arbiters
  import opened Mmu
  import opened MmuInvariant
  import opened MmuCycle

  /** A new walk, and a walk one level down. */
  function Walk(r: Req): FirstEntry
  {
    FirstEntry(MEM_REQ, r.ptbr % PPNS, r.addr / 4096 % VPNS, 2, r.source)
  }

  function Descend(e: FirstEntry, word: nat): FirstEntry
  {
    FirstEntry(if e.level > 1 then MEM_REQ else DONE, PtePpn(word), e.vpn, (e.level + 3) % 4, e.source)
  }

  /** What a cycle does to a first-level entry, by its state. */
  lemma FirstCases(m: State, i: nat)
    requires Shape(m) && i < 4
    ensures m.first[i].state == IDLE ==>
      FirstNext(m, i) == if EnqFires(m) && i == Pick(FirstFlags(m.first, IDLE)) then Walk(m.ptwReq.item) else m.first[i]
    ensures m.first[i].state == MEM_REQ ==>
      FirstNext(m, i) == if FirstReadFires(m) && i == FirstRead(m) then m.first[i].(state := MEM_WAIT) else m.first[i]
    ensures m.first[i].state == MEM_WAIT ==>
      FirstNext(m, i) ==
        if PcRspFires(m) && m.first[i].source == m.pcRsp.item.source then Descend(m.first[i], m.pcRsp.item.word)
        else m.first[i]
    ensures m.first[i].state == DONE ==>
      FirstNext(m, i) ==
        if LlFires(m) && i == Pick(FirstFlags(m.first, DONE)) then FirstEntry(IDLE, 0, 0, 0, 0) else m.first[i]
    ensures m.first[i].state > DONE ==> FirstNext(m, i) == m.first[i]
  {
  }

  function LastWalk(sent: FirstEntry): LastEntry
  {
    LastEntry(MEM_REQ, EntryAddr(sent.ppn, sent.vpn, sent.level), sent.source)
  }

  lemma LastCases(m: State, i: nat)
    requires Shape(m) && i < 4
    ensures m.last[i].state == IDLE ==>
      LastNext(m, i) ==
        if LlFires(m) && i == Pick(LastFlags(m.last, IDLE)) then LastWalk(m.first[FirstSent(m)]) else m.last[i]
    ensures m.last[i].state == MEM_REQ ==>
      LastNext(m, i) == if LastReadFires(m) && i == LastRead(m) then m.last[i].(state := MEM_WAIT) else m.last[i]
    ensures m.last[i].state == MEM_WAIT ==>
      LastNext(m, i) ==
        if LlRspFires(m) && m.last[i].source == m.llRsp.item.source
        then LastEntry(DONE, m.llRsp.item.word, m.last[i].source)
        else m.last[i]
    ensures m.last[i].state == DONE ==>
      LastNext(m, i) ==
        if PtwRspFires(m) && i == Pick(LastFlags(m.last, DONE)) then LastEntry(IDLE, 0, 0) else m.last[i]
    ensures m.last[i].state > DONE ==> LastNext(m, i) == m.last[i]
  {
  }

  /** deq_ptr is io_chosen. */
  lemma SentIsPicked(m: State)
    requires Shape(m) && Flow(m)
    ensures Pick(FirstFlags(m.first, DONE)) == FirstSent(m) && Pick(LastFlags(m.last, DONE)) == LastSent(m)
  {
  }

  /** Where deq_ptr and io_chosen differ the response that is sent stays to be sent again, and the one
      under deq_ptr is gone. */
  lemma LostResponse(m: State, input: Input)
    requires Shape(m) && m.l2Rsp.Empty? && Any(LastFlags(m.last, DONE))
    requires Pick(LastFlags(m.last, DONE)) != LastSent(m)
    ensures var m', sent := Next(m, input), m.last[LastSent(m)];
      && m'.l2Rsp == Full(Msg(sent.addr, sent.source)) && sent.state == DONE && m'.last[LastSent(m)] == sent
      && m.last[Pick(LastFlags(m.last, DONE))].state == DONE
      && m'.last[Pick(LastFlags(m.last, DONE))] == LastEntry(IDLE, 0, 0)
  {
    LastCases(m, LastSent(m));
    LastCases(m, Pick(LastFlags(m.last, DONE)));
    hide FirstNext, LastNext, GrantsNext, FirstFlags, Pick, Chosen, EntryAddr;
  }

  /** How a source gets into the first walker, moves in it, and leaves. */
  lemma IntoFirst(m: State, input: Input, g: Stage, s: nat)
    requires Shape(m)
    ensures var g' := Advance(m, input, g, s);
      && (g == PtwQ ==> g' == if EnqFires(m) then First(Pick(FirstFlags(m.first, IDLE)), 2) else g)
      && (g.First? ==> g' == if FirstReadFires(m) && FirstRead(m) == g.i then PcReq(g.i, g.level) else g)
      && (g.PcReq? || g.PcOut? ==> (g'.PcReq? || g'.PcOut? || g'.PcRsp?) && g'.i == g.i && g'.level == g.level)
      && (g.PcRsp? ==>
           g' == if !PcRspFires(m) then g else if g.level > 1 then First(g.i, g.level - 1) else FirstDone(g.i))
      && (g.FirstDone? ==> g' == if LlFires(m) && FirstSent(m) == g.i then Last(Pick(LastFlags(m.last, IDLE))) else g)
      && (InFirst(g') ==> InFirst(g) || g == PtwQ)
  {
    hide FirstFlags, LastFlags, Chosen, Pick, Any, FirstRead, FirstSent, LastRead, LastSent, FirstReadFires,
         LastReadFires, LlFires, EnqFires, PcRspFires, LlRspFires, PtwRspFires;
  }

  lemma IntoLast(m: State, input: Input, g: Stage, s: nat)
    requires Shape(m)
    ensures var g' := Advance(m, input, g, s);
      && (g.FirstDone? ==> g' == if LlFires(m) && FirstSent(m) == g.i then Last(Pick(LastFlags(m.last, IDLE))) else g)
      && (g.Last? ==> g' == if LastReadFires(m) && LastRead(m) == g.i then LlReq(g.i) else g)
      && (g.LlReq? || g.LlOut? ==> (g'.LlReq? || g'.LlOut? || g'.LlRsp?) && g'.i == g.i)
      && (g.LlRsp? ==> g' == if LlRspFires(m) then LastDone(g.i) else g)
      && (g.LastDone? ==> g' == if PtwRspFires(m) && LastSent(m) == g.i then L2Q else g)
      && (InLast(g') ==> InLast(g) || g.FirstDone?)
  {
    hide FirstFlags, LastFlags, Chosen, Pick, Any, FirstRead, FirstSent, LastRead, LastSent, FirstReadFires,
         LastReadFires, LlFires, EnqFires, PcRspFires, LlRspFires, PtwRspFires;
  }

  /** One level of the walk. */
  lemma WalkStep(mem: nat -> nat, r: Req, level: nat)
    requires 1 <= level <= 2
    ensures PtePpn(mem(ReadAddr(mem, r, level))) == Ppn(mem, r, level - 1)
    ensures (level + 3) % 4 == level - 1
  {
    hide ReadAddr, PtePpn;
  }

  /** The entry of a source that is in the first walker follows the source. */
  lemma FirstFollows(mem: nat -> nat, m: State, input: Input, loc: seq<Stage>, cur: seq<Req>, loc': seq<Stage>,
                     cur': seq<Req>, s: nat)
    requires Moves(m, input, loc, cur, loc', cur') && FirstOk(mem, m.first, loc, cur) && PcRspOk(mem, m.pcRsp, loc, cur)
    requires TlbOk(m.ptwReq, loc, cur, PtwQ) && Flow(m) && s < 4
    ensures InFirst(loc'[s]) ==> FirstNext(m, loc'[s].i) == FirstImage(mem, loc'[s], cur'[s], s)
    ensures InFirst(loc[s]) && !InFirst(loc'[s]) ==> FirstNext(m, loc[s].i).state == IDLE
    ensures InFirst(loc[s]) && InFirst(loc'[s]) ==> loc'[s].i == loc[s].i
  {
    hide Advance, FirstFlags, LastFlags, Chosen, Pick, Any, FirstRead, FirstSent, FirstReadFires, LlFires, EnqFires,
         PcRspFires, FirstNext, Ppn, ReadAddr, PtePpn, Flow, FirstOk;
    var g := loc[s];
    IntoFirst(m, input, g, s);
    if InFirst(g) {
      FirstSlot(mem, m.first, loc, cur, s);
      FirstCases(m, g.i);
      SentIsPicked(m);
      if !g.FirstDone? { WalkStep(mem, cur[s], g.level); }
      ResponseFor(mem, m, loc, cur, s);
    } else if g == PtwQ && EnqFires(m) {
      Picked(m);
      FirstCases(m, Pick(FirstFlags(m.first, IDLE)));
      RootPpn(mem, cur[s]);
    }
  }

  lemma RootPpn(mem: nat -> nat, r: Req)
    ensures Ppn(mem, r, 2) == r.ptbr % PPNS
  {
  }

  /** A response is for the source that waits for it, and for no other. */
  lemma ResponseFor(mem: nat -> nat, m: State, loc: seq<Stage>, cur: seq<Req>, s: nat)
    requires Shape(m) && Sources(loc, cur) && PcRspOk(mem, m.pcRsp, loc, cur) && s < 4
    ensures PcRspFires(m) ==> (m.pcRsp.item.source == s <==> loc[s].PcRsp?)
    ensures loc[s].PcRsp? && PcRspFires(m) ==>
      StageOk(loc[s]) && m.pcRsp.item.word == mem(ReadAddr(mem, cur[s], loc[s].level))
  {
    hide ReadAddr, Any, FirstFlags;
  }

  lemma LastResponseFor(mem: nat -> nat, m: State, loc: seq<Stage>, cur: seq<Req>, s: nat)
    requires Shape(m) && Sources(loc, cur) && LlRspOk(mem, m.llRsp, loc, cur) && s < 4
    ensures LlRspFires(m) ==> (m.llRsp.item.source == s <==> loc[s].LlRsp?)
    ensures loc[s].LlRsp? && LlRspFires(m) ==> m.llRsp.item.word == Leaf(mem, cur[s])
  {
    hide ReadAddr, Any, LastFlags;
  }

  lemma LastFollows(mem: nat -> nat, m: State, input: Input, loc: seq<Stage>, cur: seq<Req>, loc': seq<Stage>,
                    cur': seq<Req>, s: nat)
    requires Moves(m, input, loc, cur, loc', cur') && LastOk(mem, m.last, loc, cur) && LlRspOk(mem, m.llRsp, loc, cur)
    requires FirstOk(mem, m.first, loc, cur) && Flow(m) && s < 4
    ensures InLast(loc'[s]) ==> LastNext(m, loc'[s].i) == LastImage(mem, loc'[s], cur'[s], s)
    ensures InLast(loc[s]) && !InLast(loc'[s]) ==> LastNext(m, loc[s].i).state == IDLE
    ensures InLast(loc[s]) && InLast(loc'[s]) ==> loc'[s].i == loc[s].i
  {
    hide Advance, FirstFlags, LastFlags, Chosen, Pick, Any, LastRead, FirstSent, LastSent, LastReadFires, LlFires,
         LlRspFires, PtwRspFires, LastNext, Ppn, EntryAddr, Flow, FirstOk, LastOk;
    var g := loc[s];
    IntoLast(m, input, g, s);
    Picked(m);
    if InLast(g) {
      LastSlot(mem, m.last, loc, cur, s);
      LastCases(m, g.i);
      SentIsPicked(m);
      LastResponseFor(mem, m, loc, cur, s);
    } else if g.FirstDone? {
      FirstSlot(mem, m.first, loc, cur, s);
      LastCases(m, Pick(LastFlags(m.last, IDLE)));
    }
  }

  lemma FirstOkNext(mem: nat -> nat, m: State, input: Input, loc: seq<Stage>, cur: seq<Req>, loc': seq<Stage>,
                    cur': seq<Req>)
    requires Moves(m, input, loc, cur, loc', cur') && FirstOk(mem, m.first, loc, cur) && PcRspOk(mem, m.pcRsp, loc, cur)
    requires TlbOk(m.ptwReq, loc, cur, PtwQ) && Flow(m)
    ensures FirstOk(mem, Next(m, input).first, loc', cur')
  {
    hide Advance, FirstFlags, LastFlags, Chosen, Pick, Any, FirstImage, FirstNext, Flow, EnqFires, PcRspOk,
         LastNext, Granted, QueueNext;
    var first' := Next(m, input).first;
    forall s | 0 <= s < 4 && InFirst(loc'[s]) ensures first'[loc'[s].i] == FirstImage(mem, loc'[s], cur'[s], s) {
      FirstFollows(mem, m, input, loc, cur, loc', cur', s);
    }
    forall i | 0 <= i < 4 && first'[i].state != IDLE
      ensures first'[i].source < 4 && InFirst(loc'[first'[i].source]) && loc'[first'[i].source].i == i
    {
      FirstOrigin(mem, m, input, loc, cur, loc', cur', i);
    }
  }

  lemma FirstOrigin(mem: nat -> nat, m: State, input: Input, loc: seq<Stage>, cur: seq<Req>, loc': seq<Stage>,
                    cur': seq<Req>, i: nat)
    requires Moves(m, input, loc, cur, loc', cur') && FirstOk(mem, m.first, loc, cur) && PcRspOk(mem, m.pcRsp, loc, cur)
    requires TlbOk(m.ptwReq, loc, cur, PtwQ) && Flow(m) && i < 4 && FirstNext(m, i).state != IDLE
    ensures var s := FirstNext(m, i).source; s < 4 && InFirst(loc'[s]) && loc'[s].i == i
  {
    hide Advance, FirstFlags, LastFlags, Chosen, Pick, Any, FirstNext, Flow, PcRspOk, FirstOk, Ppn, VpnOf;
    FirstAt(mem, m.first, loc, cur, i);
    FirstCases(m, i);
    if m.first[i].state != IDLE {
      FirstFollows(mem, m, input, loc, cur, loc', cur', m.first[i].source);
    } else {
      IntoFirst(m, input, loc[m.ptwReq.item.source], m.ptwReq.item.source);
    }
  }

  lemma LastOkNext(mem: nat -> nat, m: State, input: Input, loc: seq<Stage>, cur: seq<Req>, loc': seq<Stage>,
                   cur': seq<Req>)
    requires Moves(m, input, loc, cur, loc', cur') && LastOk(mem, m.last, loc, cur) && LlRspOk(mem, m.llRsp, loc, cur)
    requires FirstOk(mem, m.first, loc, cur) && Flow(m)
    ensures LastOk(mem, Next(m, input).last, loc', cur')
  {
    hide Advance, FirstFlags, LastFlags, Chosen, Pick, Any, LastImage, FirstNext, Flow, EnqFires, LlRspOk, FirstOk,
         LastNext, Granted, QueueNext;
    var last' := Next(m, input).last;
    forall s | 0 <= s < 4 && InLast(loc'[s]) ensures last'[loc'[s].i] == LastImage(mem, loc'[s], cur'[s], s) {
      LastFollows(mem, m, input, loc, cur, loc', cur', s);
    }
    forall i | 0 <= i < 4 && last'[i].state != IDLE
      ensures last'[i].source < 4 && InLast(loc'[last'[i].source]) && loc'[last'[i].source].i == i
    {
      LastOrigin(mem, m, input, loc, cur, loc', cur', i);
    }
  }

  lemma LastOrigin(mem: nat -> nat, m: State, input: Input, loc: seq<Stage>, cur: seq<Req>, loc': seq<Stage>,
                   cur': seq<Req>, i: nat)
    requires Moves(m, input, loc, cur, loc', cur') && LastOk(mem, m.last, loc, cur) && LlRspOk(mem, m.llRsp, loc, cur)
    requires FirstOk(mem, m.first, loc, cur) && Flow(m) && i < 4 && LastNext(m, i).state != IDLE
    ensures var s := LastNext(m, i).source; s < 4 && InLast(loc'[s]) && loc'[s].i == i
  {
    hide Advance, FirstFlags, LastFlags, Chosen, Pick, Any, LastNext, Flow, LlFires, LlRspOk, FirstOk, LastOk, Ppn,
         VpnOf, EntryAddr, FirstSent;
    LastAt(mem, m.last, loc, cur, i);
    LastCases(m, i);
    if m.last[i].state != IDLE {
      LastFollows(mem, m, input, loc, cur, loc', cur', m.last[i].source);
    } else {
      Picked(m);
      FirstAt(mem, m.first, loc, cur, FirstSent(m));
      IntoLast(m, input, loc[m.first[FirstSent(m)].source], m.first[FirstSent(m)].source);
    }
  }

  /** Four sources cannot fill the last walker while one of them is elsewhere. */
  lemma LastHasRoom(mem: nat -> nat, m: State, loc: seq<Stage>, cur: seq<Req>, s: nat)
    requires Shape(m) && Sources(loc, cur) && LastOk(mem, m.last, loc, cur) && s < 4 && !InLast(loc[s])
    ensures Any(LastFlags(m.last, IDLE))
  {
    hide LastFlags, LastOk, LastImage;
    LastAt(mem, m.last, loc, cur, 0);
    LastAt(mem, m.last, loc, cur, 1);
    LastAt(mem, m.last, loc, cur, 2);
    LastAt(mem, m.last, loc, cur, 3);
  }

  lemma FirstHasRoom(mem: nat -> nat, m: State, loc: seq<Stage>, cur: seq<Req>, s: nat)
    requires Shape(m) && Sources(loc, cur) && FirstOk(mem, m.first, loc, cur) && s < 4 && !InFirst(loc[s])
    ensures Any(FirstFlags(m.first, IDLE))
  {
    hide FirstFlags, FirstOk, FirstImage;
    FirstAt(mem, m.first, loc, cur, 0);
    FirstAt(mem, m.first, loc, cur, 1);
    FirstAt(mem, m.first, loc, cur, 2);
    FirstAt(mem, m.first, loc, cur, 3);
  }

  /** A first-level entry is ready to leave only if it has just had its answer: the one before it has left. */
  lemma FirstLeaves(mem: nat -> nat, m: State, loc: seq<Stage>, cur: seq<Req>, i: nat)
    requires Shape(m) && Sources(loc, cur) && FirstOk(mem, m.first, loc, cur)
    requires LastOk(mem, m.last, loc, cur) && Flow(m)
    requires i < 4 && FirstNext(m, i).state == DONE
    ensures PcRspFires(m) && m.first[i].state == MEM_WAIT && m.first[i].source == m.pcRsp.item.source
  {
    hide FirstFlags, LastFlags, Chosen, Pick, FirstNext, EnqFires, PcRspFires, FirstOk, LastOk, FirstImage,
         FirstRead, FirstReadFires, Any;
    FirstCases(m, i);
    if m.first[i].state == DONE {
      FirstAt(mem, m.first, loc, cur, i);
      LastHasRoom(mem, m, loc, cur, m.first[i].source);
      OnlyDone(FirstFlags(m.first, DONE), i);
    }
  }

  lemma OnlyDone(b: seq<bool>, i: nat)
    requires |b| == 4 && AtMostOne(b) && i < 4 && b[i]
    ensures Any(b) && Pick(b) == i
  {
  }

  lemma LastLeaves(m: State, i: nat)
    requires Shape(m) && Flow(m) && i < 4 && LastNext(m, i).state == DONE
    ensures LlRspFires(m) && m.last[i].state == MEM_WAIT && m.last[i].source == m.llRsp.item.source
  {
  }

  lemma FlowNext(mem: nat -> nat, m: State, input: Input, loc: seq<Stage>, cur: seq<Req>)
    requires Shape(m) && Sources(loc, cur) && FirstOk(mem, m.first, loc, cur)
    requires LastOk(mem, m.last, loc, cur) && Flow(m)
    requires input.rspReady
    ensures Flow(Next(m, input))
  {
    hide Flow, Chosen, Pick, FirstNext, LastNext, FirstOk, LastOk, FirstRead, LastRead, FirstSent, LastSent,
         Granted, EntryAddr, Any, EnqFires, FirstReadFires, LastReadFires, LlFires, PcRspFires, LlRspFires,
         PtwRspFires;
    var m' := Next(m, input);
    OneDone(mem, m, loc, cur, m');
    if Any(LastFlags(m'.last, DONE)) {
      var i := Pick(LastFlags(m'.last, DONE));
      LastLeaves(m, i);
      Drains(m, input, m');
    }
    Drained(m, input, m');
    FlowIntro(m');
  }

  lemma FlowIntro(m: State)
    requires Shape(m) && AtMostOne(FirstFlags(m.first, DONE)) && AtMostOne(LastFlags(m.last, DONE))
    requires Any(LastFlags(m.last, DONE)) ==> m.llRsp.Empty? && m.l2Rsp.Empty?
    requires !(m.l2Rsp.Full? && m.tlbRsp.Full?)
    ensures Flow(m)
  {
    hide FirstFlags, LastFlags, Any;
  }

  lemma OneDone(mem: nat -> nat, m: State, loc: seq<Stage>, cur: seq<Req>, m': State)
    requires Shape(m) && Shape(m') && Sources(loc, cur) && FirstOk(mem, m.first, loc, cur)
    requires LastOk(mem, m.last, loc, cur) && Flow(m)
    requires forall i :: 0 <= i < 4 ==> m'.first[i] == FirstNext(m, i) && m'.last[i] == LastNext(m, i)
    ensures AtMostOne(FirstFlags(m'.first, DONE)) && AtMostOne(LastFlags(m'.last, DONE))
  {
    hide Flow, Chosen, Pick, FirstNext, LastNext, FirstOk, LastOk, FirstFlags, LastFlags, Any, FirstImage, LastImage;
    forall i, j | 0 <= i < j < 4 ensures !(m'.first[i].state == DONE && m'.first[j].state == DONE) {
      if m'.first[i].state == DONE && m'.first[j].state == DONE {
        FirstLeaves(mem, m, loc, cur, i);
        FirstLeaves(mem, m, loc, cur, j);
        FirstAt(mem, m.first, loc, cur, i);
        FirstAt(mem, m.first, loc, cur, j);
        assert false;
      }
    }
    forall i, j | 0 <= i < j < 4 ensures !(m'.last[i].state == DONE && m'.last[j].state == DONE) {
      if m'.last[i].state == DONE && m'.last[j].state == DONE {
        LastLeaves(m, i);
        LastLeaves(m, j);
        LastAt(mem, m.last, loc, cur, i);
        LastAt(mem, m.last, loc, cur, j);
        assert false;
      }
    }
  }

  /** When a last-level answer arrives, the queues behind the walker are on their way out. */
  lemma Drains(m: State, input: Input, m': State)
    requires Shape(m) && Flow(m) && LlRspFires(m) && m' == Next(m, input)
    ensures m'.llRsp.Empty? && m'.l2Rsp.Empty?
  {
    hide FirstFlags, LastFlags, Any, FirstNext, LastNext, FirstRead, LastRead, FirstSent, LastSent, Granted,
         EntryAddr, Chosen, Pick, AtMostOne, EnqFires, FirstReadFires, LastReadFires, LlFires, PcRspFires;
  }

  lemma Drained(m: State, input: Input, m': State)
    requires Shape(m) && Flow(m) && input.rspReady && m' == Next(m, input)
    ensures !(m'.l2Rsp.Full? && m'.tlbRsp.Full?)
  {
    hide FirstFlags, LastFlags, Any, FirstNext, LastNext, FirstRead, LastRead, FirstSent, LastSent, Granted,
         EntryAddr, Chosen, Pick, AtMostOne, EnqFires, FirstReadFires, LastReadFires, LlFires, PcRspFires,
         LlRspFires;
  }
}
