/** One clock cycle moves each request along its stages, place by place. */
module MmuCycle {
  import opened Arbiters
  import opened Mmu
  import opened MmuInvariant
  import opened Options

  ghost predicate ReqLegal(input: Input, loc: seq<Stage>)
    requires |loc| == 4
  {
    input.req.Some? ==> input.req.value.source < 4 && loc[input.req.value.source] == Absent
  }

  /** loc and cur before and after a cycle. */
  ghost predicate Moves(m: State, input: Input, loc: seq<Stage>, cur: seq<Req>, loc': seq<Stage>, cur': seq<Req>)
  {
    && Shape(m) && Sources(loc, cur) && ReqLegal(input, loc) && Sources(loc', cur')
    && (forall s :: 0 <= s < 4 ==> loc'[s] == Advance(m, input, loc[s], s))
    && (forall s :: 0 <= s < 4 && loc[s] != Absent ==> cur'[s] == cur[s])
    && (ReqFires(m, input) ==> cur'[input.req.value.source] == input.req.value)
  }

  lemma MovesNext(m: State, input: Input, loc: seq<Stage>, cur: seq<Req>)
    requires Shape(m) && Sources(loc, cur) && ReqLegal(input, loc)
    ensures Moves(m, input, loc, cur, LocNext(m, input, loc), CurNext(m, input, cur))
  {
    hide FirstFlags, LastFlags, EnqFires, FirstReadFires, PcRspFires, LlFires, LastReadFires, LlRspFires,
         PtwRspFires, FirstRead, FirstSent, LastRead, LastSent;
  }

  /** Which sources a cycle puts into the queues before the walkers. */
  lemma IntoTlb(m: State, input: Input, g: Stage, s: nat)
    requires Shape(m)
    ensures Advance(m, input, g, s) == TlbQ <==>
      (g == TlbQ && !TlbFires(m)) || (g == Absent && ReqFires(m, input) && input.req.value.source == s)
    ensures Advance(m, input, g, s) == PtwQ <==> (g == PtwQ && !EnqFires(m)) || (g == TlbQ && TlbFires(m))
  {
    hide FirstFlags, LastFlags, Chosen, Any, Pick, FirstRead, FirstSent, LastRead, LastSent;
  }

  lemma TlbReqNext(m: State, input: Input, loc: seq<Stage>, cur: seq<Req>, loc': seq<Stage>, cur': seq<Req>)
    requires Moves(m, input, loc, cur, loc', cur') && TlbOk(m.tlbReq, loc, cur, TlbQ)
    ensures TlbOk(Next(m, input).tlbReq, loc', cur', TlbQ)
  {
    hide Advance, FirstFlags, LastFlags, EnqFires, FirstReadFires, PcRspFires, LlFires, LastReadFires, LlRspFires,
         PtwRspFires, FirstRead, FirstSent, LastRead, LastSent, Granted, FirstNext, LastNext, QueueNext, EntryAddr;
    forall s | 0 <= s < 4 ensures loc'[s] == TlbQ <==>
      (loc[s] == TlbQ && !TlbFires(m)) || (loc[s] == Absent && ReqFires(m, input) && input.req.value.source == s)
    {
      IntoTlb(m, input, loc[s], s);
    }
  }

  lemma PtwReqNext(m: State, input: Input, loc: seq<Stage>, cur: seq<Req>, loc': seq<Stage>, cur': seq<Req>)
    requires Moves(m, input, loc, cur, loc', cur') && TlbOk(m.tlbReq, loc, cur, TlbQ) && TlbOk(m.ptwReq, loc, cur, PtwQ)
    ensures TlbOk(Next(m, input).ptwReq, loc', cur', PtwQ)
  {
    hide Advance, FirstFlags, LastFlags, FirstReadFires, PcRspFires, LlFires, LastReadFires, LlRspFires,
         PtwRspFires, FirstRead, FirstSent, LastRead, LastSent, Granted, FirstNext, LastNext, QueueNext, EntryAddr;
    forall s | 0 <= s < 4
      ensures loc'[s] == PtwQ <==> (loc[s] == PtwQ && !EnqFires(m)) || (loc[s] == TlbQ && TlbFires(m))
    {
      IntoTlb(m, input, loc[s], s);
    }
  }

  /** The read of source s is answered in this cycle. */
  predicate PcAnswers(m: State, input: Input, s: nat) { PcAnswerFires(m, input) && input.memRsp.value.source == 4 + s }
  predicate LlAnswers(m: State, input: Input, s: nat) { LlAnswerFires(m, input) && input.memRsp.value.source == s }

  lemma IntoPageCache(m: State, input: Input, g: Stage, s: nat)
    requires Shape(m)
    ensures var g' := Advance(m, input, g, s);
      && (g'.PcReq? <==> (g.PcReq? && !PcOutFires(m, input)) || (g.First? && FirstReadFires(m) && FirstRead(m) == g.i))
      && (g'.PcOut? <==> (g.PcReq? && PcOutFires(m, input)) || (g.PcOut? && !PcAnswers(m, input, s)))
      && (g'.PcRsp? <==> (g.PcRsp? && !PcRspFires(m)) || (g.PcOut? && PcAnswers(m, input, s)))
      && (g'.PcReq? || g'.PcOut? || g'.PcRsp? ==> InFirst(g) && !g.FirstDone? && g'.i == g.i && g'.level == g.level)
  {
    hide FirstFlags, LastFlags, Chosen, Any, Pick, FirstRead, FirstSent, LastRead, LastSent;
  }

  lemma IntoLastCache(m: State, input: Input, g: Stage, s: nat)
    requires Shape(m)
    ensures var g' := Advance(m, input, g, s);
      && (g'.LlReq? <==> (g.LlReq? && !LlOutFires(m, input)) || (g.Last? && LastReadFires(m) && LastRead(m) == g.i))
      && (g'.LlOut? <==> (g.LlReq? && LlOutFires(m, input)) || (g.LlOut? && !LlAnswers(m, input, s)))
      && (g'.LlRsp? <==> (g.LlRsp? && !LlRspFires(m)) || (g.LlOut? && LlAnswers(m, input, s)))
  {
    hide FirstFlags, LastFlags, Chosen, Any, Pick, FirstRead, FirstSent, LastRead, LastSent;
  }

  lemma IntoResponse(m: State, input: Input, g: Stage, s: nat)
    requires Shape(m)
    ensures Advance(m, input, g, s) == L2Q <==>
      (g == L2Q && !L2Fires(m)) || (g.LastDone? && PtwRspFires(m) && LastSent(m) == g.i)
    ensures Advance(m, input, g, s) == RspQ <==> (g == RspQ && !RspFires(m, input)) || (g == L2Q && L2Fires(m))
  {
    hide FirstFlags, LastFlags, Chosen, Any, Pick, FirstRead, FirstSent, LastRead, LastSent;
  }

  /** An entry that is not idle is the image of its source's request. */
  lemma FirstAt(mem: nat -> nat, first: seq<FirstEntry>, loc: seq<Stage>, cur: seq<Req>, i: nat)
    requires |first| == 4 && Sources(loc, cur) && FirstOk(mem, first, loc, cur) && i < 4
    ensures first[i].state != IDLE ==> var s := first[i].source;
      s < 4 && InFirst(loc[s]) && loc[s].i == i && first[i] == FirstImage(mem, loc[s], cur[s], s)
  {
    hide Ppn, VpnOf;
  }

  lemma LastAt(mem: nat -> nat, last: seq<LastEntry>, loc: seq<Stage>, cur: seq<Req>, i: nat)
    requires |last| == 4 && Sources(loc, cur) && LastOk(mem, last, loc, cur) && i < 4
    ensures last[i].state != IDLE ==> var s := last[i].source;
      s < 4 && InLast(loc[s]) && loc[s].i == i && last[i] == LastImage(mem, loc[s], cur[s], s)
  {
    hide ReadAddr;
  }

  /** The entries that the arbiters pick are in the state they pick from. */
  lemma Picked(m: State)
    requires Shape(m)
    ensures FirstReadFires(m) ==> m.first[FirstRead(m)].state == MEM_REQ
    ensures LastReadFires(m) ==> m.last[LastRead(m)].state == MEM_REQ
    ensures LlFires(m) ==> m.first[FirstSent(m)].state == DONE && m.last[Pick(LastFlags(m.last, IDLE))].state == IDLE
    ensures LlFires(m) ==> m.first[Pick(FirstFlags(m.first, DONE))].state == DONE
    ensures PtwRspFires(m) ==> m.last[LastSent(m)].state == DONE && m.last[Pick(LastFlags(m.last, DONE))].state == DONE
    ensures EnqFires(m) ==> m.first[Pick(FirstFlags(m.first, IDLE))].state == IDLE
  {
    hide FirstFlags, LastFlags, Chosen, Pick, Any;
  }

  lemma PcReqNext(mem: nat -> nat, m: State, input: Input, loc: seq<Stage>, cur: seq<Req>, loc': seq<Stage>,
                  cur': seq<Req>)
    requires Moves(m, input, loc, cur, loc', cur') && FirstOk(mem, m.first, loc, cur) && PcReqOk(mem, m.pcReq, loc, cur)
    ensures PcReqOk(mem, Next(m, input).pcReq, loc', cur')
  {
    hide Advance, FirstFlags, LastFlags, EnqFires, PcRspFires, LlFires, LastReadFires, LlRspFires, PtwRspFires,
         FirstRead, FirstSent, LastRead, LastSent, Granted, FirstNext, LastNext, EntryAddr, Ppn, FirstOk, VpnOf,
         Any;
    Picked(m);
    FirstAt(mem, m.first, loc, cur, FirstRead(m));
    forall s | 0 <= s < 4 && loc'[s].PcReq?
      ensures Next(m, input).pcReq == Full(Msg(ReadAddr(mem, cur'[s], loc'[s].level), s))
    {
      IntoPageCache(m, input, loc[s], s);
      if loc[s].First? { FirstSlot(mem, m.first, loc, cur, s); }
    }
    if Next(m, input).pcReq.Full? {
      IntoPageCache(m, input, loc[Next(m, input).pcReq.item.source], Next(m, input).pcReq.item.source);
    }
  }

  lemma FirstSlot(mem: nat -> nat, first: seq<FirstEntry>, loc: seq<Stage>, cur: seq<Req>, s: nat)
    requires |first| == 4 && Sources(loc, cur) && FirstOk(mem, first, loc, cur) && s < 4 && InFirst(loc[s])
    ensures StageOk(loc[s]) && first[loc[s].i] == FirstImage(mem, loc[s], cur[s], s)
  {
    hide Ppn, VpnOf;
  }

  lemma LastSlot(mem: nat -> nat, last: seq<LastEntry>, loc: seq<Stage>, cur: seq<Req>, s: nat)
    requires |last| == 4 && Sources(loc, cur) && LastOk(mem, last, loc, cur) && s < 4 && InLast(loc[s])
    ensures StageOk(loc[s]) && last[loc[s].i] == LastImage(mem, loc[s], cur[s], s)
  {
    hide ReadAddr;
  }

  /** An answer is to a read that its source is waiting for, with the word of that address. */
  lemma AnswerAt(mem: nat -> nat, e: Event, out: multiset<(nat, nat)>, loc: seq<Stage>, cur: seq<Req>)
    requires Sources(loc, cur) && Legal(e, out, loc) && OutOk(mem, out, loc, cur) && e.answer.Some?
    ensures OutAt(mem, e.answer.value, loc, cur)
    ensures e.answer.value.0 % 4 == if e.answer.value.0 >= 4 then e.answer.value.0 - 4 else e.answer.value.0
  {
    hide ReadAddr;
  }

  lemma PcRspNext(mem: nat -> nat, m: State, e: Event, out: multiset<(nat, nat)>, loc: seq<Stage>, cur: seq<Req>,
                  loc': seq<Stage>, cur': seq<Req>)
    requires Moves(m, InputOf(mem, e), loc, cur, loc', cur') && Legal(e, out, loc) && OutOk(mem, out, loc, cur)
    requires PcRspOk(mem, m.pcRsp, loc, cur)
    ensures PcRspOk(mem, Next(m, InputOf(mem, e)).pcRsp, loc', cur')
  {
    hide OutOk, Legal, Advance, FirstReadFires, LastReadFires, LlFires, PtwRspFires, LlRspFires, FirstFlags,
         LastFlags, EnqFires, FirstRead, FirstSent, LastRead, LastSent, Granted, FirstNext, LastNext, EntryAddr,
         Ppn, FirstOk, LastOk, VpnOf, Any, Pick, Chosen, ReadAddr;
    if e.answer.Some? { AnswerAt(mem, e, out, loc, cur); }
    var input := InputOf(mem, e);
    forall s | 0 <= s < 4 && loc'[s].PcRsp?
      ensures Next(m, input).pcRsp == Full(Msg(mem(ReadAddr(mem, cur'[s], loc'[s].level)), s))
    {
      IntoPageCache(m, input, loc[s], s);
    }
    if Next(m, input).pcRsp.Full? {
      IntoPageCache(m, input, loc[Next(m, input).pcRsp.item.source], Next(m, input).pcRsp.item.source);
    }
  }

  lemma LlReqNext(mem: nat -> nat, m: State, input: Input, loc: seq<Stage>, cur: seq<Req>, loc': seq<Stage>,
                  cur': seq<Req>)
    requires Moves(m, input, loc, cur, loc', cur') && LastOk(mem, m.last, loc, cur) && LlReqOk(mem, m.llReq, loc, cur)
    ensures LlReqOk(mem, Next(m, input).llReq, loc', cur')
  {
    hide Advance, FirstFlags, LastFlags, EnqFires, FirstRead, FirstSent, LastRead, LastSent, Granted, FirstNext,
         LastNext, EntryAddr, Ppn, FirstOk, LastOk, VpnOf, Any, Pick, Chosen, ReadAddr;
    Picked(m);
    LastAt(mem, m.last, loc, cur, LastRead(m));
    forall s | 0 <= s < 4 && loc'[s].LlReq? ensures Next(m, input).llReq == Full(Msg(ReadAddr(mem, cur'[s], 0), s)) {
      IntoLastCache(m, input, loc[s], s);
      if loc[s].Last? { LastSlot(mem, m.last, loc, cur, s); }
    }
    if Next(m, input).llReq.Full? {
      IntoLastCache(m, input, loc[Next(m, input).llReq.item.source], Next(m, input).llReq.item.source);
    }
  }

  lemma LlRspNext(mem: nat -> nat, m: State, e: Event, out: multiset<(nat, nat)>, loc: seq<Stage>, cur: seq<Req>,
                  loc': seq<Stage>, cur': seq<Req>)
    requires Moves(m, InputOf(mem, e), loc, cur, loc', cur') && Legal(e, out, loc) && OutOk(mem, out, loc, cur)
    requires LlRspOk(mem, m.llRsp, loc, cur)
    ensures LlRspOk(mem, Next(m, InputOf(mem, e)).llRsp, loc', cur')
  {
    hide OutOk, Legal, Advance, FirstReadFires, LastReadFires, LlFires, PtwRspFires, PcRspFires, FirstFlags,
         LastFlags, EnqFires, FirstRead, FirstSent, LastRead, LastSent, Granted, FirstNext, LastNext, EntryAddr,
         Ppn, FirstOk, LastOk, VpnOf, Any, Pick, Chosen, ReadAddr;
    if e.answer.Some? { AnswerAt(mem, e, out, loc, cur); }
    var input := InputOf(mem, e);
    forall s | 0 <= s < 4 && loc'[s].LlRsp? ensures Next(m, input).llRsp == Full(Msg(Leaf(mem, cur'[s]), s)) {
      IntoLastCache(m, input, loc[s], s);
    }
    if Next(m, input).llRsp.Full? {
      IntoLastCache(m, input, loc[Next(m, input).llRsp.item.source], Next(m, input).llRsp.item.source);
    }
  }

  lemma L2RspNext(mem: nat -> nat, m: State, input: Input, loc: seq<Stage>, cur: seq<Req>, loc': seq<Stage>,
                  cur': seq<Req>)
    requires Moves(m, input, loc, cur, loc', cur') && LastOk(mem, m.last, loc, cur)
    requires RspOk(mem, m.l2Rsp, loc, cur, L2Q)
    ensures RspOk(mem, Next(m, input).l2Rsp, loc', cur', L2Q)
  {
    hide Advance, FirstFlags, LastFlags, EnqFires, FirstRead, FirstSent, LastRead, LastSent, Granted, FirstNext,
         LastNext, EntryAddr, Ppn, FirstOk, LastOk, VpnOf, Any, Pick, Chosen, ReadAddr;
    Picked(m);
    LastAt(mem, m.last, loc, cur, LastSent(m));
    forall s | 0 <= s < 4 && loc'[s] == L2Q ensures Next(m, input).l2Rsp == Full(Msg(Leaf(mem, cur'[s]), s)) {
      IntoResponse(m, input, loc[s], s);
      if loc[s].LastDone? { LastSlot(mem, m.last, loc, cur, s); }
    }
    if Next(m, input).l2Rsp.Full? {
      IntoResponse(m, input, loc[Next(m, input).l2Rsp.item.source], Next(m, input).l2Rsp.item.source);
    }
  }

  lemma TlbRspNext(mem: nat -> nat, m: State, input: Input, loc: seq<Stage>, cur: seq<Req>, loc': seq<Stage>,
                   cur': seq<Req>)
    requires Moves(m, input, loc, cur, loc', cur') && RspOk(mem, m.l2Rsp, loc, cur, L2Q)
    requires RspOk(mem, m.tlbRsp, loc, cur, RspQ)
    ensures RspOk(mem, Next(m, input).tlbRsp, loc', cur', RspQ)
  {
    hide Advance, FirstFlags, LastFlags, EnqFires, FirstRead, FirstSent, LastRead, LastSent, Granted, FirstNext,
         LastNext, EntryAddr, Ppn, FirstOk, LastOk, VpnOf, Any, Pick, Chosen, ReadAddr;
    forall s | 0 <= s < 4 && loc'[s] == RspQ ensures Next(m, input).tlbRsp == Full(Msg(Leaf(mem, cur'[s]), s)) {
      IntoResponse(m, input, loc[s], s);
    }
    if Next(m, input).tlbRsp.Full? {
      IntoResponse(m, input, loc[Next(m, input).tlbRsp.item.source], Next(m, input).tlbRsp.item.source);
    }
  }

  /** While its client is not ready a response stays, and the one behind it too. */
  lemma ResponseWaits(m: State, input: Input)
    requires Shape(m) && m.tlbRsp.Full? && !input.rspReady
    ensures Next(m, input).tlbRsp == m.tlbRsp && (m.l2Rsp.Full? ==> Next(m, input).l2Rsp == m.l2Rsp)
  {
    hide FirstNext, LastNext, GrantsNext, FirstFlags, LastFlags, Any;
  }

  predicate SentIs(m: State, e: Event, x: (nat, nat))
  {
    MemReq(m).Some? && e.memReady && x == (MemReq(m).value.source, MemReq(m).value.word)
  }

  predicate DoneIs(m: State, e: Event, x: (nat, nat))
  {
    e.answer == Some(x) && MemRspReady(m, x.0)
  }

  lemma OutCount(mem: nat -> nat, m: State, e: Event, out: multiset<(nat, nat)>, x: (nat, nat))
    requires out[x] <= 1
    ensures OutNext(mem, m, e, out)[x] == (if DoneIs(m, e, x) then 0 else out[x]) + (if SentIs(m, e, x) then 1 else 0)
  {
  }

  /** A read that goes out is that of its source, and was not out before. */
  lemma SentAt(mem: nat -> nat, m: State, input: Input, e: Event, loc: seq<Stage>, cur: seq<Req>, x: (nat, nat))
    requires Sources(loc, cur) && PcReqOk(mem, m.pcReq, loc, cur) && LlReqOk(mem, m.llReq, loc, cur)
    requires input == InputOf(mem, e) && SentIs(m, e, x)
    ensures x.0 < 8
    ensures x.0 >= 4 ==>
      && PcOutFires(m, input) && loc[x.0 - 4].PcReq? && StageOk(loc[x.0 - 4])
      && x.1 == ReadAddr(mem, cur[x.0 - 4], loc[x.0 - 4].level)
    ensures x.0 < 4 ==> LlOutFires(m, input) && loc[x.0].LlReq? && x.1 == ReadAddr(mem, cur[x.0], 0)
  {
    hide ReadAddr;
  }

  lemma ReadGoesOut(mem: nat -> nat, m: State, input: Input, e: Event, loc: seq<Stage>, cur: seq<Req>, s: nat)
    requires Sources(loc, cur) && PcReqOk(mem, m.pcReq, loc, cur) && LlReqOk(mem, m.llReq, loc, cur) && s < 4
    requires input == InputOf(mem, e)
    ensures loc[s].PcReq? && PcOutFires(m, input) ==>
      StageOk(loc[s]) && SentIs(m, e, (4 + s, ReadAddr(mem, cur[s], loc[s].level)))
    ensures loc[s].LlReq? && LlOutFires(m, input) ==> SentIs(m, e, (s, ReadAddr(mem, cur[s], 0)))
  {
    hide ReadAddr;
  }

  lemma OutFacts(mem: nat -> nat, out: multiset<(nat, nat)>, loc: seq<Stage>, cur: seq<Req>, x: (nat, nat))
    requires Sources(loc, cur) && OutOk(mem, out, loc, cur)
    ensures out[x] <= 1 && (out[x] == 1 ==> OutAt(mem, x, loc, cur))
  {
    hide ReadAddr, OutAt;
  }

  lemma AnswerFires(mem: nat -> nat, m: State, e: Event, s: nat, a: nat)
    requires s < 4
    ensures DoneIs(m, e, (4 + s, a)) ==> PcAnswers(m, InputOf(mem, e), s)
    ensures DoneIs(m, e, (s, a)) ==> LlAnswers(m, InputOf(mem, e), s)
    ensures PcAnswers(m, InputOf(mem, e), s) && e.answer.value.1 == a ==> DoneIs(m, e, (4 + s, a))
    ensures LlAnswers(m, InputOf(mem, e), s) && e.answer.value.1 == a ==> DoneIs(m, e, (s, a))
  {
  }

  lemma OutstandingNext(mem: nat -> nat, m: State, e: Event, out: multiset<(nat, nat)>, loc: seq<Stage>, cur: seq<Req>,
                        loc': seq<Stage>, cur': seq<Req>)
    requires Moves(m, InputOf(mem, e), loc, cur, loc', cur') && Legal(e, out, loc) && OutOk(mem, out, loc, cur)
    requires PcReqOk(mem, m.pcReq, loc, cur) && LlReqOk(mem, m.llReq, loc, cur)
    ensures OutOk(mem, OutNext(mem, m, e, out), loc', cur')
  {
    hide OutOk, OutNext, SentIs, DoneIs, PcAnswers, LlAnswers, PcOutFires, LlOutFires, PcReqOk, LlReqOk, Legal,
         ReqLegal, InputOf, Advance, FirstFlags, LastFlags, EnqFires, FirstRead, FirstSent, LastRead, LastSent,
         FirstNext, LastNext, EntryAddr, Ppn, FirstOk, LastOk, VpnOf, Any, Pick, Chosen, ReadAddr, FirstReadFires,
         LastReadFires, LlFires, PtwRspFires;
    var input, out' := InputOf(mem, e), OutNext(mem, m, e, out);
    forall s: nat | s < 4 && loc'[s].PcOut? ensures (4 + s, ReadAddr(mem, cur'[s], loc'[s].level)) in out' {
      IntoPageCache(m, input, loc[s], s);
      OutEntry(mem, m, e, out, loc, cur, s);
    }
    forall s: nat | s < 4 && loc'[s].LlOut? ensures (s, ReadAddr(mem, cur'[s], 0)) in out' {
      IntoLastCache(m, input, loc[s], s);
      OutEntry(mem, m, e, out, loc, cur, s);
    }
    forall x | x in out' ensures out'[x] == 1 && OutAt(mem, x, loc', cur') {
      OutFacts(mem, out, loc, cur, x);
      OutCount(mem, m, e, out, x);
      if SentIs(m, e, x) { SentAt(mem, m, input, e, loc, cur, x); }
      if x.0 >= 4 {
        IntoPageCache(m, input, loc[x.0 - 4], x.0 - 4);
        if PcAnswers(m, input, x.0 - 4) { AwaitedAnswer(mem, m, e, out, loc, cur, x.0 - 4); }
      } else {
        IntoLastCache(m, input, loc[x.0], x.0);
        if LlAnswers(m, input, x.0) { AwaitedAnswer(mem, m, e, out, loc, cur, x.0); }
      }
    }
    OutIntro(mem, out', loc', cur');
  }

  lemma OutIntro(mem: nat -> nat, out: multiset<(nat, nat)>, loc: seq<Stage>, cur: seq<Req>)
    requires Sources(loc, cur)
    requires forall e :: e in out ==> out[e] == 1 && OutAt(mem, e, loc, cur)
    requires forall s: nat :: s < 4 && loc[s].PcOut? ==> (4 + s, ReadAddr(mem, cur[s], loc[s].level)) in out
    requires forall s: nat :: s < 4 && loc[s].LlOut? ==> (s, ReadAddr(mem, cur[s], 0)) in out
    ensures OutOk(mem, out, loc, cur)
  {
    hide ReadAddr, OutAt;
  }

  /** The read of a source that has gone out is out afterwards, unless it is answered. */
  lemma OutEntry(mem: nat -> nat, m: State, e: Event, out: multiset<(nat, nat)>, loc: seq<Stage>, cur: seq<Req>, s: nat)
    requires Sources(loc, cur) && OutOk(mem, out, loc, cur) && s < 4
    requires PcReqOk(mem, m.pcReq, loc, cur) && LlReqOk(mem, m.llReq, loc, cur)
    ensures loc[s].PcReq? && PcOutFires(m, InputOf(mem, e)) ==>
      StageOk(loc[s]) && (4 + s, ReadAddr(mem, cur[s], loc[s].level)) in OutNext(mem, m, e, out)
    ensures loc[s].PcOut? && !PcAnswers(m, InputOf(mem, e), s) ==>
      StageOk(loc[s]) && (4 + s, ReadAddr(mem, cur[s], loc[s].level)) in OutNext(mem, m, e, out)
    ensures loc[s].LlReq? && LlOutFires(m, InputOf(mem, e)) ==> (s, ReadAddr(mem, cur[s], 0)) in OutNext(mem, m, e, out)
    ensures loc[s].LlOut? && !LlAnswers(m, InputOf(mem, e), s) ==>
      (s, ReadAddr(mem, cur[s], 0)) in OutNext(mem, m, e, out)
  {
    hide OutNext, SentIs, DoneIs, PcAnswers, LlAnswers, PcReqOk, LlReqOk, PcOutFires, LlOutFires, InputOf, OutAt,
         ReadAddr;
    ReadGoesOut(mem, m, InputOf(mem, e), e, loc, cur, s);
    if loc[s].PcReq? || loc[s].PcOut? {
      var x := (4 + s, ReadAddr(mem, cur[s], loc[s].level));
      OutFacts(mem, out, loc, cur, x);
      OutCount(mem, m, e, out, x);
      AnswerFires(mem, m, e, s, x.1);
    } else {
      var x := (s, ReadAddr(mem, cur[s], 0));
      OutFacts(mem, out, loc, cur, x);
      OutCount(mem, m, e, out, x);
      AnswerFires(mem, m, e, s, x.1);
    }
  }

  lemma AwaitedAnswer(mem: nat -> nat, m: State, e: Event, out: multiset<(nat, nat)>, loc: seq<Stage>, cur: seq<Req>,
                      s: nat)
    requires Sources(loc, cur) && Legal(e, out, loc) && OutOk(mem, out, loc, cur) && s < 4
    ensures PcAnswers(m, InputOf(mem, e), s) ==>
      loc[s].PcOut? && StageOk(loc[s]) && DoneIs(m, e, (4 + s, ReadAddr(mem, cur[s], loc[s].level)))
    ensures LlAnswers(m, InputOf(mem, e), s) ==> loc[s].LlOut? && DoneIs(m, e, (s, ReadAddr(mem, cur[s], 0)))
  {
    hide OutOk, ReadAddr;
    if e.answer.Some? { AnswerAt(mem, e, out, loc, cur); }
  }
}
