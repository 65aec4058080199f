/** How long one request can take while others keep coming. */
module MmuLatency {
  import opened Arbiters
  import opened Mmu
  import opened MmuInvariant
  import opened MmuCycle
  import opened MmuWalkers
  import opened MmuRuns
  import opened MmuProgress
  import opened Options

  predicate IsOut(g: Stage)
  {
    g.PcOut? || g.LlOut?
  }

  /** How many more cycles others can hold up a request in its stage, memory aside. Every grant to
      another entry brings an entry nearer its turn, and a read that has been granted leaves the
      queue after one cycle, or two if the last-level cache goes first. */
  function Held(m: State, g: Stage): nat
    requires Shape(m) && StageOk(g)
  {
    match g
    case TlbQ => if m.ptwReq.Full? then 1 else 0
    case First(i, _) =>
      3 * Distance(i, m.grants.firstMem) + (if m.pcReq.Empty? then 0 else if m.llReq.Empty? then 1 else 2)
    case PcReq(_, _) => if m.llReq.Full? then 1 else 0
    case Last(i) => 2 * Distance(i, m.grants.lastMem) + (if m.llReq.Full? then 1 else 0)
    case _ => 0
  }

  /** The cycles that all stages after g can take, memory aside. */
  function Later(g: Stage): nat
    requires StageOk(g)
  {
    match g
    case Absent => 0
    case TlbQ => 45
    case PtwQ => 44
    case First(_, l) => 15 * l + 2
    case PcReq(_, l) => 15 * l
    case PcOut(_, l) => 15 * l
    case PcRsp(_, l) => 15 * l - 1
    case FirstDone(_) => 13
    case Last(_) => 5
    case LlReq(_) => 4
    case LlOut(_) => 4
    case LlRsp(_) => 3
    case LastDone(_) => 2
    case L2Q => 1
    case RspQ => 0
  }

  /** The reads that memory has still to answer, with the one in stage g. */
  function ReadsLeft(g: Stage): nat
    requires StageOk(g)
  {
    match g
    case TlbQ => 3
    case PtwQ => 3
    case First(_, l) => l + 1
    case PcReq(_, l) => l + 1
    case PcOut(_, l) => l + 1
    case PcRsp(_, l) => l
    case FirstDone(_) => 1
    case Last(_) => 1
    case LlReq(_) => 1
    case LlOut(_) => 1
    case _ => 0
  }

  /** A bound on the cycles until the response is taken, where memory takes up to latency cycles for
      each read, and the read that is out, if one is, has been out for age cycles. */
  function TimeLeft(m: State, g: Stage, latency: nat, age: nat): int
    requires Shape(m) && StageOk(g)
  {
    if g == Absent then 0
    else if IsOut(g) then Later(g) + ReadsLeft(g) * latency - age
    else Held(m, g) + 1 + Later(g) + ReadsLeft(g) * latency
  }

  lemma TimeLeftBound(m: State, g: Stage, latency: nat, age: nat)
    requires Shape(m) && StageOk(g)
    ensures TimeLeft(m, g, latency, age) <= 47 + 3 * latency
  {
    assert ReadsLeft(g) * latency <= 3 * latency;
  }

  /** The read that a stage waits for. */
  function AwaitedRead(mem: nat -> nat, g: Stage, r: Req, s: nat): (nat, nat)
    requires StageOk(g) && IsOut(g)
  {
    if g.PcOut? then (4 + s, ReadAddr(mem, r, g.level)) else (s, ReadAddr(mem, r, 0))
  }

  /** For how many cycles read x has been out in state n. */
  ghost function Age(configs: seq<Config>, n: nat, x: (nat, nat)): nat
    requires n < |configs|
  {
    if n == 0 || x !in configs[n - 1].out || x !in configs[n].out then 0 else Age(configs, n - 1, x) + 1
  }

  /** No read stays out for more than latency cycles. */
  ghost predicate TakenWithin(configs: seq<Config>, latency: nat)
  {
    forall n: nat, x :: n < |configs| && x in configs[n].out ==> Age(configs, n, x) < latency
  }

  /** In stages that others cannot hold up a request moves on at once. */
  lemma MovesAtOnce(mem: nat -> nat, c: Config, e: Event, loc: seq<Stage>, cur: seq<Req>, s: nat)
    requires InvAt(mem, c, loc, cur) && e.memReady && s < 4
    requires var g := loc[s];
      g == PtwQ || g.PcRsp? || g.FirstDone? || g.LlReq? || g.LlRsp? || g.LastDone? || g == L2Q || g == RspQ
    ensures Advance(c.m, InputOf(mem, e), loc[s], s) != loc[s]
  {
    hide ReadAddr, FirstFlags, LastFlags, FirstOk, LastOk, OutOk, TlbOk, PcReqOk, LlReqOk, PcRspOk, LlRspOk, RspOk,
         LogOk, Flow, Advance;
    var m, input := c.m, InputOf(mem, e);
    InQueue(mem, m, c.out, loc, cur, s);
    RequestsMove(mem, m, input, loc, cur);
    ResponsesMove(mem, m, input, loc, cur);
    ResponseMoves(m, input, loc, s);
    if loc[s] == PtwQ {
      Enqueues(mem, m, loc, cur);
      AtPtw(m, loc, cur, s);
      IntoFirst(m, input, loc[s], s);
    } else if loc[s].FirstDone? || loc[s].LastDone? {
      DoneMoves(mem, m, input, loc, cur, s);
    }
  }

  lemma AtPtw(m: State, loc: seq<Stage>, cur: seq<Req>, s: nat)
    requires Shape(m) && Sources(loc, cur) && TlbOk(m.ptwReq, loc, cur, PtwQ) && s < 4 && loc[s] == PtwQ
    ensures m.ptwReq.Full?
  {
  }

  /** Whoever is in front of the first walker gets in. */
  lemma Enqueues(mem: nat -> nat, m: State, loc: seq<Stage>, cur: seq<Req>)
    requires Shape(m) && Sources(loc, cur) && TlbOk(m.ptwReq, loc, cur, PtwQ) && FirstOk(mem, m.first, loc, cur)
    ensures m.ptwReq.Full? ==> EnqFires(m)
  {
    hide FirstFlags, FirstOk, Any;
    if m.ptwReq.Full? { FirstHasRoom(mem, m, loc, cur, m.ptwReq.item.source); }
  }

  /** How the queues that hold others up change. */
  lemma QueuesGiveWay(m: State, input: Input)
    requires Shape(m) && input.memReady
    ensures m.ptwReq.Full? && EnqFires(m) ==> Next(m, input).ptwReq.Empty?
    ensures m.llReq.Full? ==> Next(m, input).llReq.Empty?
    ensures m.pcReq.Full? && m.llReq.Full? ==> Next(m, input).pcReq.Full?
    ensures m.pcReq.Full? && m.llReq.Empty? ==> Next(m, input).pcReq.Empty?
  {
    hide FirstFlags, LastFlags, Any, FirstNext, LastNext, GrantsNext, EntryAddr, FirstRead, LastRead, LastSent;
  }

  /** Every arbiter remembers the entry that its handshake took, and otherwise the one before. */
  lemma GrantsMove(m: State, input: Input)
    requires Shape(m)
    ensures var g := Next(m, input).grants;
      && g.firstMem == (if FirstReadFires(m) then FirstRead(m) else m.grants.firstMem)
      && g.lastMem == (if LastReadFires(m) then LastRead(m) else m.grants.lastMem)
      && g.firstLl == (if LlFires(m) then FirstSent(m) else m.grants.firstLl)
      && g.lastRsp == if PtwRspFires(m) then LastSent(m) else m.grants.lastRsp
  {
    hide FirstFlags, LastFlags, Chosen, FirstNext, LastNext, EntryAddr, QueueNext;
  }

  /** A request that stays where it is can be held up for one cycle less. */
  lemma HeldShrinks(mem: nat -> nat, c: Config, e: Event, loc: seq<Stage>, cur: seq<Req>, s: nat)
    requires InvAt(mem, c, loc, cur) && e.memReady && s < 4 && loc[s] != Absent && StageOk(loc[s]) && !IsOut(loc[s])
    requires Advance(c.m, InputOf(mem, e), loc[s], s) == loc[s]
    ensures Held(Next(c.m, InputOf(mem, e)), loc[s]) < Held(c.m, loc[s])
  {
    hide ReadAddr, FirstFlags, LastFlags, FirstOk, LastOk, OutOk, TlbOk, PcReqOk, LlReqOk, PcRspOk, LlRspOk, RspOk,
         LogOk, Flow, Advance, Next, Distance;
    var m, input := c.m, InputOf(mem, e);
    QueuesGiveWay(m, input);
    match loc[s] {
      case TlbQ =>
        Enqueues(mem, m, loc, cur);
        AtTlb(m, loc, cur, s);
        IntoTlb(m, input, loc[s], s);
      case First(_, _) => FirstHeld(mem, m, input, loc, cur, s);
      case PcReq(_, _) =>
        InQueue(mem, m, c.out, loc, cur, s);
        RequestsMove(mem, m, input, loc, cur);
      case Last(_) => LastHeld(mem, m, input, loc, cur, s);
      case _ => MovesAtOnce(mem, c, e, loc, cur, s);
    }
  }

  lemma AtTlb(m: State, loc: seq<Stage>, cur: seq<Req>, s: nat)
    requires Shape(m) && Sources(loc, cur) && TlbOk(m.tlbReq, loc, cur, TlbQ) && s < 4 && loc[s] == TlbQ
    ensures m.tlbReq.Full?
  {
  }

  lemma FirstHeld(mem: nat -> nat, m: State, input: Input, loc: seq<Stage>, cur: seq<Req>, s: nat)
    requires Shape(m) && Sources(loc, cur) && FirstOk(mem, m.first, loc, cur) && input.memReady
    requires s < 4 && loc[s].First? && Advance(m, input, loc[s], s) == loc[s]
    ensures StageOk(loc[s]) && Held(Next(m, input), loc[s]) < Held(m, loc[s])
  {
    hide ReadAddr, FirstFlags, LastFlags, FirstOk, Advance, Next, Ppn, VpnOf, Chosen, Distance;
    var i := loc[s].i;
    FirstSlot(mem, m.first, loc, cur, s);
    WantFires(m, i);
    IntoFirst(m, input, loc[s], s);
    GrantsMove(m, input);
    QueuesGiveWay(m, input);
    if m.pcReq.Empty? {
      OtherGrantIsCloser(FirstFlags(m.first, MEM_REQ), m.grants.firstMem, i);
    }
  }

  lemma LastHeld(mem: nat -> nat, m: State, input: Input, loc: seq<Stage>, cur: seq<Req>, s: nat)
    requires Shape(m) && Sources(loc, cur) && LastOk(mem, m.last, loc, cur) && input.memReady
    requires s < 4 && loc[s].Last? && Advance(m, input, loc[s], s) == loc[s]
    ensures StageOk(loc[s]) && Held(Next(m, input), loc[s]) < Held(m, loc[s])
  {
    hide ReadAddr, FirstFlags, LastFlags, LastOk, Advance, Next, Ppn, VpnOf, Chosen, Distance;
    var i := loc[s].i;
    LastSlot(mem, m.last, loc, cur, s);
    WantFires(m, i);
    IntoLast(m, input, loc[s], s);
    GrantsMove(m, input);
    QueuesGiveWay(m, input);
    if m.llReq.Empty? {
      OtherGrantIsCloser(LastFlags(m.last, MEM_REQ), m.grants.lastMem, i);
    }
  }

  /** The next stage is paid for by what comes after this one. */
  lemma NextStage(m: State, g: Stage, g': Stage)
    requires Shape(m) && StageOk(g) && StageOk(g') && g != Absent && Follows(g, g')
    ensures ReadsLeft(g) == ReadsLeft(g') + if IsOut(g) then 1 else 0
    ensures Later(g) >= if g' == Absent then 0 else if IsOut(g') then Later(g') else Held(m, g') + 1 + Later(g')
  {
  }

  lemma MovePays(m: State, m': State, g: Stage, g': Stage, latency: nat, age: nat, age': nat)
    requires Shape(m) && Shape(m') && StageOk(g) && StageOk(g') && g != Absent && Follows(g, g')
    requires IsOut(g) ==> age < latency
    ensures TimeLeft(m', g', latency, age') < TimeLeft(m, g, latency, age)
  {
    hide Held, Later, ReadsLeft, Follows, IsOut;
    NextStage(m', g, g');
    if IsOut(g) { NotTwiceOut(g, g'); }
    var r := ReadsLeft(g');
    if IsOut(g) { assert (r + 1) * latency == r * latency + latency; }
    assert r * latency >= 0;
  }

  lemma NotTwiceOut(g: Stage, g': Stage)
    requires Follows(g, g') && IsOut(g)
    ensures !IsOut(g') && g' != Absent
  {
  }

  /** The read that a source waits for is out. */
  lemma AwaitedIsOut(mem: nat -> nat, c: Config, loc: seq<Stage>, cur: seq<Req>, s: nat)
    requires InvAt(mem, c, loc, cur) && s < 4 && StageOk(loc[s]) && IsOut(loc[s])
    ensures AwaitedRead(mem, loc[s], cur[s], s) in c.out
  {
    hide ReadAddr, FirstOk, LastOk, TlbOk, PcReqOk, LlReqOk, PcRspOk, LlRspOk, RspOk, OutAt, LogOk, Flow;
  }

  /** The age of the read that source s waits for in state n. */
  ghost function AgeOf(mems: seq<nat -> nat>, configs: seq<Config>, n: nat, g: Stage, r: Req, s: nat): nat
    requires n < |configs| == |mems| && StageOk(g)
  {
    if IsOut(g) then Age(configs, n, AwaitedRead(mems[n], g, r, s)) else 0
  }

  lemma TimeShrinks(mems: seq<nat -> nat>, configs: seq<Config>, events: seq<Event>, latency: nat, n: nat,
                    loc: seq<Stage>, cur: seq<Req>, s: nat)
    returns (loc': seq<Stage>, cur': seq<Req>)
    requires Steps(mems, configs, events) && n < |events| && TakenWithin(configs, latency) && events[n].memReady
    requires InvAt(mems[n], configs[n], loc, cur) && s < 4 && StageOk(loc[s]) && loc[s] != Absent
    ensures InvAt(mems[n + 1], configs[n + 1], loc', cur') && StageOk(loc'[s])
    ensures TimeLeft(configs[n + 1].m, loc'[s], latency, AgeOf(mems, configs, n + 1, loc'[s], cur'[s], s)) <
            TimeLeft(configs[n].m, loc[s], latency, AgeOf(mems, configs, n, loc[s], cur[s], s))
  {
    hide Places, Flow, LogOk, Advance, Steady, LogGrows, EnvOk, OutNext, LogsNext, Next, Held, Later, ReadsLeft, Age,
         ReadAddr;
    loc', cur' := NextInv(mems, configs, events, n, loc, cur);
    SourceStage(mems[n + 1], configs[n + 1], loc', cur', s);
    assert StepAt(mems, configs, events, n);
    AdvanceFollows(configs[n].m, InputOf(mems[n], events[n]), loc[s], s);
    if IsOut(loc[s]) { AwaitedIsOut(mems[n], configs[n], loc, cur, s); }
    if loc'[s] != loc[s] {
      MovePays(configs[n].m, configs[n + 1].m, loc[s], loc'[s], latency,
               AgeOf(mems, configs, n, loc[s], cur[s], s), AgeOf(mems, configs, n + 1, loc'[s], cur'[s], s));
    } else if IsOut(loc[s]) {
      AwaitedIsOut(mems[n + 1], configs[n + 1], loc', cur', s);
      SameAwaited(mems[n], mems[n + 1], configs[n + 1], loc', cur', s);
      OneOlder(configs, n, AwaitedRead(mems[n], loc[s], cur[s], s));
    } else {
      HeldShrinks(mems[n], configs[n], events[n], loc, cur, s);
    }
  }

  lemma OneOlder(configs: seq<Config>, n: nat, x: (nat, nat))
    requires n + 1 < |configs| && x in configs[n].out && x in configs[n + 1].out
    ensures Age(configs, n + 1, x) == Age(configs, n, x) + 1
  {
  }

  /** Memory does not move the read that a walk is waiting for. */
  lemma SameAwaited(mem: nat -> nat, mem': nat -> nat, c: Config, loc: seq<Stage>, cur: seq<Req>, s: nat)
    requires InvAt(mem', c, loc, cur) && Steady(mem, mem', c) && s < 4 && StageOk(loc[s]) && IsOut(loc[s])
    ensures AwaitedRead(mem', loc[s], cur[s], s) == AwaitedRead(mem, loc[s], cur[s], s)
  {
    hide Places, Flow, AllReads, WalkReads, WalkOf, ReadAddr, Leaf, SameWalk;
    SourceStage(mem', c, loc, cur, s);
    assert LogOk(mem', c.logs[s], loc[s], cur[s]);
    assert InFlight(c, s, |c.logs[s].answered|);
    SameWalkReads(mem, mem', cur[s]);
  }

  /** The time left counts down while the k-th request of source s is in flight. */
  lemma {:induction false} CountsDown(mems: seq<nat -> nat>, configs: seq<Config>, events: seq<Event>, latency: nat,
                                      a: nat, n: nat, s: nat, k: nat)
    returns (loc: seq<Stage>, cur: seq<Req>)
    requires Run(mems, configs, events) && a <= n <= |events| && TakenWithin(configs, latency) && s < 4
    requires forall i :: a <= i < n ==> events[i].memReady
    requires forall i :: a <= i <= n ==> InFlight(configs[i], s, k)
    ensures InvAt(mems[n], configs[n], loc, cur) && |loc| == |cur| == 4 && StageOk(loc[s]) && loc[s] != Absent
    ensures var t := TimeLeft(configs[n].m, loc[s], latency, AgeOf(mems, configs, n, loc[s], cur[s], s));
      t + (n - a) <= 47 + 3 * latency
    decreases n
  {
    hide Places, Flow, LogOk, TimeLeft, AgeOf, StepAt, Initial, TakenWithin;
    if n == a {
      RunInv(mems, configs, events, n);
      loc, cur :| InvAt(mems[n], configs[n], loc, cur);
      SourceStage(mems[n], configs[n], loc, cur, s);
      TimeLeftBound(configs[n].m, loc[s], latency, AgeOf(mems, configs, n, loc[s], cur[s], s));
    } else {
      var loc0, cur0 := CountsDown(mems, configs, events, latency, a, n - 1, s, k);
      loc, cur := TimeShrinks(mems, configs, events, latency, n - 1, loc0, cur0, s);
    }
    StageInFlight(mems[n], configs[n], loc, cur, s, k);
  }

  lemma StageInFlight(mem: nat -> nat, c: Config, loc: seq<Stage>, cur: seq<Req>, s: nat, k: nat)
    requires InvAt(mem, c, loc, cur) && InFlight(c, s, k)
    ensures Sources(loc, cur) && StageOk(loc[s]) && loc[s] != Absent
  {
    hide Flow, AllReads, WalkReads, WalkOf, Places;
    SourceStage(mem, c, loc, cur, s);
    assert LogOk(mem, c.logs[s], loc[s], cur[s]);
  }

  /** Whatever the other sources do, a request is answered within 47 cycles and the time that its
      three reads are out. */
  lemma AnsweredInTime(mems: seq<nat -> nat>, configs: seq<Config>, events: seq<Event>, latency: nat, a: nat, b: nat,
                       s: nat, k: nat)
    requires Run(mems, configs, events) && a <= b <= |events| && TakenWithin(configs, latency) && s < 4
    requires forall i :: a <= i < b ==> events[i].memReady
    requires forall i :: a <= i <= b ==> InFlight(configs[i], s, k)
    ensures b - a < 47 + 3 * latency
  {
    hide Places, Flow, LogOk, StepAt, Initial, Held, Later, ReadsLeft, Age, ReadAddr, InFlight;
    var loc, cur := CountsDown(mems, configs, events, latency, a, b, s, k);
    if IsOut(loc[s]) {
      AwaitedIsOut(mems[b], configs[b], loc, cur, s);
      ReadsOut(loc[s], latency);
    }
  }

  lemma ReadsOut(g: Stage, latency: nat)
    requires StageOk(g) && IsOut(g)
    ensures ReadsLeft(g) * latency >= latency
  {
  }

  /** Memory offers the answer to each read in one of the first latency cycles in which it is out. */
  ghost predicate Offers(configs: seq<Config>, events: seq<Event>, latency: nat)
    requires |configs| == |events| + 1
  {
    forall n: nat, x :: n < |events| && x in configs[n].out && Age(configs, n, x) + 1 == latency ==>
      Offered(events, n - Age(configs, n, x), n, x)
  }

  ghost predicate Offered(events: seq<Event>, from: int, to: nat, x: (nat, nat))
  {
    exists i: nat :: from <= i <= to && i < |events| && events[i].answer == Some(x)
  }

  /** It goes on offering an answer that the MMU has not taken. */
  ghost predicate Holds(configs: seq<Config>, events: seq<Event>)
    requires |configs| == |events| + 1
  {
    forall i: nat :: i + 1 < |events| && events[i].answer.Some? ==>
      MemRspReady(configs[i].m, events[i].answer.value.0) || events[i + 1].answer == events[i].answer
  }

  /** What is in a response queue leaves it in the next cycle. */
  lemma QueueDrains(mem: nat -> nat, c: Config, e: Event, loc: seq<Stage>, cur: seq<Req>, source: nat)
    requires InvAt(mem, c, loc, cur)
    ensures !MemRspReady(c.m, source) ==> MemRspReady(Next(c.m, InputOf(mem, e)), source)
  {
    hide ReadAddr, FirstFlags, LastFlags, FirstOk, LastOk, OutOk, TlbOk, PcReqOk, LlReqOk, RspOk, LogOk, Flow, Any,
         FirstNext, LastNext, GrantsNext, Ppn, VpnOf, PcReqItem, LlReqItem, RspItem, FirstReadFires, LastReadFires,
         EnqFires, LlFires, PtwRspFires;
    if c.m.pcRsp.Full? {
      FirstSlot(mem, c.m.first, loc, cur, c.m.pcRsp.item.source);
      WaitFires(c.m, loc[c.m.pcRsp.item.source].i);
    }
    if c.m.llRsp.Full? {
      LastSlot(mem, c.m.last, loc, cur, c.m.llRsp.item.source);
      WaitFires(c.m, loc[c.m.llRsp.item.source].i);
    }
  }

  /** An answer that is taken is to a read that is then no longer out. */
  lemma TakenIsGone(mem: nat -> nat, c: Config, e: Event, loc: seq<Stage>, cur: seq<Req>, x: (nat, nat))
    requires InvAt(mem, c, loc, cur) && EnvOk(c, e) && e.answer == Some(x) && MemRspReady(c.m, x.0)
    ensures x !in OutNext(mem, c.m, e, c.out)
  {
    hide ReadAddr, FirstOk, LastOk, OutOk, TlbOk, PcReqOk, PcRspOk, LlReqOk, LlRspOk, RspOk, LogOk, Flow, SentIs,
         OutNext;
    OutFacts(mem, c.out, loc, cur, x);
    OutCount(mem, c.m, e, c.out, x);
    if SentIs(c.m, e, x) { SentAt(mem, c.m, InputOf(mem, e), e, loc, cur, x); }
  }

  /** A read that has been out for some cycles was out in all of them. */
  lemma {:induction false} AgeBack(configs: seq<Config>, n: nat, x: (nat, nat), j: nat)
    requires n < |configs| && x in configs[n].out && n - Age(configs, n, x) <= j <= n
    ensures x in configs[j].out && Age(configs, j, x) == Age(configs, n, x) - (n - j)
  {
    if j < n { AgeBack(configs, n - 1, x, j); }
  }

  /** An offer that is held is taken at most one cycle late. */
  lemma OfferTaken(mems: seq<nat -> nat>, configs: seq<Config>, events: seq<Event>, i: nat, x: (nat, nat))
    requires Run(mems, configs, events) && Holds(configs, events) && i + 1 < |events| && events[i].answer == Some(x)
    ensures x !in configs[i + 1].out || x !in configs[i + 2].out
  {
    hide InvAt, Initial, OutNext, LogsNext, Next, MemRspReady, Steady, LogGrows, Moves, EnvOk;
    RunInv(mems, configs, events, i);
    RunInv(mems, configs, events, i + 1);
    assert StepAt(mems, configs, events, i) && StepAt(mems, configs, events, i + 1);
    var loc, cur :| InvAt(mems[i], configs[i], loc, cur);
    if MemRspReady(configs[i].m, x.0) {
      TakenIsGone(mems[i], configs[i], events[i], loc, cur, x);
    } else {
      QueueDrains(mems[i], configs[i], events[i], loc, cur, x.0);
      var loc', cur' :| InvAt(mems[i + 1], configs[i + 1], loc', cur');
      TakenIsGone(mems[i + 1], configs[i + 1], events[i + 1], loc', cur', x);
    }
  }

  /** The response queues of the MMU hold memory up by one cycle at most. */
  lemma OffersAreTaken(mems: seq<nat -> nat>, configs: seq<Config>, events: seq<Event>, latency: nat)
    requires Run(mems, configs, events) && latency > 0 && Offers(configs, events, latency) && Holds(configs, events)
    ensures TakenWithin(configs, latency + 1)
  {
    hide StepAt, Initial, Holds, Age;
    forall n: nat, x | n < |configs| && x in configs[n].out ensures Age(configs, n, x) < latency + 1 {
      var f := n - Age(configs, n, x);
      AgeBound(configs, n, x);
      if Age(configs, n, x) > latency {
        var c := f + latency - 1;
        AgeBack(configs, n, x, c);
        var i: nat :| f <= i <= c && events[i].answer == Some(x);
        AgeBack(configs, n, x, i + 1);
        AgeBack(configs, n, x, i + 2);
        OfferTaken(mems, configs, events, i, x);
      }
    }
  }

  lemma {:induction false} AgeBound(configs: seq<Config>, n: nat, x: (nat, nat))
    requires n < |configs|
    ensures Age(configs, n, x) <= n
  {
    if n > 0 { AgeBound(configs, n - 1, x); }
  }

  /** Whatever the other sources do, a request is answered within 50 cycles and three memory
      latencies, if memory is ready, and offers each answer in time and until it is taken. */
  lemma BoundedLatency(mems: seq<nat -> nat>, configs: seq<Config>, events: seq<Event>, latency: nat, a: nat, b: nat,
                       s: nat, k: nat)
    requires Run(mems, configs, events) && a <= b <= |events| && s < 4
    requires latency > 0 && Offers(configs, events, latency) && Holds(configs, events)
    requires forall i :: a <= i < b ==> events[i].memReady
    requires forall i :: a <= i <= b ==> InFlight(configs[i], s, k)
    ensures b - a < 50 + 3 * latency
  {
    hide StepAt, Initial, Offers, Holds, TakenWithin, InFlight;
    OffersAreTaken(mems, configs, events, latency);
    AnsweredInTime(mems, configs, events, latency + 1, a, b, s, k);
  }

  /** Without new requests the same request has been in flight all the time. */
  lemma {:induction false} SameInFlight(mems: seq<nat -> nat>, configs: seq<Config>, events: seq<Event>, a: nat, b: nat,
                                        s: nat, k: nat, i: nat)
    requires Run(mems, configs, events) && a <= i <= b <= |events| && InFlight(configs[b], s, k)
    requires forall j :: a <= j < b ==> events[j].req.None?
    ensures InFlight(configs[i], s, k)
    decreases b - i
  {
    hide Initial, Next, OutNext, EnvOk, Steady, LogsNext, LogOk;
    if i < b {
      SameInFlight(mems, configs, events, a, b, s, k, i + 1);
      assert StepAt(mems, configs, events, i);
      LogsAfter(mems[i], configs[i], events[i], s);
      var g, r := RunLogs(mems, configs, events, i, s);
      LogLengths(mems[i], configs[i].logs[s], g, r);
    }
  }

  lemma LogLengths(mem: nat -> nat, l: Logs, g: Stage, r: Req)
    requires StageOk(g) && LogOk(mem, l, g, r)
    ensures |l.answered| <= |l.accepted| <= |l.answered| + 1
  {
    hide AllReads, WalkReads, WalkOf;
  }

  /** Once no more requests come, such a memory has all of them answered in that time. */
  lemma AllAnsweredInTime(mems: seq<nat -> nat>, configs: seq<Config>, events: seq<Event>, latency: nat, a: nat,
                          b: nat, s: nat)
    requires Run(mems, configs, events) && a + 50 + 3 * latency <= b <= |events| && s < 4
    requires latency > 0 && Offers(configs, events, latency) && Holds(configs, events)
    requires forall i :: a <= i < b ==> events[i].memReady && events[i].req.None?
    ensures Logged(configs[b]) && |configs[b].logs[s].answered| == |configs[b].logs[s].accepted|
  {
    hide StepAt, Initial, Offers, Holds, LogOk;
    var g, r := RunLogs(mems, configs, events, b, s);
    LogLengths(mems[b], configs[b].logs[s], g, r);
    var k := |configs[b].logs[s].answered|;
    if k < |configs[b].logs[s].accepted| {
      forall i | a <= i <= b ensures InFlight(configs[i], s, k) {
        SameInFlight(mems, configs, events, a, b, s, k, i);
      }
      BoundedLatency(mems, configs, events, latency, a, b, s, k);
    }
  }

  /** A request that is presented while the first queue is empty is accepted, whatever its source. */
  lemma TakenWhenEmpty(mems: seq<nat -> nat>, configs: seq<Config>, events: seq<Event>, i: nat, r: Req)
    requires Run(mems, configs, events) && i < |events| && events[i].req == Some(r)
    ensures Logged(configs[i]) && Logged(configs[i + 1]) && r.source < 4
    ensures configs[i].m.tlbReq.Empty? ==>
      configs[i + 1].logs[r.source].accepted == configs[i].logs[r.source].accepted + [r]
  {
    hide Initial, Next, OutNext, Steady, WalkOf, MemReq;
    assert StepAt(mems, configs, events, i);
  }

  /** The two queues in front of the walkers empty themselves within two cycles. */
  lemma FirstQueueDrains(mems: seq<nat -> nat>, configs: seq<Config>, events: seq<Event>, i: nat)
    requires Run(mems, configs, events) && i + 2 <= |events|
    ensures configs[i].m.tlbReq.Empty? || configs[i + 1].m.tlbReq.Empty? || configs[i + 2].m.tlbReq.Empty?
  {
    hide InvAt, Initial, OutNext, LogsNext, Next, Steady, EnvOk;
    RunInv(mems, configs, events, i);
    RunInv(mems, configs, events, i + 1);
    assert StepAt(mems, configs, events, i) && StepAt(mems, configs, events, i + 1);
    var loc, cur :| InvAt(mems[i], configs[i], loc, cur);
    QueuesForward(mems[i], configs[i], InputOf(mems[i], events[i]), loc, cur);
    var loc', cur' :| InvAt(mems[i + 1], configs[i + 1], loc', cur');
    QueuesForward(mems[i + 1], configs[i + 1], InputOf(mems[i + 1], events[i + 1]), loc', cur');
  }

  lemma QueuesForward(mem: nat -> nat, c: Config, input: Input, loc: seq<Stage>, cur: seq<Req>)
    requires InvAt(mem, c, loc, cur)
    ensures c.m.tlbReq.Full? && c.m.ptwReq.Empty? ==> Next(c.m, input).tlbReq.Empty?
    ensures c.m.tlbReq.Full? && c.m.ptwReq.Full? ==> Next(c.m, input).ptwReq.Empty? && Next(c.m, input).tlbReq.Full?
  {
    hide FirstFlags, LastFlags, FirstOk, LastOk, OutOk, TlbOk, PcReqOk, LlReqOk, PcRspOk, LlRspOk, RspOk, LogOk, Flow,
         Any, FirstNext, LastNext, GrantsNext, PcReqItem, LlReqItem, RspItem, EnqFires;
    Enqueues(mem, c.m, loc, cur);
  }

  /** The client of source r.source presents r in each of n cycles from i on, until it is accepted. */
  ghost predicate Presents(configs: seq<Config>, events: seq<Event>, i: nat, n: nat, r: Req)
    requires i < |configs| == |events| + 1 && Logged(configs[i]) && r.source < 4
  {
    forall j: nat :: i <= j < i + n && j < |events| && NoneSince(configs, i, j, r.source) ==> events[j].req == Some(r)
  }

  /** From i to j no request of source s has been accepted. */
  ghost predicate NoneSince(configs: seq<Config>, i: nat, j: nat, s: nat)
    requires i < |configs| && j < |configs| && Logged(configs[i]) && s < 4
  {
    Logged(configs[j]) && configs[j].logs[s].accepted == configs[i].logs[s].accepted
  }

  /** A request that is presented until it is accepted is accepted within three cycles. */
  lemma AcceptedSoon(mems: seq<nat -> nat>, configs: seq<Config>, events: seq<Event>, i: nat, r: Req)
    returns (a: nat)
    requires Run(mems, configs, events) && i + 3 <= |events| && r.source < 4 && Logged(configs[i])
    requires Presents(configs, events, i, 3, r)
    ensures i < a <= i + 3 && Logged(configs[a])
    ensures configs[a].logs[r.source].accepted == configs[i].logs[r.source].accepted + [r]
    ensures |configs[a].logs[r.source].answered| <= |configs[i].logs[r.source].accepted|
  {
    hide Initial, StepAt;
    FirstQueueDrains(mems, configs, events, i);
    a := i;
    while !(configs[a].m.tlbReq.Empty?)
      invariant i <= a <= i + 2 && Logged(configs[a])
      invariant configs[a].logs[r.source].accepted == configs[i].logs[r.source].accepted
      invariant forall j: nat :: i <= j < a ==> configs[j].m.tlbReq.Full?
      decreases i + 2 - a
    {
      Refused(mems, configs, events, a, r);
      a := a + 1;
    }
    TakenWhenEmpty(mems, configs, events, a, r);
    AnswersAfter(mems, configs, events, a, r.source);
    a := a + 1;
  }

  /** A full queue refuses. */
  lemma Refused(mems: seq<nat -> nat>, configs: seq<Config>, events: seq<Event>, i: nat, r: Req)
    requires Run(mems, configs, events) && i < |events| && r.source < 4 && Logged(configs[i])
    requires configs[i].m.tlbReq.Full?
    ensures Logged(configs[i + 1]) && configs[i + 1].logs[r.source].accepted == configs[i].logs[r.source].accepted
  {
    hide Initial, Next, OutNext, Steady, WalkOf, MemReq, EnvOk;
    assert StepAt(mems, configs, events, i);
  }

  lemma AnswersAfter(mems: seq<nat -> nat>, configs: seq<Config>, events: seq<Event>, i: nat, s: nat)
    requires Run(mems, configs, events) && i < |events| && s < 4
    ensures Logged(configs[i]) && Logged(configs[i + 1])
    ensures |configs[i + 1].logs[s].answered| <= |configs[i].logs[s].accepted|
  {
    hide InvAt, Initial, StepAt, Moves;
    RunInv(mems, configs, events, i);
    RunInv(mems, configs, events, i + 1);
    var loc, cur :| InvAt(mems[i], configs[i], loc, cur);
    var loc', cur' := NextInv(mems, configs, events, i, loc, cur);
    assert LogGrows(configs[i].logs[s], configs[i + 1].logs[s]);
  }

  /** From the first cycle in which it is presented, a request of any source is answered within 53
      cycles and three memory latencies. */
  lemma OfferedToAnswered(mems: seq<nat -> nat>, configs: seq<Config>, events: seq<Event>, latency: nat, i: nat, r: Req)
    requires Run(mems, configs, events) && i + 53 + 3 * latency <= |events| && r.source < 4 && Logged(configs[i])
    requires Presents(configs, events, i, 3, r) && latency > 0 && Offers(configs, events, latency)
    requires Holds(configs, events) && forall j :: i <= j < |events| ==> events[j].memReady
    ensures var k, n := |configs[i].logs[r.source].accepted|, i + 53 + 3 * latency;
      Logged(configs[n]) && k < |configs[n].logs[r.source].answered| <= |configs[n].logs[r.source].accepted|
      && configs[n].logs[r.source].accepted[k] == r
  {
    hide StepAt, Initial, Offers, Holds, LogOk, Presents;
    var s, k, n := r.source, |configs[i].logs[r.source].accepted|, i + 53 + 3 * latency;
    var a := AcceptedSoon(mems, configs, events, i, r);
    RunGrows(mems, configs, events, a, n, s);
    var g, q := RunLogs(mems, configs, events, n, s);
    LogLengths(mems[n], configs[n].logs[s], g, q);
    if |configs[n].logs[s].answered| <= k {
      forall j | a <= j <= n ensures InFlight(configs[j], s, k) {
        RunGrows(mems, configs, events, a, j, s);
        RunGrows(mems, configs, events, j, n, s);
        var g', q' := RunLogs(mems, configs, events, j, s);
        LogLengths(mems[j], configs[j].logs[s], g', q');
      }
      BoundedLatency(mems, configs, events, latency, a, n, s, k);
    }
  }
}
