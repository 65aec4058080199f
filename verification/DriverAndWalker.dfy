/** The hardware walks while the driver works: driver calls never touch the words of a walk in flight. */
module DriverAndWalker {
  import opened Options
  import opened Sequences
  import opened Words
  import opened Sv39
  import opened Phys
  import opened PageTable
  import opened ForestChanges
  import opened Allocation
  import opened VirtualMemory
  import opened Pruning
  import opened TearDown
  import opened Tasks
  import opened WalkerAndTables
  import AR = AddressRanges
  import Runs
  import M = Mmu
  import I = MmuInvariant
  import C = MmuCycle
  import R = MmuRuns

  /** What a driver call keeps of the page tables of a task: its tables can be compared, and every
      page that was mapped still is, to the same place. */
  ghost predicate TablesKept(s: State, s': State, root: nat)
  {
    && Comparable(s.ph, s.k, s'.ph, s'.k, root)
    && forall q: nat :: q < Width(3) && Translate(s.ph, root, q) != 0 ==>
      Translate(s'.ph, root, q) == Translate(s.ph, root, q)
  }

  lemma KeptIntro(s: State, s': State, root: nat)
    requires PhysOk(s.ph) && Forest(s.ph, s.k) && IsRoot(s.k, root)
    requires PhysOk(s'.ph) && Forest(s'.ph, s'.k) && IsRoot(s'.k, root)
    requires KeepsTables(s.k, s'.k, root) || KeepsTables(s'.k, s.k, root)
    requires forall q: nat :: q < Width(3) && Translate(s.ph, root, q) != 0 ==>
      Translate(s'.ph, root, q) == Translate(s.ph, root, q)
    ensures TablesKept(s, s', root)
  {
    hide PhysOk, Forest, Translate, Width, KeepsTables;
  }

  lemma CreateKeepsTables(s: State, u: nat, s': State, root: nat)
    requires Inv(s) && Created(s, u, s') && Inv(s') && IsRoot(s.k, root)
    ensures TablesKept(s, s', root)
  {
    hide PhysOk, Forest, Rooted, TaskOk, Usable, Insert, Gap, Translate, Width, TablesKept;
    var page := Usable(s.ph, PAGE_SIZE);
    if page != 0 { InsertForest(s.ph, s.k, page, PAGE_SIZE, Table(page, 0, 0)); }
    KeptIntro(s, s', root);
  }

  lemma AllocKeepsTables(s: State, u: nat, size: nat, ty: AR.BufferType, s': State, va: nat, paddr: nat, root: nat)
    requires Inv(s) && AllocatedAt(s, u, size, ty, s', va, paddr) && Inv(s') && IsRoot(s.k, root)
    ensures TablesKept(s, s', root)
  {
    hide PhysOk, Forest, Rooted, TaskOk, Allocate, Allocated, AR.Place, AR.AlignedSize, Splice, Translate, Width,
         TablesKept, Vpn, RoundUp;
    var p, m :| Allocated(s.ph, s.k, s.roots[u], va, size, s'.k, p, m);
    AllocatedFacts(s.ph, s.k, s.roots[u], va, size, s'.k, p, m);
    KeptIntro(s, s', root);
  }

  lemma UploadKeepsTables(s: State, u: nat, va: nat, data: seq<byte>, s': State, n: nat, root: nat)
    requires Inv(s) && Uploaded(s, u, va, data, s', n) && Inv(s') && IsRoot(s.k, root)
    ensures TablesKept(s, s', root)
  {
    hide PhysOk, Forest, Rooted, TaskOk, PutBytes, Reaches, Translate, Width, TablesKept;
    Runs.RootHasTask(s, u);
    Runs.ReachesBound(s.ph, s.roots[u], va, |data|, n);
    PutBytesForest(s.ph, s.k, s.roots[u], va, data[..n]);
    KeptIntro(s, s', root);
  }

  lemma CleanKeepsTables(s: State, u: nat, s': State, root: nat)
    requires Inv(s) && Cleaned(s, u, s') && Inv(s') && IsRoot(s.k, root)
    ensures TablesKept(s, s', root)
  {
    hide PhysOk, Forest, Rooted, TaskOk, Translate, Width, TablesKept, Leafless, KeepsData;
    RootedPruned(s.ph, s.k, s'.ph, s'.k, s.roots[u]);
    KeptIntro(s, s', root);
  }

  lemma CloseKeepsTables(s: State, u: nat, s': State, root: nat)
    requires Inv(s) && Closed(s, u, s') && Inv(s') && IsRoot(s.k, root) && root != s.roots[u]
    ensures TablesKept(s, s', root)
  {
    hide PhysOk, Forest, Rooted, TaskOk, Translate, Width, TablesKept, Reached;
    RootedTornDown(s, u, s'.k);
    KeptIntro(s, s', root);
  }

  /** Every call but the closing of the task itself. */
  lemma StepKeepsTables(s: State, op: Op, s': State, t: nat)
    requires Inv(s) && Step(s, op, s') && HasTask(s, t) && op != Close(t)
    ensures Inv(s') && HasTask(s', t) && s'.roots[t] == s.roots[t] && TablesKept(s, s', s.roots[t])
  {
    hide Inv, PhysOk, AR.Safe, AR.Place, Splice, AR.AlignedSize, Allocate, Allocated, PutBytes, Reaches, Usable,
         Insert, Pruned, OthersKept, TornDown, Forest, TablesKept, Translate, Width;
    Runs.StepInv(s, op, s');
    Runs.InvKeys(s);
    Runs.InvKeys(s');
    Runs.RootHasTask(s, t);
    var root := s.roots[t];
    if s' == s {
      TablesKeptRefl(s, root);
    } else {
      match op
      case Create(u) => CreateKeepsTables(s, u, s', root);
      case Alloc(u, size, ty) =>
        var va, paddr :| AllocatedAt(s, u, size, ty, s', va, paddr);
        AllocKeepsTables(s, u, size, ty, s', va, paddr, root);
      case Upload(u, va, data) =>
        var n :| Uploaded(s, u, va, data, s', n);
        UploadKeepsTables(s, u, va, data, s', n, root);
      case Clean(u) => CleanKeepsTables(s, u, s', root);
      case Close(u) =>
        RootsApart(s, t, u);
        CloseKeepsTables(s, u, s', root);
    }
  }

  lemma TablesKeptRefl(s: State, root: nat)
    requires Inv(s) && IsRoot(s.k, root)
    ensures TablesKept(s, s, root)
  {
    hide PhysOk, Forest, Rooted, TaskOk, Translate, Width;
  }

  lemma RootsApart(s: State, t: nat, u: nat)
    requires Inv(s) && HasTask(s, t) && HasTask(s, u) && t != u
    ensures s.roots[t] != s.roots[u]
  {
    hide PhysOk, Forest, Rooted, TaskOk;
  }

  /** The request is for a mapped address of task t. */
  ghost predicate For(s: State, t: nat, r: M.Req)
  {
    && PhysOk(s.ph) && HasTask(s, t) && r.ptbr % M.PPNS == s.roots[t] / PAGE_SIZE
    && Convert(s.ph, s.roots[t], r.addr) != 0
  }

  /** A driver call changes no word that the walk of a mapped address reads, unless it closes the
      task, and the address stays mapped to the same place. */
  lemma StepKeepsWalk(s: State, op: Op, s': State, t: nat, r: M.Req)
    requires Inv(s) && Step(s, op, s') && op != Close(t) && For(s, t, r)
    ensures PhysOk(s'.ph) && R.SameWalk(WordsOf(s.ph), WordsOf(s'.ph), r) && For(s', t, r)
    ensures Convert(s'.ph, s'.roots[t], r.addr) == Convert(s.ph, s.roots[t], r.addr)
  {
    hide Inv, Step, PhysOk, Forest, Convert, Translate, Width, Vpn, KeepsTables, R.SameWalk, WordsOf;
    StepKeepsTables(s, op, s', t);
    ConvertIsWalk(s.ph, s.roots[t], r.addr);
    ConvertIsWalk(s'.ph, s.roots[t], r.addr);
    VpnBound(r.addr);
    SameWords(s.ph, s.k, s'.ph, s'.k, s.roots[t], r);
  }

  /** The driver and the MMU at work together: in every cycle there may be a driver call; requests are
      for mapped addresses of live tasks, and no task is closed while a request of it is in flight. */
  ghost predicate Together(states: seq<State>, ops: seq<Op>, mems: seq<nat -> nat>, configs: seq<R.Config>,
                           events: seq<I.Event>)
  {
    && |states| == |mems| == |configs| == |events| + 1 && |ops| == |events|
    && Inv(states[0]) && R.Initial(configs[0]) && (forall i :: 0 <= i < |states| ==> MemoryOf(states[i], mems[i]))
    && forall i :: 0 <= i < |events| ==> Cycles(states, ops, mems, configs, events, i)
  }

  /** The words that the walker reads are those of the driver's memory. */
  ghost predicate MemoryOf(s: State, mem: nat -> nat)
  {
    PhysOk(s.ph) && mem == WordsOf(s.ph)
  }

  ghost predicate Cycles(states: seq<State>, ops: seq<Op>, mems: seq<nat -> nat>, configs: seq<R.Config>,
                         events: seq<I.Event>, i: nat)
    requires |states| == |mems| == |configs| == |events| + 1 && |ops| == |events| && i < |events|
  {
    && R.Logged(configs[i]) && R.EnvOk(configs[i], events[i])
    && configs[i + 1] == R.Cycle(mems[i], configs[i], events[i])
    && (events[i].req.Some? ==> exists t :: For(states[i], t, events[i].req.value))
    && PhysOk(states[i].ph) && Step(states[i], ops[i], states[i + 1])
    && (ops[i].Close? ==> NoneFor(states[i], ops[i].task, configs[i + 1]))
  }

  /** No request in flight is for task t. */
  ghost predicate NoneFor(s: State, t: nat, c: R.Config)
  {
    forall src: nat, k: nat :: R.InFlight(c, src, k) ==> !For(s, t, c.logs[src].accepted[k])
  }

  /** Every request in flight is for a mapped address. */
  ghost predicate AllMapped(s: State, c: R.Config)
  {
    forall src: nat, k: nat :: R.InFlight(c, src, k) ==> exists t :: For(s, t, c.logs[src].accepted[k])
  }

  /** What is in flight after a cycle was in flight before, or has just been accepted. */
  lemma FlightAfter(mem: nat -> nat, c: R.Config, e: I.Event, src: nat, k: nat)
    requires R.Inv(mem, c) && R.Logged(c) && R.EnvOk(c, e) && R.InFlight(R.Cycle(mem, c, e), src, k)
    ensures var r := R.Cycle(mem, c, e).logs[src].accepted[k];
      (R.InFlight(c, src, k) && r == c.logs[src].accepted[k]) || e.req == Some(r)
  {
    hide R.Inv, M.Next, I.OutNext, R.LogsNext;
    OneInFlight(mem, c, src);
    R.LogsAfter(mem, c, e, src);
  }

  lemma OneInFlight(mem: nat -> nat, c: R.Config, src: nat)
    requires R.Inv(mem, c) && src < 4
    ensures R.Logged(c) && |c.logs[src].accepted| <= |c.logs[src].answered| + 1
  {
    hide I.Places, I.Flow, R.AllReads, R.WalkReads, R.WalkOf;
    var loc, cur :| R.InvAt(mem, c, loc, cur);
    R.SourceStage(mem, c, loc, cur, src);
    assert R.LogOk(mem, c.logs[src], loc[src], cur[src]);
  }

  /** One cycle of both. */
  lemma TogetherStep(states: seq<State>, ops: seq<Op>, mems: seq<nat -> nat>, configs: seq<R.Config>,
                     events: seq<I.Event>, i: nat)
    requires Together(states, ops, mems, configs, events) && i < |events|
    requires Inv(states[i]) && R.Inv(mems[i], configs[i]) && AllMapped(states[i], configs[i])
    ensures R.StepAt(mems, configs, events, i)
    ensures Inv(states[i + 1]) && R.Inv(mems[i + 1], configs[i + 1]) && AllMapped(states[i + 1], configs[i + 1])
  {
    hide Inv, R.Inv, Step, For, R.Cycle, R.EnvOk, R.SameWalk, PhysOk, R.Initial;
    assert Cycles(states, ops, mems, configs, events, i) && MemoryOf(states[i], mems[i]);
    assert MemoryOf(states[i + 1], mems[i + 1]);
    var s, s', c' := states[i], states[i + 1], configs[i + 1];
    Runs.StepInv(s, ops[i], s');
    forall src: nat, k: nat | R.InFlight(c', src, k)
      ensures R.SameWalk(mems[i], mems[i + 1], c'.logs[src].accepted[k])
      ensures exists t :: For(s', t, c'.logs[src].accepted[k])
    {
      var r := c'.logs[src].accepted[k];
      FlightAfter(mems[i], configs[i], events[i], src, k);
      var t :| For(s, t, r);
      StepKeepsWalk(s, ops[i], s', t, r);
    }
    MmuStep(mems[i], mems[i + 1], configs[i], events[i]);
  }

  lemma MmuStep(mem: nat -> nat, mem': nat -> nat, c: R.Config, e: I.Event)
    requires R.Inv(mem, c) && R.Logged(c) && R.EnvOk(c, e) && R.Steady(mem, mem', R.Cycle(mem, c, e))
    ensures R.Inv(mem', R.Cycle(mem, c, e))
  {
    hide R.InvAt, R.Cycle, R.EnvOk, R.Steady, R.LogGrows, C.Moves;
    var loc, cur :| R.InvAt(mem, c, loc, cur);
    var loc', cur' := R.StepInv(mem, c, e, loc, cur);
    R.InvFrame(mem, mem', R.Cycle(mem, c, e), loc', cur');
  }

  lemma {:induction false} TogetherInv(states: seq<State>, ops: seq<Op>, mems: seq<nat -> nat>,
                                       configs: seq<R.Config>, events: seq<I.Event>, n: nat)
    requires Together(states, ops, mems, configs, events) && n <= |events|
    ensures Inv(states[n]) && R.Inv(mems[n], configs[n]) && AllMapped(states[n], configs[n])
    ensures forall i :: 0 <= i < n ==> R.StepAt(mems, configs, events, i)
  {
    hide Inv, R.InvAt, R.StepAt, Cycles, For, MemoryOf;
    if n == 0 {
      var loc, cur := R.InitialInv(mems[0], configs[0]);
    } else {
      TogetherInv(states, ops, mems, configs, events, n - 1);
      TogetherStep(states, ops, mems, configs, events, n - 1);
    }
  }

  /** While the driver works the rule on tables is kept: both together are a run of the MMU. */
  lemma DriverKeepsRule(states: seq<State>, ops: seq<Op>, mems: seq<nat -> nat>, configs: seq<R.Config>,
                        events: seq<I.Event>)
    requires Together(states, ops, mems, configs, events)
    ensures R.Run(mems, configs, events)
  {
    hide Inv, R.Inv, R.StepAt, Cycles, For, MemoryOf, R.Initial, AllMapped;
    TogetherInv(states, ops, mems, configs, events, |events|);
  }

  /** Whatever the driver does meanwhile, the k-th response to source s gives the place that its address
      is mapped to, in the tables of any cycle in which the request is in flight, with R, W, X and V set. */
  lemma WalksWhileDriverWorks(states: seq<State>, ops: seq<Op>, mems: seq<nat -> nat>, configs: seq<R.Config>,
                              events: seq<I.Event>, n: nat, s: nat, k: nat, j: nat)
    returns (t: nat)
    requires Together(states, ops, mems, configs, events) && n <= |events| && s < 4 && R.Logged(configs[n])
    requires j <= n && R.InFlight(configs[j], s, k)
    requires k < |configs[n].logs[s].answered| <= |configs[n].logs[s].accepted|
    ensures var req, rsp := configs[n].logs[s].accepted[k], configs[n].logs[s].answered[k];
      && For(states[j], t, req) && PTE2PA(rsp) != 0 && rsp % 1024 == 15
      && Convert(states[j].ph, states[j].roots[t], req.addr) == PTE2PA(rsp) + req.addr % PAGE_SIZE
  {
    hide Inv, R.Inv, R.StepAt, Cycles, R.Initial, Convert, PTE2PA, PhysOk, WordsOf;
    DriverKeepsRule(states, ops, mems, configs, events);
    TogetherInv(states, ops, mems, configs, events, j);
    R.RunGrows(mems, configs, events, j, n, s);
    var req := configs[n].logs[s].accepted[k];
    assert req == configs[j].logs[s].accepted[k];
    t :| For(states[j], t, req);
    forall i | 0 <= i < |states| ensures PhysOk(states[i].ph) && mems[i] == WordsOf(states[i].ph) {
      assert MemoryOf(states[i], mems[i]);
    }
    TaskRootBounds(states[j], t);
    var phs := seq(|states|, i requires 0 <= i < |states| => states[i].ph);
    RunTranslates(phs, mems, configs, events, n, s, k, j, states[j].roots[t]);
    R.Delivered(mems, configs, events, n, s);
    assert R.AnswerIs(mems, configs, n, s, k);
    TaskLeafFlags(states[j], t, req);
  }

  lemma TaskLeafFlags(s: State, t: nat, r: M.Req)
    requires Inv(s) && For(s, t, r)
    ensures I.Leaf(WordsOf(s.ph), r) % 1024 == 15
  {
    hide PhysOk, Forest, Rooted, TaskOk, Convert, WordsOf, I.Leaf;
    Runs.RootHasTask(s, t);
    LeafFlags(s.ph, s.k, s.roots[t], r);
  }

  lemma TaskRootBounds(s: State, t: nat)
    requires Inv(s) && HasTask(s, t)
    ensures s.roots[t] % PAGE_SIZE == 0 && s.roots[t] < MAX_PHY_RANGE
  {
    hide PhysOk, Forest, Rooted, TaskOk;
    Runs.RootHasTask(s, t);
    RootBounds(s.ph, s.k, s.roots[t]);
  }
}
