/** Whole runs of driver calls: what a task uploads stays, and tearing a task down gives back
    exactly what it took. */
module Runs {
  import opened Options
  import opened Sequences
  import opened Words
  import opened Sv39
  import opened Phys
  import opened PageTable
  import opened ForestChanges
  import opened Allocation
  import opened Capacity
  import opened VirtualMemory
  import opened Pruning
  import opened TearDown
  import opened Tasks
  import AR = AddressRanges

  ghost predicate Run(states: seq<State>, ops: seq<Op>)
  {
    && |states| == |ops| + 1 && Inv(states[0])
    && forall i :: 0 <= i < |ops| ==> PhysOk(states[i].ph) && Step(states[i], ops[i], states[i + 1])
  }

  /** An upload of task t over address x. */
  ghost predicate Overwrites(op: Op, t: nat, x: nat)
  {
    op.Upload? && op.task == t && op.va <= x < op.va + |op.data|
  }

  lemma StepInv(s: State, op: Op, s': State)
    requires Inv(s) && Step(s, op, s')
    ensures Inv(s')
    ensures forall t :: t in s.roots && op != Close(t) ==> t in s'.roots && s'.roots[t] == s.roots[t]
  {
    hide Inv, PhysOk, AR.Safe, AR.Place, Splice, AR.AlignedSize, Allocate, Allocated, PutBytes, Reaches, Insert,
         Usable, Pruned, OthersKept, TornDown, Forest;
    InvKeys(s);
    if s' != s {
      match op
      case Create(t) =>
        CreateInv(s, t, s');
      case Alloc(t, size, ty) =>
        var va, paddr :| AllocatedAt(s, t, size, ty, s', va, paddr);
        AllocInv(s, t, size, ty, s', va, paddr);
      case Upload(t, va, data) =>
        var n :| Uploaded(s, t, va, data, s', n);
        UploadInv(s, t, va, data, s', n);
      case Clean(t) => CleanInv(s, t, s');
      case Close(t) => CloseInv(s, t, s');
    }
  }

  /** A mapped byte stays mapped while its task is there, and keeps its value unless the task
      uploads over it. */
  lemma StepSees(s: State, op: Op, s': State, t: nat, x: nat)
    requires Inv(s) && Step(s, op, s') && HasTask(s, t) && op != Close(t) && x < VA_END && Sees(s, t, x).Some?
    ensures Inv(s') && HasTask(s', t) && s'.roots[t] == s.roots[t] && Sees(s', t, x).Some?
    ensures !Overwrites(op, t, x) ==> Sees(s', t, x) == Sees(s, t, x)
  {
    hide Inv, PhysOk, AR.Safe, AR.Place, Splice, AR.AlignedSize, Allocate, Allocated, PutBytes, Reaches, Insert,
         Usable, Sees, Pruned, OthersKept, TornDown, Forest;
    StepInv(s, op, s');
    InvKeys(s);
    InvKeys(s');
    if s' != s {
      match op
      case Create(u) =>
        CreateInv(s, u, s');
      case Alloc(u, size, ty) =>
        var va, paddr :| AllocatedAt(s, u, size, ty, s', va, paddr);
        AllocInv(s, u, size, ty, s', va, paddr);
      case Upload(u, va, data) =>
        var n :| Uploaded(s, u, va, data, s', n);
        ReachesBound(s.ph, s.roots[u], va, |data|, n);
        UploadInv(s, u, va, data, s', n);
      case Clean(u) => CleanInv(s, u, s');
      case Close(u) => CloseInv(s, u, s');
    }
  }

  lemma InvKeys(s: State)
    requires Inv(s)
    ensures PhysOk(s.ph) && forall t :: t in s.roots <==> t in s.ranges
  {
    hide PhysOk, TaskOk, Forest, Rooted;
  }

  lemma ReachesBound(ph: Phys, root: nat, va: nat, size: nat, n: nat)
    requires PhysOk(ph) && Reaches(ph, root, va, size, n)
    ensures n <= size
  {
    hide PhysOk, Convert;
  }

  lemma {:induction false} RunInv(states: seq<State>, ops: seq<Op>, n: nat)
    requires Run(states, ops) && n <= |ops|
    ensures Inv(states[n])
  {
    hide Inv, Step, PhysOk;
    if n > 0 {
      RunInv(states, ops, n - 1);
      StepInv(states[n - 1], ops[n - 1], states[n]);
    }
  }

  /** The same over runs: from state i to state n. */
  lemma {:induction false} RunSees(states: seq<State>, ops: seq<Op>, i: nat, n: nat, t: nat, x: nat)
    requires Run(states, ops) && i <= n <= |ops| && Inv(states[i]) && HasTask(states[i], t) && x < VA_END
    requires Sees(states[i], t, x).Some? && forall j :: i <= j < n ==> ops[j] != Close(t)
    ensures Inv(states[n]) && HasTask(states[n], t)
    ensures states[n].roots[t] == states[i].roots[t] && Sees(states[n], t, x).Some?
    ensures (forall j :: i <= j < n ==> !Overwrites(ops[j], t, x)) ==> Sees(states[n], t, x) == Sees(states[i], t, x)
    decreases n - i
  {
    hide Inv, Step, PhysOk, Sees, Overwrites;
    if i < n {
      RunSees(states, ops, i, n - 1, t, x);
      StepSees(states[n - 1], ops[n - 1], states[n], t, x);
    }
  }

  lemma SeesIsView(s: State, t: nat, va: nat, n: nat)
    requires Inv(s) && HasTask(s, t) && forall x: nat :: va <= x < va + n ==> Sees(s, t, x).Some?
    ensures Reaches(s.ph, s.roots[t], va, n, n)
  {
    hide PhysOk, Forest, Convert;
    forall x: nat | va <= x < va + n ensures Convert(s.ph, s.roots[t], x) != 0 {
      assert Sees(s, t, x).Some?;
    }
  }

  /** End to end: what a task has uploaded in full, it downloads again after any later calls, by
      any tasks, that neither upload over it nor close the task. */
  lemma DownloadAfterUpload(states: seq<State>, ops: seq<Op>, t: nat, va: nat, data: seq<byte>)
    requires Run(states, ops) && ops != [] && ops[0] == Upload(t, va, data) && va + |data| <= VA_END
    requires PhysOk(states[0].ph) && Uploaded(states[0], t, va, data, states[1], |data|)
    requires forall j, x :: 0 < j < |ops| && va <= x < va + |data| ==> !Overwrites(ops[j], t, x)
    requires forall j :: 0 < j < |ops| ==> ops[j] != Close(t)
    ensures Mapped(states[|ops|], t, va, |data|, |data|) && Shows(states[|ops|], t, va, data)
  {
    hide Inv, PhysOk, PutBytes, Reaches, Overwrites, Step, Sees;
    var s1, s := states[1], states[|ops|];
    RunInv(states, ops, 0);
    RunInv(states, ops, 1);
    RunInv(states, ops, |ops|);
    UploadInv(states[0], t, va, data, s1, |data|);
    InvKeys(s1);
    InvKeys(s);
    RunRoots(states, ops, 1, |ops|, t);
    forall x: nat | va <= x < va + |data| ensures Sees(s, t, x) == Some(data[x - va]) {
      assert Sees(s1, t, x) == Some(data[x - va]);
      RunSees(states, ops, 1, |ops|, t, x);
    }
    SeesIsView(s, t, va, |data|);
  }

  lemma {:induction false} RunRoots(states: seq<State>, ops: seq<Op>, i: nat, n: nat, t: nat)
    requires Run(states, ops) && i <= n <= |ops| && HasTask(states[i], t)
    requires forall j :: i <= j < n ==> ops[j] != Close(t)
    ensures HasTask(states[n], t) && states[n].roots[t] == states[i].roots[t]
    decreases n - i
  {
    hide Inv, Step, PhysOk;
    RunInv(states, ops, n);
    InvKeys(states[n]);
    if i < n {
      RunRoots(states, ops, i, n - 1, t);
      RunInv(states, ops, n - 1);
      StepInv(states[n - 1], ops[n - 1], states[n]);
    }
  }

  /** A buffer that was allocated stays usable while its task is there: every later upload or download
      inside it reaches the end. */
  lemma BufferStaysMapped(states: seq<State>, ops: seq<Op>, t: nat, size: nat, ty: AR.BufferType, vaddr: nat,
                          paddr: nat, va: nat, n: nat)
    requires Run(states, ops) && ops != [] && ops[0] == Alloc(t, size, ty) && PhysOk(states[0].ph)
    requires AllocatedAt(states[0], t, size, ty, states[1], vaddr, paddr) && paddr != 0
    requires AR.Safe(states[0].ranges[t], AR.AlignedSize(size), ty)
    requires vaddr <= va && va + n <= vaddr + RoundUp(size)
    requires forall j :: 0 < j < |ops| ==> ops[j] != Close(t)
    ensures Mapped(states[|ops|], t, va, n, n)
  {
    hide Inv, PhysOk, Allocate, Allocated, Reaches, AR.Safe, AR.Place, Splice, AR.AlignedSize, Step, Sees, RoundUp;
    var s0, s1, s := states[0], states[1], states[|ops|];
    RunInv(states, ops, 0);
    RunInv(states, ops, |ops|);
    AllocInv(s0, t, size, ty, s1, vaddr, paddr);
    InvKeys(s1);
    InvKeys(s);
    RunRoots(states, ops, 1, |ops|, t);
    forall x: nat | va <= x < va + n ensures Sees(s, t, x).Some? {
      assert Sees(s1, t, x) == Some(0);
      RunSees(states, ops, 1, |ops|, t, x);
    }
    SeesIsView(s, t, va, n);
  }

  /** Everything that task t holds can be found from its page table. */
  ghost predicate AllReached(s: State, t: nat)
    requires PhysOk(s.ph)
  {
    HasTask(s, t) && forall b :: b in s.k && s.k[b].root == s.roots[t] ==> TaskBlock(s.ph, s.k, s.roots[t], b)
  }

  /** The call is an allocation for t that takes a block and maps no page of it. */
  ghost predicate Loses(s: State, op: Op, s': State, t: nat)
    requires PhysOk(s.ph)
  {
    op.Alloc? && op.task == t && HasTask(s, t)
    && exists vaddr, paddr ::
      AllocatedAt(s, t, op.size, op.ty, s', vaddr, paddr) && Strands(s.ph, s.roots[t], vaddr, op.size)
  }

  lemma ReachedStays(ph: Phys, ph': Phys, k: map<nat, Kind>, root: nat, b: nat)
    requires PhysOk(ph) && PhysOk(ph') && Reached(ph, root, b)
    requires forall q: nat :: q < Width(3) && Translate(ph, root, q) != 0 ==>
      Translate(ph', root, q) == Translate(ph, root, q)
    requires b in ph.ext ==> b in ph'.ext && ph'.ext[b] == ph.ext[b]
    ensures Reached(ph', root, b)
  {
    hide PhysOk, Translate, Width;
    var x: nat :| x < Width(3) && Translate(ph, root, x) != 0 && InBlock(ph, b, Translate(ph, root, x), 1);
    assert InBlock(ph', b, Translate(ph', root, x), 1);
  }

  /** The block of an allocation can be found from the page table exactly if a page of it was mapped. */
  lemma NewBlockReached(ph: Phys, k: map<nat, Kind>, root: nat, va: nat, size: nat, k': map<nat, Kind>, p: nat, m: nat)
    requires PhysOk(ph) && Forest(ph, k) && IsRoot(k, root) && size > 0 && Allocated(ph, k, root, va, size, k', p, m)
    requires p != 0 && va % PAGE_SIZE == 0 && va + RoundUp(size) <= VA_END && Convert(ph, root, va) == 0
    ensures PhysOk(Allocate(ph, root, va, size).0)
    ensures Reached(Allocate(ph, root, va, size).0, root, p) <==> m > 0
  {
    hide PhysOk, Forest, Translate, Width, Usable, Allocate, KeepsData, Convert, Gap, Vpn, PagesDone, Insert;
    var ph' := Allocate(ph, root, va, size).0;
    if m > 0 {
      ConvertInPage(ph, root, va);
      VpnBound(va);
      PageCount(RoundUp(size));
      assert Translate(ph', root, Vpn(va)) == p;
      assert InBlock(ph', p, p, 1);
    } else if Reached(ph', root, p) {
      var x: nat :| x < Width(3) && Translate(ph', root, x) != 0 && InBlock(ph', p, Translate(ph', root, x), 1);
      OldTargetOutside(ph, k, root, x, p, RoundUp(size));
    }
  }

  lemma AllocReached(s: State, t: nat, size: nat, ty: AR.BufferType, s': State, va: nat, paddr: nat, u: nat)
    requires Inv(s) && AllocatedAt(s, t, size, ty, s', va, paddr) && AR.Safe(s.ranges[t], AR.AlignedSize(size), ty)
    requires AllReached(s, u) && (t == u ==> !Strands(s.ph, s.roots[t], va, size)) && Inv(s')
    ensures AllReached(s', u)
  {
    hide PhysOk, Forest, Rooted, TaskBlock, Allocate, Allocated, AR.Place, AR.Safe, AR.AlignedSize, Splice,
         RoundUp, Covered, AR.WellPlaced, Sees, Strands;
    var root := s.roots[t];
    assert TaskOk(s, t) && TaskOk(s, u);
    AllocInv(s, t, size, ty, s', va, paddr);
    var p, m :| Allocated(s.ph, s.k, root, va, size, s'.k, p, m);
    AllocatedKinds(s.ph, s.k, root, va, size, s'.k, p, m);
    AllocatedFacts(s.ph, s.k, root, va, size, s'.k, p, m);
    if t == u && p != 0 {
      FirstPageFree(s, t, size, ty, s', va, paddr);
      StrandsWithoutPages(s.ph, s.k, root, va, size, s'.k, p, m);
      NewBlockReached(s.ph, s.k, root, va, size, s'.k, p, m);
    }
    forall b | b in s'.k && s'.k[b].root == s.roots[u] ensures TaskBlock(s'.ph, s'.k, s.roots[u], b) {
      if b in s.k {
        TaskBlockGrows(s, s', root, va, size, p, m, s.roots[u], b);
      } else {
        NewTaskBlock(s'.ph, s'.k, s.roots[u], b);
      }
    }
  }

  lemma NewTaskBlock(ph: Phys, k: map<nat, Kind>, root: nat, b: nat)
    requires PhysOk(ph) && b in k && k[b].root == root && (k[b].Table? || Reached(ph, root, b))
    ensures TaskBlock(ph, k, root, b)
  {
    hide PhysOk, Reached;
  }

  lemma AllocatedKinds(ph: Phys, k: map<nat, Kind>, root: nat, va: nat, size: nat, k': map<nat, Kind>, p: nat, m: nat)
    requires PhysOk(ph) && size > 0 && Allocated(ph, k, root, va, size, k', p, m)
    ensures forall b :: b in k' && b !in k ==> k'[b].root == root && (k'[b].Table? || (b == p && p != 0))
    ensures p != 0 ==> p !in k && p in k' && k'[p] == Data(root, va)
  {
    hide PhysOk, Forest, KeepsData, Allocate, Usable, MapsRange, Gap, RoundUp, PagesDone, Insert;
  }

  lemma FirstPageFree(s: State, t: nat, size: nat, ty: AR.BufferType, s': State, va: nat, paddr: nat)
    requires Inv(s) && AllocatedAt(s, t, size, ty, s', va, paddr) && AR.Safe(s.ranges[t], AR.AlignedSize(size), ty)
    ensures Convert(s.ph, s.roots[t], va) == 0
  {
    hide PhysOk, Forest, Rooted, Allocate, Allocated, AR.Place, AR.Safe, AR.AlignedSize, Splice, Covered,
         AR.WellPlaced, Convert;
    assert TaskOk(s, t);
    var place := AR.Place(s.ranges[t], AR.AlignedSize(size), ty);
    PlaceFits(s.ranges[t], size, ty, place.at, va);
    Unmapped(s.ph, s.roots[t], s.ranges[t], place.at, va, size, va);
  }

  lemma TaskBlockGrows(s: State, s': State, root: nat, va: nat, size: nat, p: nat, m: nat, r: nat, b: nat)
    requires PhysOk(s.ph) && size > 0 && Allocated(s.ph, s.k, root, va, size, s'.k, p, m)
    requires s'.ph == Allocate(s.ph, root, va, size).0 && IsRoot(s.k, r) && TaskBlock(s.ph, s.k, r, b)
    ensures PhysOk(s'.ph) && TaskBlock(s'.ph, s'.k, r, b)
  {
    hide PhysOk, Forest, KeepsData, Allocate, Usable, Gap, RoundUp, Translate, Width, Reached, Vpn;
    if Reached(s.ph, r, b) {
      ReachedStays(s.ph, s'.ph, s.k, r, b);
    }
  }

  lemma StepReached(s: State, op: Op, s': State, t: nat)
    requires Inv(s) && Step(s, op, s') && AllReached(s, t) && !Loses(s, op, s', t) && op != Close(t)
    ensures Inv(s') && AllReached(s', t)
  {
    hide Inv, PhysOk, AR.Safe, AR.Place, Splice, AR.AlignedSize, Allocate, Allocated, PutBytes, Reaches,
         AllReached, Insert, Usable, Pruned, OthersKept, TornDown, Forest, Strands;
    InvKeys(s);
    StepInv(s, op, s');
    InvKeys(s');
    if s' != s {
      match op
      case Create(u) =>
        CreateReached(s, u, s', t);
      case Alloc(u, size, ty) =>
        var va, paddr :| AllocatedAt(s, u, size, ty, s', va, paddr);
        AllocReached(s, u, size, ty, s', va, paddr, t);
      case Upload(u, va, data) =>
        var n :| Uploaded(s, u, va, data, s', n);
        UploadReached(s, u, va, data, s', n, t);
      case Clean(u) => CleanReached(s, u, s', t);
      case Close(u) => CloseReached(s, u, s', t);
    }
  }

  /** A block of a task is still found when neither its translations nor its bytes have changed. */
  lemma BlockStays(ph: Phys, k: map<nat, Kind>, ph': Phys, k': map<nat, Kind>, r: nat, b: nat)
    requires PhysOk(ph) && PhysOk(ph') && b in k' && b in k && k'[b] == k[b] && TaskBlock(ph, k, r, b)
    requires forall q: nat :: q < Width(3) ==> Translate(ph', r, q) == Translate(ph, r, q)
    requires k[b].Data? ==> forall a: nat :: InBlock(ph, b, a, 1) ==> InBlock(ph', b, a, 1)
    ensures TaskBlock(ph', k', r, b)
  {
    hide PhysOk, Translate, Width, InBlock;
    if k[b].Data? {
      var x: nat :| x < Width(3) && Translate(ph, r, x) != 0 && InBlock(ph, b, Translate(ph, r, x), 1);
      assert InBlock(ph', b, Translate(ph', r, x), 1);
    }
  }

  lemma CleanReached(s: State, u: nat, s': State, t: nat)
    requires Inv(s) && Cleaned(s, u, s') && AllReached(s, t) && Inv(s')
    ensures AllReached(s', t)
  {
    hide PhysOk, Forest, Rooted, TaskOk, TaskBlock, Leafless, Translate, Width, InBlock;
    RootHasTask(s, t);
    forall b | b in s'.k && s'.k[b].root == s.roots[t] ensures TaskBlock(s'.ph, s'.k, s.roots[t], b) {
      BlockStays(s.ph, s.k, s'.ph, s'.k, s.roots[t], b);
    }
  }

  lemma CloseReached(s: State, u: nat, s': State, t: nat)
    requires Inv(s) && Closed(s, u, s') && AllReached(s, t) && Inv(s') && u != t
    ensures AllReached(s', t)
  {
    hide PhysOk, Forest, Rooted, TaskOk, TaskBlock, Translate, Width, InBlock;
    RootHasTask(s, t);
    forall b | b in s'.k && s'.k[b].root == s.roots[t] ensures TaskBlock(s'.ph, s'.k, s.roots[t], b) {
      BlockStays(s.ph, s.k, s'.ph, s'.k, s.roots[t], b);
    }
  }

  lemma CreateReached(s: State, u: nat, s': State, t: nat)
    requires Inv(s) && Created(s, u, s') && AllReached(s, t) && Inv(s')
    ensures AllReached(s', t)
  {
    hide PhysOk, Forest, Rooted, TaskOk, Usable, Gap, TaskBlock, Insert;
    var root := Usable(s.ph, PAGE_SIZE);
    if root != 0 {
      RootHasTask(s, t);
      InsertForest(s.ph, s.k, root, PAGE_SIZE, Table(root, 0, 0));
      forall b | b in s'.k && s'.k[b].root == s.roots[t] ensures TaskBlock(s'.ph, s'.k, s.roots[t], b) {
        TaskBlockKept(s.ph, s.k, s'.ph, s'.k, s.roots[t], b);
      }
    }
  }

  lemma RootHasTask(s: State, t: nat)
    requires Inv(s) && HasTask(s, t)
    ensures IsRoot(s.k, s.roots[t])
  {
    hide PhysOk, Forest, Rooted, Covered, AR.WellPlaced;
  }

  lemma TaskBlockKept(ph: Phys, k: map<nat, Kind>, ph': Phys, k': map<nat, Kind>, r: nat, b: nat)
    requires PhysOk(ph) && PhysOk(ph') && SameTranslations(ph, ph', k) && Grows(ph, k, ph', k') && IsRoot(k, r)
    requires TaskBlock(ph, k, r, b)
    ensures TaskBlock(ph', k', r, b)
  {
  }

  lemma UploadReached(s: State, u: nat, va: nat, data: seq<byte>, s': State, n: nat, t: nat)
    requires Inv(s) && Uploaded(s, u, va, data, s', n) && AllReached(s, t) && Inv(s')
    ensures AllReached(s', t)
  {
    hide PhysOk, Forest, Rooted, TaskOk, TaskBlock, PutBytes, SameTranslations, Reaches;
    RootHasTask(s, t);
    RootHasTask(s, u);
    ReachesBound(s.ph, s.roots[u], va, |data|, n);
    PutBytesForest(s.ph, s.k, s.roots[u], va, data[..n]);
    forall b | b in s'.k && s'.k[b].root == s.roots[t] ensures TaskBlock(s'.ph, s'.k, s.roots[t], b) {
      TaskBlockKept(s.ph, s.k, s'.ph, s'.k, s.roots[t], b);
    }
  }

  /** A new task holds its root table and nothing else. */
  lemma CreatedReached(s: State, t: nat, s': State)
    requires Inv(s) && Created(s, t, s') && HasTask(s', t)
    ensures Inv(s') && PhysOk(s'.ph) && AllReached(s', t) && IsRoot(s'.k, s'.roots[t])
    ensures forall b :: b in s'.k <==> b in s.k || b == s'.roots[t]
    ensures forall b :: b in s.k ==> s'.k[b] == s.k[b] && s.k[b].root != s'.roots[t]
  {
    hide PhysOk, Forest, TaskOk, Usable, Gap, TaskBlock, Insert, Sees;
    CreateInv(s, t, s');
    var root := Usable(s.ph, PAGE_SIZE);
    InsertForest(s.ph, s.k, root, PAGE_SIZE, Table(root, 0, 0));
    forall b | b in s.k ensures s.k[b].root != root {
      assert IsRoot(s.k, s.k[b].root) || s.k[b].root == 0;
    }
    NewTaskBlock(s'.ph, s'.k, root, root);
  }

  lemma {:induction false} RunReached(states: seq<State>, ops: seq<Op>, i: nat, n: nat, t: nat)
    requires Run(states, ops) && i <= n <= |ops| && PhysOk(states[i].ph) && AllReached(states[i], t)
    requires forall j :: i <= j < n ==> !Loses(states[j], ops[j], states[j + 1], t) && ops[j] != Close(t)
    ensures Inv(states[n]) && AllReached(states[n], t) && states[n].roots[t] == states[i].roots[t]
    decreases n - i
  {
    hide Inv, Step, PhysOk, AllReached, Loses;
    RunInv(states, ops, n);
    InvKeys(states[n]);
    if i < n {
      RunReached(states, ops, i, n - 1, t);
      StepReached(states[n - 1], ops[n - 1], states[n], t);
      ReachedTask(states[n - 1], t);
      StepInv(states[n - 1], ops[n - 1], states[n]);
    }
  }

  lemma ReachedTask(s: State, t: nat)
    requires PhysOk(s.ph) && AllReached(s, t)
    ensures HasTask(s, t)
  {
    hide PhysOk, TaskBlock;
  }

  /** A data block of a task that no page of it maps. */
  ghost predicate LostAt(s: State, t: nat, b: nat)
    requires PhysOk(s.ph)
  {
    HasTask(s, t) && b in s.k && s.k[b].Data? && s.k[b].root == s.roots[t] && !Reached(s.ph, s.roots[t], b)
  }

  /** Pages that are mapped as before, or into another block, do not find a block that was lost. */
  lemma UnreachedStays(ph: Phys, k: map<nat, Kind>, ph': Phys, root: nat, b: nat, p: nat)
    requires PhysOk(ph) && PhysOk(ph') && Forest(ph, k) && IsRoot(k, root) && b in k && !Reached(ph, root, b) && p != b
    requires forall q: nat :: q < Width(3) && Translate(ph', root, q) != 0 ==>
      Translate(ph', root, q) == Translate(ph, root, q) || InBlock(ph', p, Translate(ph', root, q), 1)
    requires forall c: nat, a: nat :: c in k && k[c].Data? && k[c].root == root && InBlock(ph, c, a, 1) ==>
      InBlock(ph', c, a, 1)
    ensures !Reached(ph', root, b)
  {
    hide PhysOk, Forest, Translate, Width;
    if Reached(ph', root, b) {
      var x: nat :| x < Width(3) && Translate(ph', root, x) != 0 && InBlock(ph', b, Translate(ph', root, x), 1);
      var a := Translate(ph', root, x);
      if InBlock(ph', p, a, 1) {
        BlocksDisjoint(ph', p, b, a);
      } else {
        TranslateFindsData(ph, k, root, x);
        var c: nat :| LeafInto(ph, k, root, x, a, c);
        assert InBlock(ph, c, a, 1);
        if c != b { BlocksDisjoint(ph', c, b, a); }
      }
    }
  }

  lemma AllocLost(s: State, u: nat, size: nat, ty: AR.BufferType, s': State, va: nat, paddr: nat, t: nat, b: nat)
    requires Inv(s) && AllocatedAt(s, u, size, ty, s', va, paddr) && LostAt(s, t, b) && Inv(s')
    ensures LostAt(s', t, b)
  {
    hide PhysOk, Forest, Rooted, TaskOk, Allocate, Allocated, AR.Place, AR.AlignedSize, Splice, RoundUp, Translate,
         Width, Reached, MapsRange, InBlock;
    RootHasTask(s, t);
    var root := s.roots[u];
    var p, m :| Allocated(s.ph, s.k, root, va, size, s'.k, p, m);
    AllocatedKinds(s.ph, s.k, root, va, size, s'.k, p, m);
    AllocatedFacts(s.ph, s.k, root, va, size, s'.k, p, m);
    AllocatedPages(s.ph, s.k, root, va, size, s'.k, p, m, s.roots[t]);
    UnreachedStays(s.ph, s.k, s'.ph, s.roots[t], b, if p == 0 then b + 1 else p);
  }

  /** Where an allocation changes a translation, it leads into the new block. */
  lemma AllocatedPages(ph: Phys, k: map<nat, Kind>, root: nat, va: nat, size: nat, k': map<nat, Kind>, p: nat, m: nat,
                       r: nat)
    requires PhysOk(ph) && size > 0 && Allocated(ph, k, root, va, size, k', p, m) && IsRoot(k, r)
    ensures var ph' := Allocate(ph, root, va, size).0;
      && PhysOk(ph')
      && (forall q: nat :: q < Width(3) && Translate(ph', r, q) != 0 ==>
           Translate(ph', r, q) == Translate(ph, r, q) || (p != 0 && InBlock(ph', p, Translate(ph', r, q), 1)))
      && forall c: nat, a: nat :: InBlock(ph, c, a, 1) ==> InBlock(ph', c, a, 1)
  {
    hide PhysOk, Forest, KeepsData, Allocate, Usable, Gap, Translate, Width, Vpn, PagesDone, Insert;
    PageCount(RoundUp(size));
  }

  /** What a task has lost stays lost. */
  lemma StepLost(s: State, op: Op, s': State, t: nat, b: nat)
    requires Inv(s) && Step(s, op, s') && op != Close(t) && PhysOk(s.ph) && LostAt(s, t, b)
    ensures PhysOk(s'.ph) && LostAt(s', t, b)
  {
    hide Inv, PhysOk, AR.Safe, AR.Place, Splice, AR.AlignedSize, Allocate, Allocated, PutBytes, Reaches, Insert, Usable,
         Pruned, OthersKept, TornDown, Forest, LostAt;
    InvKeys(s);
    StepInv(s, op, s');
    InvKeys(s');
    if s' != s {
      match op
      case Create(u) => CreateLost(s, u, s', t, b);
      case Alloc(u, size, ty) =>
        var va, paddr :| AllocatedAt(s, u, size, ty, s', va, paddr);
        AllocLost(s, u, size, ty, s', va, paddr, t, b);
      case Upload(u, va, data) =>
        var n :| Uploaded(s, u, va, data, s', n);
        UploadLost(s, u, va, data, s', n, t, b);
      case Clean(u) => CleanLost(s, u, s', t, b);
      case Close(u) => CloseLost(s, u, s', t, b);
    }
  }

  lemma CreateLost(s: State, u: nat, s': State, t: nat, b: nat)
    requires Inv(s) && Created(s, u, s') && LostAt(s, t, b) && Inv(s')
    ensures LostAt(s', t, b)
  {
    hide PhysOk, Forest, Rooted, TaskOk, Usable, Gap, Insert, Reached, Translate, Width;
    var root := Usable(s.ph, PAGE_SIZE);
    RootHasTask(s, t);
    if root != 0 { InsertForest(s.ph, s.k, root, PAGE_SIZE, Table(root, 0, 0)); }
    UnreachedStays(s.ph, s.k, s'.ph, s.roots[t], b, b + 1);
  }

  lemma UploadLost(s: State, u: nat, va: nat, data: seq<byte>, s': State, n: nat, t: nat, b: nat)
    requires Inv(s) && Uploaded(s, u, va, data, s', n) && LostAt(s, t, b) && Inv(s')
    ensures LostAt(s', t, b)
  {
    hide PhysOk, Forest, Rooted, TaskOk, PutBytes, Reaches, Reached, Translate, Width;
    RootHasTask(s, t);
    RootHasTask(s, u);
    ReachesBound(s.ph, s.roots[u], va, |data|, n);
    PutBytesForest(s.ph, s.k, s.roots[u], va, data[..n]);
    UnreachedStays(s.ph, s.k, s'.ph, s.roots[t], b, b + 1);
  }

  lemma CleanLost(s: State, u: nat, s': State, t: nat, b: nat)
    requires Inv(s) && Cleaned(s, u, s') && LostAt(s, t, b) && Inv(s')
    ensures LostAt(s', t, b)
  {
    hide PhysOk, Forest, Rooted, TaskOk, Leafless, Reached, Translate, Width, InBlock;
    RootHasTask(s, t);
    UnreachedStays(s.ph, s.k, s'.ph, s.roots[t], b, b + 1);
  }

  lemma CloseLost(s: State, u: nat, s': State, t: nat, b: nat)
    requires Inv(s) && Closed(s, u, s') && LostAt(s, t, b) && Inv(s') && u != t
    ensures LostAt(s', t, b)
  {
    hide PhysOk, Forest, Rooted, TaskOk, Reached, Translate, Width, InBlock;
    RootHasTask(s, t);
    UnreachedStays(s.ph, s.k, s'.ph, s.roots[t], b, b + 1);
  }

  lemma {:induction false} RunLost(states: seq<State>, ops: seq<Op>, i: nat, n: nat, t: nat, b: nat)
    requires Run(states, ops) && i <= n <= |ops| && PhysOk(states[i].ph) && LostAt(states[i], t, b)
    requires forall j :: i <= j < n ==> ops[j] != Close(t)
    ensures PhysOk(states[n].ph) && LostAt(states[n], t, b)
    decreases n - i
  {
    hide Inv, Step, PhysOk, LostAt;
    if i < n {
      RunLost(states, ops, i, n - 1, t, b);
      RunInv(states, ops, n - 1);
      StepLost(states[n - 1], ops[n - 1], states[n], t, b);
    }
  }

  /** A call that loses its block does so for good. */
  lemma LosingStep(s: State, op: Op, s': State, t: nat) returns (b: nat)
    requires Inv(s) && Step(s, op, s') && PhysOk(s.ph) && Loses(s, op, s', t)
    ensures PhysOk(s'.ph) && LostAt(s', t, b)
  {
    hide PhysOk, Forest, Rooted, Allocate, Allocated, AR.Place, AR.Safe, AR.AlignedSize, Splice, RoundUp, Covered,
         AR.WellPlaced, Strands, Reached;
    var va, paddr :| AllocatedAt(s, t, op.size, op.ty, s', va, paddr) && Strands(s.ph, s.roots[t], va, op.size);
    LosingCall(s, op, s', t, va, paddr);
    var root := s.roots[t];
    assert TaskOk(s, t);
    var place := AR.Place(s.ranges[t], AR.AlignedSize(op.size), op.ty);
    PlaceFits(s.ranges[t], op.size, op.ty, place.at, va);
    FirstPageFree(s, t, op.size, op.ty, s', va, paddr);
    var p, m :| Allocated(s.ph, s.k, root, va, op.size, s'.k, p, m);
    StrandsWithoutPages(s.ph, s.k, root, va, op.size, s'.k, p, m);
    NewBlockReached(s.ph, s.k, root, va, op.size, s'.k, p, m);
    AllocatedKinds(s.ph, s.k, root, va, op.size, s'.k, p, m);
    b := p;
  }

  lemma LosingCall(s: State, op: Op, s': State, t: nat, va: nat, paddr: nat)
    requires PhysOk(s.ph) && Step(s, op, s') && op.Alloc? && op.task == t
    requires AllocatedAt(s, t, op.size, op.ty, s', va, paddr)
    ensures AR.Safe(s.ranges[t], AR.AlignedSize(op.size), op.ty)
  {
    hide PhysOk, AR.Place, AR.Safe, AR.AlignedSize, Allocate, Allocated;
    assert s'.ranges[t] != s.ranges[t];
  }

  /** Conservation: after create_device_mem and any later calls, clean_pt and clean_task of other tasks
      included, clean_task removes every block of the task and no other, exactly if none of the calls
      was an allocation for the task that mapped no page of its block. */
  lemma Conservation(states: seq<State>, ops: seq<Op>, t: nat, k': map<nat, Kind>)
    requires Run(states, ops) && ops != [] && ops[0] == Create(t) && PhysOk(states[0].ph)
    requires Created(states[0], t, states[1]) && HasTask(states[1], t)
    requires forall j :: 0 < j < |ops| ==> ops[j] != Close(t)
    ensures PhysOk(states[|ops|].ph) && HasTask(states[|ops|], t)
    ensures var s := states[|ops|];
      TornDown(s, t, k') ==>
        ((forall b :: b in k' <==> b in s.k && s.k[b].root != s.roots[t])
         <==> forall j :: 0 < j < |ops| ==> !Loses(states[j], ops[j], states[j + 1], t))
  {
    hide Inv, Step, PhysOk, Loses, Created;
    var s := states[|ops|];
    RunInv(states, ops, 0);
    CreatedReached(states[0], t, states[1]);
    RunRoots(states, ops, 1, |ops|, t);
    RunInv(states, ops, |ops|);
    InvKeys(s);
    if TornDown(s, t, k') {
      if forall j :: 0 < j < |ops| ==> !Loses(states[j], ops[j], states[j + 1], t) {
        RunReached(states, ops, 1, |ops|, t);
        forall b ensures b in k' <==> b in s.k && s.k[b].root != s.roots[t] {
          if b in s.k && s.k[b].root != s.roots[t] { NotTaskBlock(s, s.roots[t], b); }
        }
      } else {
        var j :| 0 < j < |ops| && Loses(states[j], ops[j], states[j + 1], t);
        RunInv(states, ops, j);
        var b := LosingStep(states[j], ops[j], states[j + 1], t);
        RunLost(states, ops, j + 1, |ops|, t, b);
        assert b in k' && s.k[b].root == s.roots[t];
      }
    }
  }

  lemma NotTaskBlock(s: State, root: nat, b: nat)
    requires PhysOk(s.ph) && b in s.k && s.k[b].root != root
    ensures !TaskBlock(s.ph, s.k, root, b)
  {
    hide PhysOk, Reached;
  }

  /** A call by task t adds and removes blocks of its own only, and keeps its root. */
  lemma StepOwn(s: State, op: Op, s': State, t: nat)
    requires Inv(s) && Step(s, op, s') && HasTask(s, t) && op.task == t && op != Close(t)
    ensures PhysOk(s'.ph)
    ensures forall b :: b in s.k && (s.k[b].root != s.roots[t] || b == s.roots[t]) ==> b in s'.k
    ensures forall b :: b in s.k && b in s'.k ==> s'.k[b] == s.k[b]
    ensures forall b :: b in s'.k && b !in s.k ==> s'.k[b].root == s.roots[t]
  {
    hide Inv, PhysOk, AR.Safe, AR.Place, Splice, AR.AlignedSize, Allocate, Allocated, PutBytes, Reaches, Usable,
         Insert, Forest, SameTranslations, KeepsData, Leafless;
    StepInv(s, op, s');
    InvKeys(s);
    InvKeys(s');
    RootHasTask(s, t);
    if s' != s && op.Alloc? {
      var va, paddr :| AllocatedAt(s, t, op.size, op.ty, s', va, paddr);
      var p, m :| Allocated(s.ph, s.k, s.roots[t], va, op.size, s'.k, p, m);
      AllocatedKinds(s.ph, s.k, s.roots[t], va, op.size, s'.k, p, m);
      AllocatedFacts(s.ph, s.k, s.roots[t], va, op.size, s'.k, p, m);
    }
  }

  lemma {:induction false} RunOwn(states: seq<State>, ops: seq<Op>, n: nat, t: nat)
    requires Run(states, ops) && 1 <= n <= |ops| && HasTask(states[1], t)
    requires forall j :: 0 < j < |ops| ==> ops[j].task == t && ops[j] != Close(t)
    requires forall b :: b in states[1].k ==> states[1].k[b].root != states[1].roots[t] || b == states[1].roots[t]
    ensures Inv(states[n]) && HasTask(states[n], t) && states[n].roots[t] == states[1].roots[t]
    ensures forall b :: b in states[1].k ==> b in states[n].k && states[n].k[b] == states[1].k[b]
    ensures forall b :: b in states[n].k && b !in states[1].k ==> states[n].k[b].root == states[1].roots[t]
  {
    hide Inv, Step, PhysOk;
    RunInv(states, ops, n);
    RunRoots(states, ops, 1, n, t);
    if n > 1 {
      RunOwn(states, ops, n - 1, t);
      StepOwn(states[n - 1], ops[n - 1], states[n], t);
    }
  }

  /** A task that works alone and is torn down leaves the blocks that were there before it, exactly if
      none of its allocations has lost a block. */
  lemma NothingLeft(states: seq<State>, ops: seq<Op>, t: nat, k': map<nat, Kind>)
    requires Run(states, ops) && ops != [] && ops[0] == Create(t) && PhysOk(states[0].ph)
    requires Created(states[0], t, states[1]) && HasTask(states[1], t)
    requires forall j :: 0 < j < |ops| ==> ops[j].task == t && ops[j] != Close(t)
    requires PhysOk(states[|ops|].ph) && t in states[|ops|].roots && TornDown(states[|ops|], t, k')
    ensures k' == states[0].k <==> forall j :: 0 < j < |ops| ==> !Loses(states[j], ops[j], states[j + 1], t)
  {
    hide Inv, Step, PhysOk, Loses, Created, TaskBlock;
    var s := states[|ops|];
    RunInv(states, ops, 0);
    CreatedReached(states[0], t, states[1]);
    RunOwn(states, ops, |ops|, t);
    Conservation(states, ops, t, k');
    forall b ensures b in states[0].k <==> b in s.k && s.k[b].root != s.roots[t] {}
    if forall b :: b in k' <==> b in s.k && s.k[b].root != s.roots[t] {
      assert forall b :: b in k' <==> b in states[0].k;
    }
  }

  /** Two pages of memory: one becomes the root table, the other the block of a buffer, and the tables
      that would map it find none. */
  lemma LosingRun() returns (states: seq<State>, ops: seq<Op>)
    ensures Run(states, ops) && |ops| == 2 && ops[0] == Create(0) && ops[1].Alloc? && ops[1].task == 0
    ensures PhysOk(states[0].ph) && Created(states[0], 0, states[1]) && HasTask(states[1], 0)
    ensures PhysOk(states[1].ph) && Loses(states[1], ops[1], states[2], 0)
  {
    hide Inv, PhysOk, Forest, Usable, Insert, Allocate, Allocated, Strands, Gap, AR.WellPlaced;
    var s0, s1 := TwoPages();
    var va, size := AR.RW_DATA_BASE, 64;
    RootHasTask(s1, 0);
    SmallBuffer();
    var k', p, m := AllocateForest(s1.ph, s1.k, s1.roots[0], va, size);
    var s2 := State(Allocate(s1.ph, s1.roots[0], va, size).0, k', s1.roots,
                    s1.ranges[0 := Splice([], 0, AR.Range(va, AR.AlignedSize(size)))]);
    assert AllocatedAt(s1, 0, size, AR.ReadWrite, s2, va, Allocate(s1.ph, s1.roots[0], va, size).1);
    states, ops := [s0, s1, s2], [Create(0), Alloc(0, size, AR.ReadWrite)];
    LastPageStrands(s1, va, size);
  }

  lemma SmallBuffer()
    ensures RoundUp(64) == PAGE_SIZE && AR.AlignedSize(64) == 64 && AR.RW_DATA_BASE % PAGE_SIZE == 0
    ensures AR.RW_DATA_BASE + RoundUp(64) <= VA_END
    ensures AR.Place([], 64, AR.ReadWrite) == AR.Placed(0, AR.RW_DATA_BASE) && AR.Safe([], 64, AR.ReadWrite)
  {
  }

  /** create_device_mem with two free pages. */
  lemma TwoPages() returns (s0: State, s1: State)
    ensures Inv(s0) && Inv(s1) && PhysOk(s0.ph) && PhysOk(s1.ph) && Created(s0, 0, s1) && HasTask(s1, 0)
    ensures s1.ranges[0] == [] && s1.roots[0] == LOW_END
    ensures s1.ph == Insert(s0.ph, LOW_END, PAGE_SIZE) && s0.ph == Unbacked(LOW_END + 2 * PAGE_SIZE)
    ensures Forest(s1.ph, s1.k) && Barren(s1.ph, LOW_END)
  {
    hide Inv, Sees, Usable, Insert, Gap;
    var ph := Unbacked(LOW_END + 2 * PAGE_SIZE);
    s0 := State(ph, map[], map[], map[]);
    EmptyMemory(ph);
    InitialInv(s0);
    InsertForest(ph, map[], LOW_END, PAGE_SIZE, Table(LOW_END, 0, 0));
    s1 := State(Insert(ph, LOW_END, PAGE_SIZE), map[LOW_END := Table(LOW_END, 0, 0)], map[0 := LOW_END], map[0 := []]);
    CreateInv(s0, 0, s1);
  }

  lemma EmptyMemory(ph: Phys)
    requires ph == Unbacked(LOW_END + 2 * PAGE_SIZE)
    ensures PhysOk(ph) && Forest(ph, map[]) && Gap(ph, LOW_END, PAGE_SIZE) && Usable(ph, PAGE_SIZE) == LOW_END
  {
    UsableIsLowestGap(ph, PAGE_SIZE, LOW_END);
  }

  lemma LastPageStrands(s: State, va: nat, size: nat)
    requires PhysOk(s.ph) && HasTask(s, 0) && s.roots[0] == LOW_END && size == 64
    requires s.ph == Insert(Unbacked(LOW_END + 2 * PAGE_SIZE), LOW_END, PAGE_SIZE)
    requires Barren(s.ph, LOW_END)
    ensures Strands(s.ph, s.roots[0], va, size)
  {
    hide PhysOk, Usable, Width, Barren;
    SmallBuffer();
    var last := LOW_END + PAGE_SIZE;
    FreeOfTwo(s.ph);
    UsableIsLowestGap(s.ph, PAGE_SIZE, last);
    MissingOnPage(s.ph, LOW_END, Vpn(va));
    EmptyTable(s.ph, LOW_END, Vpn(va) / 512 / 512);
  }

  lemma FreeOfTwo(ph: Phys)
    requires ph == Insert(Unbacked(LOW_END + 2 * PAGE_SIZE), LOW_END, PAGE_SIZE)
    ensures Gap(ph, LOW_END + PAGE_SIZE, PAGE_SIZE) && |FreePages(ph)| == 1
    ensures forall a: nat :: a % PAGE_SIZE == 0 && Gap(ph, a, PAGE_SIZE) ==> LOW_END + PAGE_SIZE <= a
  {
    assert LOW_END in ph.ext;
    assert FreePages(ph) == {LOW_END + PAGE_SIZE};
  }

  lemma EmptyTable(ph: Phys, root: nat, q: nat)
    requires PhysOk(ph) && Barren(ph, root)
    ensures !Present(ph, Table(root, 1, q))
  {
    hide PhysOk, Entry, PTE2PA;
    ZeroEntry();
    assert Entry(ph, root, q % 512) == 0;
  }
}
