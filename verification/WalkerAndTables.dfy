/** The hardware walker over the tables that the driver builds. */
module WalkerAndTables {
  import opened Sv39
  import opened Phys
  import opened PageTable
  import opened ForestChanges
  import M = Mmu
  import I = MmuInvariant
  import R = MmuRuns

  /** The words that memory answers with. */
  ghost function WordsOf(ph: Phys): nat -> nat
    requires PhysOk(ph)
  {
    a => Word(ph, a)
  }

  lemma AddrOfEntry(ppn: nat, vpn: nat, level: nat)
    requires ppn < M.PPNS
    ensures M.EntryAddr(ppn, vpn, level) == ppn * 4096 + 8 * M.VpnIndex(vpn, level)
  {
  }

  lemma PpnIsPage(w: nat)
    ensures PTE2PA(w) == M.PtePpn(w) * 4096
  {
  }

  lemma IndicesAgree(addr: nat)
    ensures var q := Vpn(addr);
      M.VpnIndex(q, 0) == q % 512 && M.VpnIndex(q, 1) == q / 512 % 512 && M.VpnIndex(q, 2) == q / 512 / 512 % 512
  {
    hide Width;
  }

  /** Below the root, the hardware reads the entries that the software's walk reads. */
  lemma SameReads(ph: Phys, root: nat, r: M.Req)
    requires PhysOk(ph) && root % PAGE_SIZE == 0 && root < MAX_PHY_RANGE && r.ptbr % M.PPNS == root / PAGE_SIZE
    ensures var q, mem := Vpn(r.addr), WordsOf(ph);
      && mem(I.ReadAddr(mem, r, 2)) == Entry(ph, root, q / 512 / 512 % 512)
      && mem(I.ReadAddr(mem, r, 1)) == Entry(ph, Walk(ph, root, 1, q / 512 / 512), q / 512 % 512)
      && mem(I.ReadAddr(mem, r, 0)) == Entry(ph, Walk(ph, root, 2, q / 512), q % 512)
  {
    hide PhysOk, Word, PTE2PA, M.PtePpn, Vpn, M.EntryAddr, M.VpnIndex, Width;
    var q, mem := Vpn(r.addr), WordsOf(ph);
    IndicesAgree(r.addr);
    SameVpn(r);
    RootPage(root);
    ReadOf(mem, r, 2);
    ReadOf(mem, r, 1);
    ReadOf(mem, r, 0);
    PpnIsPage(mem(I.ReadAddr(mem, r, 2)));
    PpnIsPage(mem(I.ReadAddr(mem, r, 1)));
  }

  lemma SameVpn(r: M.Req)
    ensures I.VpnOf(r) == Vpn(r.addr)
  {
  }

  lemma RootPage(root: nat)
    requires root % PAGE_SIZE == 0
    ensures root / PAGE_SIZE * 4096 == root
  {
  }

  lemma ReadOf(mem: nat -> nat, r: M.Req, level: nat)
    requires level <= 2
    ensures I.ReadAddr(mem, r, level) == I.Ppn(mem, r, level) * 4096 + 8 * M.VpnIndex(I.VpnOf(r), level)
    ensures I.Ppn(mem, r, level) == if level == 2 then r.ptbr % M.PPNS else M.PtePpn(mem(I.ReadAddr(mem, r, level + 1)))
  {
    hide M.EntryAddr, M.VpnIndex, M.PtePpn;
    AddrOfEntry(I.Ppn(mem, r, level), I.VpnOf(r), level);
  }

  /** The entry that the hardware answers with is the one that convert ends at: convert gives its page
      and the offset, or 0 exactly when the entry names no page. */
  lemma LeafIsConvert(ph: Phys, root: nat, r: M.Req)
    requires PhysOk(ph) && root % PAGE_SIZE == 0 && root < MAX_PHY_RANGE && r.ptbr % M.PPNS == root / PAGE_SIZE
    ensures var leaf := I.Leaf(WordsOf(ph), r);
      PTE2PA(leaf) == Translate(ph, root, Vpn(r.addr))
      && Convert(ph, root, r.addr) == if PTE2PA(leaf) == 0 then 0 else PTE2PA(leaf) + r.addr % PAGE_SIZE
  {
    hide PhysOk, Word, PTE2PA, Vpn, M.EntryAddr, M.VpnIndex, Width, Convert, I.ReadAddr;
    SameReads(ph, root, r);
    ConvertIsWalk(ph, root, r.addr);
  }

  /** The leaf entry of a mapped address: the flags R, W, X and V, and no other, beside its page. */
  lemma LeafFlags(ph: Phys, k: map<nat, Kind>, root: nat, r: M.Req)
    requires PhysOk(ph) && Forest(ph, k) && IsRoot(k, root) && r.ptbr % M.PPNS == root / PAGE_SIZE
    requires Convert(ph, root, r.addr) != 0
    ensures var leaf := I.Leaf(WordsOf(ph), r);
      leaf % 1024 == 15 && leaf == PTE2PA(leaf) / 4 + 15
  {
    hide PhysOk, Forest, Walk, Width, Entry, PTE2PA, Convert, Vpn, WordsOf, I.ReadAddr;
    var q := Vpn(r.addr);
    RootBounds(ph, k, root);
    ConvertIsWalk(ph, root, r.addr);
    LeafIsConvert(ph, root, r);
    SameReads(ph, root, r);
    ShorterPrefix(2, q);
    WalkBefore(ph, root, 2, q);
    WalkFindsTable(ph, k, root, 2, q / 512);
    ZeroEntry();
    EntryFlags(ph, k, Walk(ph, root, 2, q / 512), q % 512);
  }

  /** In every run, each response is the translation of its request, in the tables of any cycle in
      which the request is in flight. */
  lemma RunTranslates(phs: seq<Phys>, mems: seq<nat -> nat>, configs: seq<R.Config>, events: seq<I.Event>, n: nat,
                      s: nat, k: nat, j: nat, root: nat)
    requires R.Run(mems, configs, events) && n <= |events| && s < 4 && R.Logged(configs[n])
    requires |phs| == |mems| && forall i :: 0 <= i < |phs| ==> PhysOk(phs[i]) && mems[i] == WordsOf(phs[i])
    requires j <= n && R.InFlight(configs[j], s, k)
    requires k < |configs[n].logs[s].answered| <= |configs[n].logs[s].accepted|
    requires root % PAGE_SIZE == 0 && root < MAX_PHY_RANGE
    requires configs[n].logs[s].accepted[k].ptbr % M.PPNS == root / PAGE_SIZE
    ensures var req, rsp := configs[n].logs[s].accepted[k], configs[n].logs[s].answered[k];
      Convert(phs[j], root, req.addr) == if PTE2PA(rsp) == 0 then 0 else PTE2PA(rsp) + req.addr % PAGE_SIZE
  {
    hide PhysOk, Convert, PTE2PA, R.StepAt, R.Initial, I.Leaf, WordsOf, R.InFlight;
    R.Delivered(mems, configs, events, n, s);
    assert R.AnswerIs(mems, configs, n, s, k);
    LeafIsConvert(phs[j], root, configs[n].logs[s].accepted[k]);
  }

  /** Every table of root in k is one in k', for the same prefix. */
  ghost predicate KeepsTables(k: map<nat, Kind>, k': map<nat, Kind>, root: nat)
  {
    forall b :: IsTable(k, b) && k[b].root == root ==> b in k' && k'[b] == k[b]
  }

  /** Two memories whose tables of root are the same or fewer in one of them. */
  ghost predicate Comparable(ph: Phys, k: map<nat, Kind>, ph': Phys, k': map<nat, Kind>, root: nat)
  {
    && PhysOk(ph) && Forest(ph, k) && IsRoot(k, root) && PhysOk(ph') && Forest(ph', k') && IsRoot(k', root)
    && (KeepsTables(k, k', root) || KeepsTables(k', k, root))
  }

  /** Where both have a table for a prefix, it is the same one. */
  lemma SameTable(ph: Phys, k: map<nat, Kind>, ph': Phys, k': map<nat, Kind>, root: nat, n: nat, q: nat)
    requires Comparable(ph, k, ph', k', root) && n <= 2 && q < Width(n)
    requires Walk(ph, root, n, q) != 0 && Walk(ph', root, n, q) != 0
    ensures var x := Walk(ph, root, n, q);
      x == Walk(ph', root, n, q) && IsTable(k, x) && IsTable(k', x) && k[x] == k'[x] == Table(root, n, q)
  {
    hide PhysOk, Forest, Walk, Width;
    WalkFindsTable(ph, k, root, n, q);
    WalkFindsTable(ph', k', root, n, q);
    var x, x' := Walk(ph, root, n, q), Walk(ph', root, n, q);
    if KeepsTables(k, k', root) { TableUnique(ph', k', x, x'); } else { TableUnique(ph, k, x, x'); }
  }

  /** A used entry is determined by the page it names. */
  lemma EntryDetermined(ph: Phys, k: map<nat, Kind>, ph': Phys, k': map<nat, Kind>, r: nat, n: nat, q: nat, w: nat,
                        w': nat)
    requires EntryOk(ph, k, r, n, q, w) && EntryOk(ph', k', r, n, q, w') && PTE2PA(w) == PTE2PA(w') != 0
    ensures w == w'
  {
    hide PTE2PA, SetPTE, LeafInto;
    ZeroEntry();
  }

  /** A walk that gets somewhere got somewhere before. */
  lemma WalkBefore(ph: Phys, root: nat, n: nat, q: nat)
    requires PhysOk(ph) && Walk(ph, root, n + 1, q) != 0
    ensures Walk(ph, root, n, q / 512) != 0
    ensures Walk(ph, root, n + 1, q) == PTE2PA(Entry(ph, Walk(ph, root, n, q / 512), q % 512))
  {
    hide PhysOk, PTE2PA, Entry;
    ZeroEntry();
    LowReadsZero(ph, q % 512);
  }

  /** Where a walk leads to the same place, its last read has found the same word. */
  lemma SameEntry(ph: Phys, k: map<nat, Kind>, ph': Phys, k': map<nat, Kind>, root: nat, n: nat, q: nat)
    requires Comparable(ph, k, ph', k', root) && n <= 2 && q < Width(n + 1)
    requires Walk(ph, root, n + 1, q) == Walk(ph', root, n + 1, q) != 0
    ensures Entry(ph', Walk(ph', root, n, q / 512), q % 512) == Entry(ph, Walk(ph, root, n, q / 512), q % 512)
  {
    hide PhysOk, Forest, Walk, Width, Entry, PTE2PA, EntryOk, KeepsTables;
    WalkBefore(ph, root, n, q);
    WalkBefore(ph', root, n, q);
    ShorterPrefix(n, q);
    SameTable(ph, k, ph', k', root, n, q / 512);
    var x := Walk(ph, root, n, q / 512);
    TableFacts(ph, k, x);
    TableFacts(ph', k', x);
    EntryDetermined(ph, k, ph', k', root, n, q, Entry(ph, x, q % 512), Entry(ph', x, q % 512));
  }

  lemma ShorterPrefix(n: nat, q: nat)
    requires q < Width(n + 1)
    ensures q / 512 < Width(n) && 512 * (q / 512) + q % 512 == q
  {
  }

  /** A page that is mapped to the same place in both memories is walked to through the same words. */
  lemma SameWords(ph: Phys, k: map<nat, Kind>, ph': Phys, k': map<nat, Kind>, root: nat, r: M.Req)
    requires Comparable(ph, k, ph', k', root) && r.ptbr % M.PPNS == root / PAGE_SIZE
    requires Convert(ph, root, r.addr) != 0
    requires Translate(ph', root, Vpn(r.addr)) == Translate(ph, root, Vpn(r.addr))
    ensures R.SameWalk(WordsOf(ph), WordsOf(ph'), r)
  {
    hide PhysOk, Forest, Walk, Width, Entry, PTE2PA, Convert, Vpn, WordsOf, I.ReadAddr, KeepsTables, M.PtePpn;
    var q := Vpn(r.addr);
    ConvertIsWalk(ph, root, r.addr);
    RootBounds(ph, k, root);
    ShorterPrefix(2, q);
    ShorterPrefix(1, q / 512);
    ShorterPrefix(0, q / 512 / 512);
    SameEntry(ph, k, ph', k', root, 2, q);
    WalkBefore(ph, root, 2, q);
    WalkBefore(ph', root, 2, q);
    SameTable(ph, k, ph', k', root, 2, q / 512);
    SameEntry(ph, k, ph', k', root, 1, q / 512);
    WalkBefore(ph, root, 1, q / 512);
    WalkBefore(ph', root, 1, q / 512);
    SameTable(ph, k, ph', k', root, 1, q / 512 / 512);
    SameEntry(ph, k, ph', k', root, 0, q / 512 / 512);
    TopWalk(ph, root, q / 512 / 512);
    TopWalk(ph', root, q / 512 / 512);
    SameReads(ph, root, r);
    SameReads(ph', root, r);
    ReadsAlike(WordsOf(ph), WordsOf(ph'), r);
  }

  lemma TopWalk(ph: Phys, root: nat, q: nat)
    requires PhysOk(ph) && q < Width(1)
    ensures Walk(ph, root, 0, q / 512) == root && q % 512 == q
  {
  }

  lemma RootBounds(ph: Phys, k: map<nat, Kind>, root: nat)
    requires PhysOk(ph) && Forest(ph, k) && IsRoot(k, root)
    ensures root % PAGE_SIZE == 0 && root < MAX_PHY_RANGE
  {
    hide PhysOk, Forest, Entry, EntryOk;
    TableFacts(ph, k, root);
  }

  /** Walks that find the same words level by level are at the same addresses. */
  lemma ReadsAlike(mem: nat -> nat, mem': nat -> nat, r: M.Req)
    requires forall l: nat :: l <= 2 ==> mem'(I.ReadAddr(mem', r, l)) == mem(I.ReadAddr(mem, r, l))
    ensures R.SameWalk(mem, mem', r)
  {
    hide I.VpnOf, M.VpnIndex, M.PtePpn;
    ReadOf(mem, r, 2);
    ReadOf(mem', r, 2);
    ReadOf(mem, r, 1);
    ReadOf(mem', r, 1);
    ReadOf(mem, r, 0);
    ReadOf(mem', r, 0);
  }
}
