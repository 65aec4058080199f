/** Three-level page tables laid out in physical memory. */
module PageTable {
  import opened Bits
  import opened Sv39
  import opened Phys

  /** Number of prefixes of n page-number fields. */
  function Width(n: nat): (w: nat)
    ensures w > 0
  {
    if n == 0 then 1 else 512 * Width(n - 1)
  }

  /** The 27-bit virtual page number. */
  function Vpn(va: nat): (q: nat)
    ensures q < Width(3)
  {
    assert Width(3) == 512 * Width(2) && Width(2) == 512 * Width(1);
    va / 4096 % 0x800_0000
  }

  /** Entry i of the table at t. */
  ghost function Entry(ph: Phys, t: nat, i: nat): (w: nat)
    requires PhysOk(ph)
    ensures w < WORD_RANGE
  {
    Word(ph, t + 8 * i)
  }

  /** Where n table reads along the page-number prefix q lead. */
  ghost function Walk(ph: Phys, root: nat, n: nat, q: nat): nat
    requires PhysOk(ph)
    decreases n
  {
    if n == 0 then root else PTE2PA(Entry(ph, Walk(ph, root, n - 1, q / 512), q % 512))
  }

  /** The page that a virtual page of a root maps to, 0 when unmapped. */
  ghost function Translate(ph: Phys, root: nat, q: nat): nat
    requires PhysOk(ph)
  {
    Walk(ph, root, 3, q)
  }

  /** convert, with its three early returns. */
  ghost function Convert(ph: Phys, root: nat, va: nat): nat
    requires PhysOk(ph)
  {
    var pt1 := PTE2PA(Word(ph, root + VAextract(va, 0) * 8));
    if pt1 == 0 then 0 else
    var pt2 := PTE2PA(Word(ph, pt1 + VAextract(va, 1) * 8));
    if pt2 == 0 then 0 else
    var pa := PTE2PA(Word(ph, pt2 + VAextract(va, 2) * 8));
    if pa == 0 then 0 else pa + va % PAGE_SIZE
  }

  lemma LowReadsZero(ph: Phys, i: nat)
    requires PhysOk(ph) && i < 512
    ensures Entry(ph, 0, i) == 0
  {
  }

  lemma VpnFields(va: nat)
    ensures Vpn(va) / 512 / 512 == VAextract(va, 0)
    ensures Vpn(va) / 512 % 512 == VAextract(va, 1)
    ensures Vpn(va) % 512 == VAextract(va, 2)
  {
    var v := va / 4096;
    assert va / 0x20_0000 == v / 512 && va / 0x4000_0000 == v / 512 / 512;
    Fields(v);
  }

  lemma Fields(v: nat)
    ensures var q := v % 0x800_0000;
      q % 512 == v % 512 && q / 512 % 512 == v / 512 % 512 && q / 512 / 512 == v / 512 / 512 % 512
  {
    var u := v / 512;
    var w := u / 512;
    var a, b, c, h := v % 512, u % 512, w % 512, w / 512;
    var low := 512 * c + b;
    var q := 512 * low + a;
    SplitField(c, b);
    SplitField(low, a);
    assert v == h * 0x800_0000 + q;
    Remainder(v, 0x800_0000, h, q);
  }

  lemma SplitField(high: nat, low: nat)
    requires low < 512
    ensures (512 * high + low) / 512 == high && (512 * high + low) % 512 == low
  {
  }

  /** The early returns change nothing: the reserved low range always reads as 0. */
  lemma ConvertIsWalk(ph: Phys, root: nat, va: nat)
    requires PhysOk(ph)
    ensures Convert(ph, root, va) ==
            (var p := Translate(ph, root, Vpn(va)); if p == 0 then 0 else p + va % PAGE_SIZE)
  {
    hide PTE2PA, Word, PhysOk, Vpn, VAextract;
    VpnFields(va);
    ZeroEntry();
    var q := Vpn(va);
    var x1 := Walk(ph, root, 1, q / 512 / 512);
    assert x1 == PTE2PA(Entry(ph, root, VAextract(va, 0)));
    var x2 := Walk(ph, root, 2, q / 512);
    assert x2 == PTE2PA(Entry(ph, x1, VAextract(va, 1)));
    LowReadsZero(ph, VAextract(va, 1));
    LowReadsZero(ph, VAextract(va, 2));
  }

  lemma ZeroEntry()
    ensures PTE2PA(0) == 0
  {
  }

  /** What a backed block is for. A table at depth `level` serves one prefix of one
      root; a data block was mapped by one root at one virtual address. */
  datatype Kind = Table(root: nat, level: nat, prefix: nat) | Data(root: nat, va: nat)

  ghost predicate IsTable(k: map<nat, Kind>, b: nat)
  {
    b in k && k[b].Table?
  }

  ghost predicate IsRoot(k: map<nat, Kind>, r: nat)
  {
    r in k && k[r] == Table(r, 0, 0)
  }

  ghost predicate LeafInto(ph: Phys, k: map<nat, Kind>, r: nat, q: nat, pa: nat, p: nat)
  {
    && InBlock(ph, p, pa, PAGE_SIZE) && p in k && k[p].Data? && k[p].root == r
    && q * PAGE_SIZE == k[p].va + (pa - p)
  }

  /** An entry at depth n for prefix q: 0, or a pointer to that prefix's own table,
      or a leaf into the data block mapped there. */
  ghost predicate EntryOk(ph: Phys, k: map<nat, Kind>, r: nat, n: nat, q: nat, w: nat)
  {
    var pa := PTE2PA(w);
    w == 0
    || (n < 2 && w == SetPTE(pa, V) && pa in k && k[pa] == Table(r, n + 1, q))
    || (n == 2 && w == SetPTE(pa, RWXV) && exists p: nat :: LeafInto(ph, k, r, q, pa, p))
  }

  ghost predicate TableOk(ph: Phys, k: map<nat, Kind>, b: nat, r: nat, n: nat, q: nat)
    requires PhysOk(ph)
  {
    && n <= 2 && q < Width(n) && InBlock(ph, b, b, PAGE_SIZE) && ph.ext[b] == PAGE_SIZE
    && IsRoot(k, r) && Walk(ph, r, n, q) == b
    && forall i :: 0 <= i < 512 ==> EntryOk(ph, k, r, n, 512 * q + i, Entry(ph, b, i))
  }

  /** Every backed block has one purpose; tables form trees, none shared. */
  ghost predicate Forest(ph: Phys, k: map<nat, Kind>)
  {
    && PhysOk(ph) && Paged(ph) && k.Keys == ph.ext.Keys
    && forall b :: IsTable(k, b) ==> TableOk(ph, k, b, k[b].root, k[b].level, k[b].prefix)
  }

  /** A walk of up to two reads finds nothing or the table of its prefix. */
  lemma {:induction false} WalkFindsTable(ph: Phys, k: map<nat, Kind>, r: nat, n: nat, q: nat)
    requires Forest(ph, k) && IsRoot(k, r) && n <= 2 && q < Width(n)
    ensures var x := Walk(ph, r, n, q); x == 0 || (IsTable(k, x) && k[x] == Table(r, n, q))
    decreases n
  {
    hide PTE2PA, SetPTE, Entry, PhysOk, Paged, InBlock;
    ZeroEntry();
    if n > 0 {
      var y := Walk(ph, r, n - 1, q / 512);
      WalkFindsTable(ph, k, r, n - 1, q / 512);
      if y == 0 {
        LowReadsZero(ph, q % 512);
      } else {
        assert TableOk(ph, k, y, r, n - 1, q / 512);
        assert 512 * (q / 512) + q % 512 == q;
        assert EntryOk(ph, k, r, n - 1, q, Entry(ph, y, q % 512));
      }
    }
  }

  lemma TableFacts(ph: Phys, k: map<nat, Kind>, t: nat)
    requires Forest(ph, k) && IsTable(k, t)
    ensures k[t].level <= 2 && k[t].prefix < Width(k[t].level) && IsRoot(k, k[t].root)
    ensures Walk(ph, k[t].root, k[t].level, k[t].prefix) == t
    ensures InBlock(ph, t, t, PAGE_SIZE) && ph.ext[t] == PAGE_SIZE && LOW_END <= t && t % PAGE_SIZE == 0
    ensures t < MAX_PHY_RANGE
    ensures forall i :: 0 <= i < 512 ==>
      EntryOk(ph, k, k[t].root, k[t].level, 512 * k[t].prefix + i, Entry(ph, t, i))
  {
    hide Walk, EntryOk, Entry;
  }

  lemma LeafEntry(ph: Phys, k: map<nat, Kind>, r: nat, q: nat, w: nat)
    requires EntryOk(ph, k, r, 2, q, w)
    ensures var pa := PTE2PA(w);
      pa == 0 || exists p: nat :: LeafInto(ph, k, r, q, pa, p)
  {
    hide PTE2PA, SetPTE, LeafInto;
    ZeroEntry();
  }

  /** A full walk finds nothing or a page of a data block that this root mapped there. */
  lemma TranslateFindsData(ph: Phys, k: map<nat, Kind>, r: nat, q: nat)
    requires Forest(ph, k) && IsRoot(k, r) && q < Width(3)
    ensures var pa := Translate(ph, r, q);
      pa == 0 || exists p: nat :: LeafInto(ph, k, r, q, pa, p)
  {
    hide PTE2PA, SetPTE, Entry, PhysOk, Paged, LeafInto, InBlock, TableOk, EntryOk;
    var y := Walk(ph, r, 2, q / 512);
    WalkFindsTable(ph, k, r, 2, q / 512);
    if y == 0 {
      ZeroEntry();
      LowReadsZero(ph, q % 512);
    } else {
      TableFacts(ph, k, y);
      assert 512 * (q / 512) + q % 512 == q;
      LeafEntry(ph, k, r, q, Entry(ph, y, q % 512));
    }
  }

  /** No physical page is mapped twice, by one root or by two. */
  lemma TranslateInjective(ph: Phys, k: map<nat, Kind>, r: nat, q: nat, r': nat, q': nat)
    requires Forest(ph, k) && IsRoot(k, r) && IsRoot(k, r') && q < Width(3) && q' < Width(3)
    requires Translate(ph, r, q) == Translate(ph, r', q') != 0
    ensures r == r' && q == q'
  {
    TranslateFindsData(ph, k, r, q);
    TranslateFindsData(ph, k, r', q');
    var pa := Translate(ph, r, q);
    var p: nat :| LeafInto(ph, k, r, q, pa, p);
    var p': nat :| LeafInto(ph, k, r', q', pa, p');
    assert p == p';
  }

  lemma TableUnique(ph: Phys, k: map<nat, Kind>, b: nat, c: nat)
    requires Forest(ph, k) && IsTable(k, b) && IsTable(k, c) && k[b] == k[c]
    ensures b == c
  {
  }

  /** All 512 entries read as 0. */
  ghost predicate Barren(ph: Phys, c: nat)
    requires PhysOk(ph)
  {
    forall j :: 0 <= j < 512 ==> Entry(ph, c, j) == 0
  }

  /** ph' differs from ph, as far as the tables of ph go, in entry i of table t at most. */
  ghost predicate SameEntriesBut(ph: Phys, ph': Phys, k: map<nat, Kind>, t: nat, i: nat)
    requires PhysOk(ph) && PhysOk(ph')
  {
    forall b: nat, j: nat :: IsTable(k, b) && j < 512 && (b != t || j != i) ==> Entry(ph', b, j) == Entry(ph, b, j)
  }

  /** The walk node that entry i of table t leads to. */
  ghost function NodeAt(k: map<nat, Kind>, t: nat, i: nat): Kind
    requires IsTable(k, t)
  {
    Table(k[t].root, k[t].level + 1, 512 * k[t].prefix + i)
  }

  /** One read of WalkAfter: x and x' are where the reads so far have led. */
  lemma StepAfter(ph: Phys, ph': Phys, k: map<nat, Kind>, t: nat, i: nat, x: nat, x': nat, from: Kind, j: nat)
    requires PhysOk(ph) && PhysOk(ph') && IsTable(k, t) && t != 0
    requires i < 512 && j < 512 && SameEntriesBut(ph, ph', k, t, i)
    requires from.Table? && (x == 0 || (IsTable(k, x) && k[x] == from))
    requires x' == if from == NodeAt(k, t, i) then PTE2PA(Entry(ph', t, i)) else x
    requires from == NodeAt(k, t, i) ==>
      x == PTE2PA(Entry(ph, t, i)) && Barren(ph, x) && Barren(ph', x')
    requires k[t] == from ==> x == t
    ensures PTE2PA(Entry(ph', x', j)) ==
      if Table(from.root, from.level + 1, 512 * from.prefix + j) == NodeAt(k, t, i)
      then PTE2PA(Entry(ph', t, i)) else PTE2PA(Entry(ph, x, j))
  {
  }

  /** Rewriting one entry that leads to no leaf, before or after, moves one node of the walk. */
  lemma {:induction false} WalkAfter(ph: Phys, ph': Phys, k: map<nat, Kind>, t: nat, i: nat, r: nat, n: nat, q: nat)
    requires PhysOk(ph) && Forest(ph, k) && PhysOk(ph') && IsTable(k, t) && i < 512 && SameEntriesBut(ph, ph', k, t, i)
    requires k[t].level < 2 ==>
      Barren(ph, PTE2PA(Entry(ph, t, i))) && Barren(ph', PTE2PA(Entry(ph', t, i)))
    requires IsRoot(k, r) && n <= 3 && q < Width(n)
    ensures Walk(ph', r, n, q) ==
      if Table(r, n, q) == NodeAt(k, t, i) then PTE2PA(Entry(ph', t, i)) else Walk(ph, r, n, q)
    decreases n
  {
    hide PTE2PA, Entry, PhysOk, Forest, SameEntriesBut, Barren, InBlock, EntryOk;
    if n > 0 {
      WalkAfter(ph, ph', k, t, i, r, n - 1, q / 512);
      WalkFindsTable(ph, k, r, n - 1, q / 512);
      TableFacts(ph, k, t);
      var x, x' := Walk(ph, r, n - 1, q / 512), Walk(ph', r, n - 1, q / 512);
      var from := Table(r, n - 1, q / 512);
      if from == NodeAt(k, t, i) {
        NodeParent(ph, k, t, i);
      }
      StepAfter(ph, ph', k, t, i, x, x', from, q % 512);
    }
  }

  lemma NodeParent(ph: Phys, k: map<nat, Kind>, t: nat, i: nat)
    requires Forest(ph, k) && IsTable(k, t) && i < 512
    ensures var node := NodeAt(k, t, i);
      Walk(ph, node.root, node.level, node.prefix) == PTE2PA(Entry(ph, t, i))
  {
    hide PTE2PA, Entry, PhysOk, Forest, InBlock, EntryOk;
    TableFacts(ph, k, t);
    SplitField(k[t].prefix, i);
  }
}
